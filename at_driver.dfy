// The AT driver's descriptor (struct at_desc, at_driver.c): the command it
// builds and writes to the UART, the UART callback that scans what the
// module sends back, and the blocking executor at_run_cmd.
//
// The UART is a byte stream: `incoming` holds what the module will send,
// `txLog` what the driver wrote. A write completes at once (WRITE_DONE
// clears cmd.len). A read request of n bytes completes on a later
// millisecond tick, when n bytes have arrived; mdelay(ms) is ms ticks.

module AtDriver {
  import opened Common
  import opened AtDefs
  import opened AtTable
  import opened AtFormat
  import opened AtScan
  import opened AtMatch
  import opened AtRefresh
  import opened AtRun

  function Min(a: nat, b: nat): (r: nat)
    ensures r <= a && r <= b && (r == a || r == b)
  {
    if a <= b then a else b
  }

  /** at_sprintf's loop: argument k, then a ',' when more follow, then the rest. */
  lemma FormatArgsFrom(w: seq<byte>, args: seq<Arg>, k: nat)
    requires k < |args|
    ensures w + FormatArgs(args[k..])
      == (w + FormatArg(args[k]) + (if k + 1 < |args| then [','] else [])) + FormatArgs(args[k + 1..])
  {
    assert args[k..][1..] == args[k + 1..];
    if k + 1 == |args| {
      assert args[k + 1..] == [];
    }
  }

  /** Compares pat backwards with the bytes of a that end at index i, and stops at index 0. */
  method EndsWithBackward(a: array<byte>, n: nat, i: nat, pat: seq<byte>) returns (b: bool)
    requires i < n <= a.Length
    ensures b <==> |pat| <= i + 1 && a[i + 1 - |pat|..i + 1] == pat
  {
    var k := 0;
    while k < |pat| && i - k >= 0 && a[i - k] == pat[|pat| - 1 - k]
      invariant 0 <= k <= |pat| && k <= i + 1
      invariant a[i + 1 - k..i + 1] == pat[|pat| - k..]
    {
      assert a[i - k..i + 1] == [a[i - k]] + a[i + 1 - k..i + 1];
      assert pat[|pat| - 1 - k..] == [pat[|pat| - 1 - k]] + pat[|pat| - k..];
      k := k + 1;
    }
    b := k == |pat|;
  }

  /** The "+IPD" message at the end of buf (if any) announced payload bytes, and the buffer was cut to just before it. */
  ghost predicate ProcessedIpd(buf: seq<byte>, multiple: bool, payload: Option<nat>, len: nat)
  {
    var ipd := IpdMessage(buf, multiple);
    payload == (if ipd.Some? then Some(ipd.value.1) else None) && (ipd.Some? ==> len == IpdCut(ipd.value.0))
  }

  /** at_run_cmd's return, and a busy wait the module never releases. */
  datatype Outcome = Success | Failure | Hung

  /** What build_cmd_param reads of the parameter: the member the command names, with fields that fit their C types. */
  predicate ParamFits(c: AtCmd, op: CmdOperation, param: Option<InParam>, multiple: bool)
  {
    op == SetOp && param.Some? ==>
      ParamMatchesCmd(c, param.value) && InParamFieldsFit(param.value)
      && (c == Send && multiple ==> param.value.sendId < MAX_CONNECTIONS)
  }

  /** The protocol of the connection AT+CIPSEND sends on: its id in multiplexed mode, else 0. */
  function SendSocket(p: InParam, multiple: bool, conns: seq<ConnSlot>): SocketType
    requires |conns| == MAX_CONNECTIONS && p.SendData?
    requires multiple ==> p.sendId < MAX_CONNECTIONS
  {
    conns[if multiple then p.sendId else 0].socketType
  }

  /** The arguments build_cmd_param writes, when build_cmd calls it. */
  function CmdArgs(c: AtCmd, op: CmdOperation, param: Option<InParam>, multiple: bool, conns: seq<ConnSlot>): Option<seq<Arg>>
    requires |conns| == MAX_CONNECTIONS && ParamFits(c, op, param, multiple)
  {
    if op == SetOp && param.Some? then
      var p := param.value;
      Some(ParamArgs(c, p, multiple, if c == Send then SendSocket(p, multiple, conns) else SocketTcp))
    else None
  }

  /** The delay after AT+RST, in milliseconds. */
  const RESET_DELAY: nat := 6000

  /** The command stop_echo writes. */
  const ECHO_OFF: seq<byte> := "ATE0\r\n"

  /** What exit_send_unvernished_mode writes. */
  const UNVARNISHED_END: seq<byte> := "+++"

  /** The message parse_result waits for after AT+CWQAP, and how often it looks. */
  const DISCONNECT_MSG: seq<byte> := "WIFI DISCONNECT\r\n"
  const DISCONNECT_CHECKS: nat := 11

  /** The text build_cmd writes for the command, in the driver's current connection mode. */
  function CommandText(c: AtCmd, op: CmdOperation, param: Option<InParam>, multiple: bool, conns: seq<ConnSlot>): seq<byte>
    requires |conns| == MAX_CONNECTIONS && ParamFits(c, op, param, multiple)
  {
    CmdText(c, SuffixOf(op, CmdArgs(c, op, param, multiple, conns)))
  }

  /** The bytes at_run_cmd writes to the UART for command c once its text is built. */
  function Wire(c: AtCmd, param: Option<InParam>, text: seq<byte>): seq<byte>
    requires c == Send ==> param.Some? && param.value.SendData?
  {
    if c == DeepSleep then []
    else if c == Reset then text + ECHO_OFF
    else if c == Send then text + param.value.data
    else text
  }

  /** The bytes at_run_cmd writes to the UART once the command has passed its gates. */
  function Transmitted(c: AtCmd, op: CmdOperation, param: Option<InParam>, multiple: bool, conns: seq<ConnSlot>): seq<byte>
    requires |conns| == MAX_CONNECTIONS && ParamFits(c, op, param, multiple)
    requires c == Send ==> param.Some? && param.value.SendData?
  {
    Wire(c, param, CommandText(c, op, param, multiple, conns))
  }

  /** The comparison parse_result makes, as it is written: the buffer may hold at most 17 bytes. */
  predicate DisconnectSeenAsWritten(buf: seq<byte>, len: nat)
    requires |buf| >= |DISCONNECT_MSG|
  {
    |DISCONNECT_MSG| >= len && buf[..|DISCONNECT_MSG|] == DISCONNECT_MSG
  }

  /** The comparison as intended: the result buffer starts with the whole message. */
  predicate DisconnectSeen(buf: seq<byte>, len: nat)
    requires |buf| >= |DISCONNECT_MSG|
  {
    len >= |DISCONNECT_MSG| && buf[..|DISCONNECT_MSG|] == DISCONNECT_MSG
  }

  /**
   * The inverted comparison accepts an empty result buffer whose stale
   * bytes spell the message, and rejects a buffer that holds the message
   * and more.
   */
  lemma DisconnectComparisonInverted(stale: seq<byte>)
    requires |stale| >= |DISCONNECT_MSG| && stale[..|DISCONNECT_MSG|] == DISCONNECT_MSG
    ensures DisconnectSeenAsWritten(stale, 0) && !DisconnectSeen(stale, 0)
    ensures var buf := DISCONNECT_MSG + "\r\n";
      !DisconnectSeenAsWritten(buf, |buf|) && DisconnectSeen(buf, |buf|)
  {
    var buf := DISCONNECT_MSG + "\r\n";
    assert buf[..|DISCONNECT_MSG|] == DISCONNECT_MSG;
  }

  /** The index of the first check that saw the message, if any. */
  function FirstSeen(seen: seq<bool>): (r: Option<nat>)
    ensures r.Some? ==> r.value < |seen| && seen[r.value] && forall k :: 0 <= k < r.value ==> !seen[k]
    ensures r.None? ==> forall k :: 0 <= k < |seen| ==> !seen[k]
  {
    if |seen| == 0 then None
    else if seen[0] then Some(0)
    else
      match FirstSeen(seen[1..])
      case None => None
      case Some(k) => Some(k + 1)
  }

  /** A check appended after checks that saw nothing is the first to see, if it sees. */
  lemma {:induction false} FirstSeenSnoc(seen: seq<bool>, b: bool)
    requires FirstSeen(seen).None?
    ensures FirstSeen(seen + [b]) == if b then Some(|seen|) else None
    decreases |seen|
  {
    if seen == [] {
      assert seen + [b] == [b] && [b][1..] == [];
    } else {
      assert !seen[0];
      assert (seen + [b])[1..] == seen[1..] + [b];
      FirstSeenSnoc(seen[1..], b);
    }
  }

  /**
   * The wait of parse_result as it is written, given what each of its 11
   * checks sees: `while (timeout--)` leaves timeout at 0xFFFFFFFF when
   * every check failed, so the wait succeeds; a message seen at the last
   * check leaves timeout at 0, so the wait fails.
   */
  method DisconnectWaitAsWritten(seen: seq<bool>) returns (ok: bool)
    requires |seen| == DISCONNECT_CHECKS
    ensures ok <==> FirstSeen(seen) != Some(DISCONNECT_CHECKS - 1)
    ensures FirstSeen(seen).None? ==> ok
  {
    var timeout: nat := DISCONNECT_CHECKS - 1;
    var k := 0;
    while true
      invariant 0 <= k < DISCONNECT_CHECKS && timeout == DISCONNECT_CHECKS - 1 - k
      invariant forall q :: 0 <= q < k ==> !seen[q]
      decreases DISCONNECT_CHECKS - k
    {
      if seen[k] {
        break;
      }
      // mdelay(100), then timeout--
      if timeout == 0 {
        timeout := U32_MODULUS - 1;
        break;
      }
      timeout := timeout - 1;
      k := k + 1;
    }
    ok := timeout != 0;
  }

  class AtDesc {
    // result and cmd, with their buffers in at_desc.buffers
    var result: array<byte>
    var resultLen: nat
    var cmd: array<byte>
    var cmdLen: nat
    var matchIdx: seq<nat>
    var connections: seq<ConnSlot>
    var multipleConnections: bool
    var resultStatus: ResultStatus
    var callbackState: CallbackState
    var waitingSend: bool
    var isReset: bool
    // read_ch, and the UART read the callback last submitted
    var readCh: byte
    var readIntoApp: bool
    var readBuff: array<byte>
    var readLen: nat
    // app_data: the application's buffer, its size and the bytes still due
    var appBuff: array<byte>
    // every buffer the application handed over: a payload read may still land in a replaced one
    ghost var bufs: set<array<byte>>
    var appDataLen: nat
    var appSize: nat
    var pending: nat
    // app_callback: whether there is one, and the lengths it was called with
    var hasCallback: bool
    var notified: seq<nat>
    // cb_response
    var cbResponse: seq<byte>
    // the UART
    var txLog: seq<byte>
    var incoming: seq<byte>

    /** What at_strcatch and at_strcat rely on: the command buffer and its length. */
    ghost predicate CmdValid()
      reads this`cmd, this`cmdLen
    {
      cmd.Length == CMD_BUFF_LEN && cmdLen <= CMD_BUFF_LEN
    }

    ghost predicate Valid()
      reads this`cmd, this`cmdLen, this`result, this`resultLen, this`connections, this`matchIdx
      reads this`appBuff, this`appSize, this`readIntoApp, this`readLen, this`readBuff, this`bufs
    {
      CmdValid() && result.Length == RESULT_BUFF_LEN
      && |connections| == MAX_CONNECTIONS
      && result != cmd && readBuff in bufs && appBuff in bufs && result !in bufs && cmd !in bufs
      && resultLen <= RESULT_BUFF_LEN
      && ValidCounters(matchIdx)
      && appSize <= appBuff.Length && IsU32(appSize)
      && (readIntoApp ==> readLen <= readBuff.Length)
      && (!readIntoApp ==> readLen == 1)
    }

    /** The state refresh_status reads and writes. */
    function Matching(): MatchState
      reads this`matchIdx, this`resultLen, this`resultStatus, this`connections
    {
      MatchState(matchIdx, resultLen, resultStatus, connections)
    }

    /**
     * The fields at_init sets up: static buffers, cmd.len at capacity,
     * the first one-byte read submitted, the application's buffer.
     */
    constructor (buff: array<byte>, size: nat, callback: bool, stream: seq<byte>)
      requires size <= buff.Length && IsU32(size)
      ensures Valid() && fresh(result) && fresh(cmd)
      ensures resultLen == 0 && cmdLen == CMD_BUFF_LEN && matchIdx == ZERO_COUNTERS
      ensures connections == [ConnSlot(false, SocketTcp), ConnSlot(false, SocketTcp), ConnSlot(false, SocketTcp), ConnSlot(false, SocketTcp)]
      ensures !multipleConnections && resultStatus == WaitingResult && callbackState == ReadingModuleMsg
      ensures !readIntoApp && readLen == 1
      ensures appBuff == buff && appSize == size && appDataLen == 0 && pending == 0
      ensures hasCallback == callback && notified == [] && cbResponse == [] && txLog == [] && incoming == stream
    {
      result := new byte[RESULT_BUFF_LEN](_ => '\0');
      resultLen := 0;
      cmd := new byte[CMD_BUFF_LEN](_ => '\0');
      cmdLen := CMD_BUFF_LEN;
      matchIdx := ZERO_COUNTERS;
      connections := [ConnSlot(false, SocketTcp), ConnSlot(false, SocketTcp), ConnSlot(false, SocketTcp), ConnSlot(false, SocketTcp)];
      multipleConnections := false;
      resultStatus := WaitingResult;
      callbackState := ReadingModuleMsg;
      waitingSend := false;
      isReset := false;
      readCh := '\0';
      readIntoApp := false;
      readBuff := buff;
      readLen := 1;
      appBuff := buff;
      bufs := {buff};
      appDataLen := 0;
      appSize := size;
      pending := 0;
      hasCallback := callback;
      notified := [];
      cbResponse := [];
      txLog := [];
      incoming := stream;
    }

    // -------------------------------------------------------------------
    // The command buffer

    /** at_strcatch. */
    method CmdAppendByte(ch: byte)
      requires CmdValid() && cmdLen < CMD_BUFF_LEN
      modifies this`cmdLen, cmd
      ensures CmdValid() && cmd[..cmdLen] == old(cmd[..cmdLen]) + [ch]
    {
      cmd[cmdLen] := ch;
      cmdLen := cmdLen + 1;
    }

    /** Two at_strcatch calls in a row. */
    method CmdAppendPair(a: byte, b: byte)
      requires CmdValid() && cmdLen + 2 <= CMD_BUFF_LEN
      modifies this`cmdLen, cmd
      ensures CmdValid() && cmd[..cmdLen] == old(cmd[..cmdLen]) + [a, b]
    {
      CmdAppendByte(a);
      CmdAppendByte(b);
    }

    /** at_strcat. */
    method CmdAppend(s: seq<byte>)
      requires CmdValid() && cmdLen + |s| <= CMD_BUFF_LEN
      modifies this`cmdLen, cmd
      ensures CmdValid() && cmd[..cmdLen] == old(cmd[..cmdLen]) + s
    {
      forall k | 0 <= k < |s| {
        cmd[cmdLen + k] := s[k];
      }
      cmdLen := cmdLen + |s|;
    }

    /** An 's' argument of at_sprintf: quoted, with '"', ',' and '\' escaped. */
    method AppendStr(s: seq<byte>)
      requires CmdValid() && cmdLen + |Escape(s)| + 2 <= CMD_BUFF_LEN
      modifies this`cmdLen, cmd
      ensures CmdValid() && cmd[..cmdLen] == old(cmd[..cmdLen]) + FormatArg(Str(s))
    {
      ghost var start := cmd[..cmdLen];
      CmdAppendByte('"');
      var i := 0;
      while i < |s|
        invariant 0 <= i <= |s| && CmdValid()
        invariant cmd[..cmdLen] + Escape(s[i..]) == start + ['"'] + Escape(s)
      {
        ghost var w := cmd[..cmdLen];
        var ch := s[i];
        assert s[i..][1..] == s[i + 1..];
        assert Escape(s[i..]) == EscapedByte(ch) + Escape(s[i + 1..]);
        if ch == '"' || ch == ',' || ch == '\\' {
          CmdAppendByte('\\');
        }
        CmdAppendByte(ch);
        assert cmd[..cmdLen] == w + EscapedByte(ch);
        AppendAssoc(w, EscapedByte(ch), Escape(s[i + 1..]));
        i := i + 1;
      }
      assert Escape(s[i..]) == [];
      assert cmd[..cmdLen] == start + ['"'] + Escape(s);
      CmdAppendByte('"');
      assert FormatArg(Str(s)) == ['"'] + Escape(s) + ['"'];
      AppendAssoc(start + ['"'], Escape(s), ['"']);
      AppendAssoc(start, ['"'], Escape(s) + ['"']);
      AppendAssoc(['"'], Escape(s), ['"']);
    }

    /** One argument of at_sprintf: itoa's digits for 'd', the quoted string for 's'. */
    method AppendArg(a: Arg)
      requires CmdValid() && cmdLen + |FormatArg(a)| <= CMD_BUFF_LEN
      modifies this`cmdLen, cmd
      ensures CmdValid() && cmd[..cmdLen] == old(cmd[..cmdLen]) + FormatArg(a)
    {
      match a {
        case Dec(v) => CmdAppend(Itoa(v));
        case Str(s) => AppendStr(s);
      }
    }

    /** at_sprintf: the arguments in order, separated by ','. */
    method Sprintf(args: seq<Arg>)
      requires CmdValid() && cmdLen + |FormatArgs(args)| <= CMD_BUFF_LEN
      modifies this`cmdLen, cmd
      ensures CmdValid() && cmd[..cmdLen] == old(cmd[..cmdLen]) + FormatArgs(args)
    {
      ghost var start := cmd[..cmdLen];
      var k := 0;
      while k < |args|
        decreases |args| - k
        invariant 0 <= k <= |args| && CmdValid()
        invariant cmd[..cmdLen] + FormatArgs(args[k..]) == start + FormatArgs(args)
      {
        ghost var w := cmd[..cmdLen];
        ghost var sep: seq<byte> := if k + 1 < |args| then [','] else [];
        FormatArgsFrom(w, args, k);
        AppendArg(args[k]);
        k := k + 1;
        if k < |args| {
          CmdAppendByte(',');
        }
        assert cmd[..cmdLen] == w + FormatArg(args[k - 1]) + sep;
      }
      assert FormatArgs(args[k..]) == [];
    }

    /** build_cmd_param for the '=' form of a command. */
    method BuildCmdParam(c: AtCmd, p: InParam)
      requires CmdValid() && |connections| == MAX_CONNECTIONS && ParamFits(c, SetOp, Some(p), multipleConnections)
      requires cmdLen + |FormatArgs(CmdArgs(c, SetOp, Some(p), multipleConnections, connections).value)| <= CMD_BUFF_LEN
      modifies this`cmdLen, cmd
      ensures CmdValid() && cmd[..cmdLen] == old(cmd[..cmdLen]) + FormatArgs(CmdArgs(c, SetOp, Some(p), multipleConnections, connections).value)
    {
      var sock := SocketTcp;
      if c == Send {
        var connId := if multipleConnections then p.sendId else 0;
        sock := connections[connId].socketType;
      }
      Sprintf(ParamArgs(c, p, multipleConnections, sock));
    }

    /** The operation's part of build_cmd: '?', '=?', or '=' and the parameter. */
    method AppendSuffix(c: AtCmd, op: CmdOperation, param: Option<InParam>)
      requires CmdValid() && |connections| == MAX_CONNECTIONS && ParamFits(c, op, param, multipleConnections)
      requires cmdLen + |SuffixText(SuffixOf(op, CmdArgs(c, op, param, multipleConnections, connections)))| <= CMD_BUFF_LEN
      modifies this`cmdLen, cmd
      ensures CmdValid() && cmd[..cmdLen] == old(cmd[..cmdLen]) + SuffixText(SuffixOf(op, CmdArgs(c, op, param, multipleConnections, connections)))
    {
      ghost var start := cmd[..cmdLen];
      if op == Query {
        CmdAppendByte('?');
      }
      if op == Test {
        CmdAppendByte('=');
        CmdAppendByte('?');
        assert cmd[..cmdLen] == start + ['=', '?'];
      }
      if op == SetOp && param.Some? {
        CmdAppendByte('=');
        ghost var w := cmd[..cmdLen];
        BuildCmdParam(c, param.value);
        AppendAssoc(start, ['='], FormatArgs(CmdArgs(c, op, param, multipleConnections, connections).value));
      }
      if op == Execute || (op == SetOp && param.None?) {
        assert cmd[..cmdLen] == start + [];
      }
    }

    /** build_cmd: AT, the command's token, the operation's suffix, CR LF. */
    method BuildCmd(c: AtCmd, op: CmdOperation, param: Option<InParam>)
      requires CmdValid() && |connections| == MAX_CONNECTIONS && ParamFits(c, op, param, multipleConnections)
      requires |CmdText(c, SuffixOf(op, CmdArgs(c, op, param, multipleConnections, connections)))| <= CMD_BUFF_LEN
      modifies this`cmdLen, cmd
      ensures CmdValid() && cmd[..cmdLen] == CmdText(c, SuffixOf(op, CmdArgs(c, op, param, multipleConnections, connections)))
    {
      ghost var x := SuffixOf(op, CmdArgs(c, op, param, multipleConnections, connections));
      ghost var sfx := SuffixText(x);
      assert |CmdText(c, x)| == 2 + |Token(c)| + |sfx| + 2;
      cmdLen := 0;
      assert cmd[..cmdLen] == [];
      CmdAppendPair('A', 'T');
      assert cmd[..cmdLen] == "AT";
      CmdAppend(Token(c));
      ghost var head := cmd[..cmdLen];
      AppendSuffix(c, op, param);
      ghost var body := cmd[..cmdLen];
      assert body == head + sfx;
      CmdAppendPair('\r', '\n');
      assert CmdText(c, x) == head + sfx + "\r\n";
    }

    // -------------------------------------------------------------------
    // The UART callback: scanning what the module sends

    /** get_conn_id: the id written before ",CLOSED" and the buffer without it; 0xFFFFFFFF when there is none. */
    method GetConnId() returns (id: nat)
      requires Valid()
      modifies this`resultLen
      ensures Valid()
      ensures (id, resultLen) == ConnIdAsWritten(result[..], old(resultLen))
    {
      id := U32_MODULUS - 1;
      var i: int := resultLen - 2;
      if i < 0 {
        return;
      }
      var ch := result[i];
      if ch < '0' || ch > '9' {
        return;
      }
      resultLen := resultLen - 2;
      id := ch as int - '0' as int;
    }

    /**
     * The switch in refresh_status once response p has matched: the
     * response is cut off the buffer (down to empty at most) and sets the
     * status, or "CLOSED" marks the connection inactive when its id is one
     * the table holds; then every counter is cleared.
     */
    method CompleteResponse(p: nat)
      requires Valid() && p < NB_RESPONSES
      modifies this`resultLen, this`resultStatus, this`connections, this`matchIdx
      ensures Valid()
      ensures var e := Complete(p, result[..], old(resultLen), multipleConnections);
        resultLen == e.len && connections == Deactivate(old(connections), e.closed) && matchIdx == ZERO_COUNTERS
        && resultStatus == (if e.status.Some? then e.status.value else old(resultStatus))
    {
      var k := |RESPONSES[p]|;
      resultLen := if resultLen >= k then resultLen - k else 0;
      if p == ERROR_RESP {
        resultStatus := ResultError;
      } else if p == OK_RESP || p == SEND_OK_RESP {
        resultStatus := ResultAvailable;
      } else {
        var id: nat := 0;
        if multipleConnections {
          id := GetConnId();
        }
        if id < MAX_CONNECTIONS {
          connections := connections[id := connections[id].(active := false)];
        }
      }
      matchIdx := ZERO_COUNTERS;
    }

    /** refresh_status: the last byte of the result buffer against every response's counter. */
    method RefreshStatus()
      requires Valid() && 0 < resultLen
      modifies this`resultLen, this`resultStatus, this`connections, this`matchIdx
      ensures Valid()
      ensures Matching() == Refresh(old(Matching()), result[..], multipleConnections)
    {
      ghost var m := Matching();
      var lastChar := result[resultLen - 1];
      var i := 0;
      var matched := false;
      while i < NB_RESPONSES && !matched
        invariant 0 <= i <= NB_RESPONSES && Valid()
        invariant !matched ==> resultLen == m.len && resultStatus == m.status && connections == m.conns
        invariant !matched ==> StepFrom(matchIdx, lastChar, i) == Step(m.counters, lastChar)
        invariant matched ==> Matching() == Refresh(m, result[..], multipleConnections)
      {
        matched := MatchResponse(i, lastChar);
        i := i + 1;
      }
    }

    /** One response of the refresh_status loop: its counter advances, and a full match completes it. */
    method MatchResponse(i: nat, lastChar: byte) returns (matched: bool)
      requires Valid() && i < NB_RESPONSES
      modifies this`resultLen, this`resultStatus, this`connections, this`matchIdx
      ensures Valid()
      ensures matched <==> NextCount(i, old(matchIdx)[i], lastChar) == |RESPONSES[i]|
      ensures !matched ==> Matching() == old(Matching()).(counters := old(matchIdx)[i := NextCount(i, old(matchIdx)[i], lastChar)])
      ensures matched ==> var e := Complete(i, result[..], old(resultLen), multipleConnections);
        Matching() == MatchState(ZERO_COUNTERS, e.len, if e.status.Some? then e.status.value else old(resultStatus), Deactivate(old(connections), e.closed))
    {
      if lastChar == RESPONSES[i][matchIdx[i]] {
        var n := matchIdx[i] + 1;
        if n == |RESPONSES[i]| {
          CompleteResponse(i);
          return true;
        }
        matchIdx := matchIdx[i := n];
      } else if lastChar == RESPONSES[i][0] {
        matchIdx := matchIdx[i := 1];
      } else {
        matchIdx := matchIdx[i := 0];
      }
      matched := false;
    }

    /** Counters of two or more are lowered by 2, for the "\r\n" cut off with a +IPD header. */
    method LowerMatchCounters()
      requires Valid()
      modifies this`matchIdx
      ensures Valid() && matchIdx == LowerCounters(old(matchIdx))
    {
      var j := 0;
      while j < NB_RESPONSES
        invariant 0 <= j <= NB_RESPONSES && |matchIdx| == NB_RESPONSES
        invariant forall q :: 0 <= q < j ==> matchIdx[q] == LowerCounters(old(matchIdx))[q]
        invariant forall q :: j <= q < NB_RESPONSES ==> matchIdx[q] == old(matchIdx)[q]
      {
        if matchIdx[j] >= 2 {
          matchIdx := matchIdx[j := matchIdx[j] - 2];
        }
        j := j + 1;
      }
    }

    /** The compare loop of process_ipd_msg at a comma: "+IPD," read backwards, not past the start of the buffer. */
    method IpdEndsHere(i: nat) returns (b: bool)
      requires i < resultLen <= result.Length
      ensures b == IpdEndsAt(result[..resultLen], i)
    {
      b := EndsWithBackward(result, resultLen, i, IPD_PREFIX);
      if 4 <= i {
        assert result[..resultLen][i - 4..i + 1] == result[i - 4..i + 1];
      }
    }

    /**
     * The backward scan of process_ipd_msg: the index of the '+' of a
     * "+IPD," among the digits and commas that end the result buffer. The
     * scan stops at the start of the buffer.
     */
    method FindIpdHeader() returns (plus: Option<nat>)
      requires Valid()
      ensures plus == FindIpd(result[..resultLen])
    {
      ghost var buf := result[..resultLen];
      var i: int := resultLen - 1;
      var nb: nat := 0;
      var found := false;
      while i >= 0 && !found && nb < MAX_CH_SEARCH && (IsDigit(result[i]) || result[i] == ',')
        invariant -1 <= i < resultLen
        invariant !found ==> IpdScan(buf, i, nb) == FindIpd(buf)
        invariant found ==> 3 <= i && FindIpd(buf) == Some(i - 3)
        decreases i + 1
      {
        if result[i] == ',' {
          found := IpdEndsHere(i);
        }
        i := i - 1;
        nb := nb + 1;
      }
      if found {
        plus := Some(i - 3);
      } else {
        plus := None;
      }
    }

    /**
     * The search and the at_sscanf of process_ipd_msg: the index of the
     * '+' of the header that ends the result buffer and the length it
     * announces. A header whose length at_sscanf does not assign is not
     * a message.
     */
    method LocateIpd() returns (msg: Option<(nat, nat)>)
      requires Valid()
      ensures msg == IpdMessage(result[..resultLen], multipleConnections)
    {
      ghost var buf := result[..resultLen];
      var found := FindIpdHeader();
      if found.None? {
        return None;
      }
      var plus := found.value;
      assert buf[plus..] == result[plus..resultLen];
      var fmt := if multipleConnections then IPD_MULTIPLE_FMT else IPD_SINGLE_FMT;
      var values, _ := Scan(result[plus..resultLen], fmt);
      var k := if multipleConnections then 1 else 0;
      if |values| <= k {
        return None;
      }
      msg := Some((plus, Wrap32(values[k])));
    }

    /**
     * process_ipd_msg, on the ':' that ends a header: the payload length,
     * with the header and the "\r\n" before it cut off the result buffer.
     */
    method ProcessIpdMsg() returns (len: Option<nat>)
      requires Valid()
      modifies this`resultLen, this`matchIdx
      ensures Valid()
      ensures ProcessedIpd(old(result[..resultLen]), old(multipleConnections), len, resultLen)
      ensures len.Some? ==> matchIdx == LowerCounters(old(matchIdx))
      ensures len.None? ==> resultLen == old(resultLen) && matchIdx == old(matchIdx) && Matching() == old(Matching())
    {
      var msg := LocateIpd();
      if msg.None? {
        return None;
      }
      var (plus, n) := msg.value;
      len := Some(n);
      resultLen := if plus >= 2 then plus - 2 else 0;
      LowerMatchCounters();
    }

    /** Request the next byte of a module message into read_ch. */
    method ReadChar()
      requires Valid()
      modifies this`readIntoApp, this`readLen
      ensures Valid() && !readIntoApp && readLen == 1
    {
      readIntoApp := false;
      readLen := 1;
    }

    /** Request len bytes of payload into the application's buffer. */
    method ReadPayload(len: nat)
      requires Valid() && len <= appSize
      modifies this`readIntoApp, this`readBuff, this`readLen
      ensures Valid() && readIntoApp && readBuff == appBuff && readLen == len
    {
      readIntoApp := true;
      readBuff := appBuff;
      readLen := len;
    }

    /**
     * What a module message byte in read_ch does to the state that was
     * m, with buffer contents buf and the waiting_send flag waiting: a
     * '>' the executor waits for releases it; any other byte goes into
     * the result buffer, unless it is full, and is matched against the
     * responses.
     */
    ghost predicate ModuleByteHandled(m: MatchState, buf: seq<byte>, waiting: bool)
      reads this`matchIdx, this`resultLen, this`resultStatus, this`connections, this`result, this`multipleConnections, result
      reads this`readCh, this`waitingSend
    {
      if readCh == '>' && waiting then
        !waitingSend && Matching() == m && result[..] == buf
      else if m.len >= RESULT_BUFF_LEN then
        waitingSend == waiting && Matching() == m.(status := OverflowError) && result[..] == buf
      else
        waitingSend == waiting && Appended(m, buf, readCh)
    }

    /** The state that was m, with buffer contents buf, after ch was appended to the result buffer and refresh_status ran. */
    ghost predicate Appended(m: MatchState, buf: seq<byte>, ch: byte)
      reads this`matchIdx, this`resultLen, this`resultStatus, this`connections, this`result, this`multipleConnections, result
    {
      ValidMatchState(m) && m.len < |buf| && result[..] == buf[m.len := ch]
      && Matching() == Refresh(m.(len := m.len + 1), result[..], multipleConnections)
    }

    /** The payload of a +IPD message of n bytes is being read into the application's buffer. */
    ghost predicate AwaitingPayload(n: nat)
      reads this
    {
      callbackState == ReadingPayload && pending + appDataLen == n && appDataLen == Min(appSize, n)
      && readIntoApp && readBuff == appBuff && readLen == appDataLen
    }

    /**
     * The byte in read_ch when it starts no payload: a '>' the executor
     * waits for releases it; any other byte goes into the result buffer,
     * unless it is full, and is matched against the responses. The next
     * byte is requested.
     */
    method ModuleByte()
      requires Valid()
      modifies this`resultLen, this`resultStatus, this`connections, this`matchIdx, result
      modifies this`waitingSend, this`readIntoApp, this`readLen
      ensures Valid() && !readIntoApp && readLen == 1
      ensures ModuleByteHandled(old(Matching()), old(result[..]), old(waitingSend))
    {
      // at_callback submits the next read last; nothing here depends on the order
      ReadChar();
      if readCh == '>' && waitingSend {
        waitingSend := false;
      } else if resultLen >= RESULT_BUFF_LEN {
        resultStatus := OverflowError;
      } else {
        AppendResult(readCh);
      }
    }

    /** at_strcatch of the byte to the result buffer, then refresh_status. */
    method AppendResult(ch: byte)
      requires Valid() && resultLen < RESULT_BUFF_LEN
      modifies this`resultLen, this`resultStatus, this`connections, this`matchIdx, result
      ensures Valid() && Appended(old(Matching()), old(result[..]), ch)
    {
      result[resultLen] := ch;
      resultLen := resultLen + 1;
      RefreshStatus();
    }

    /** A +IPD message of len bytes: the application's buffer is submitted for as much of it as fits. */
    method StartPayload(len: nat)
      requires Valid() && IsU32(len)
      modifies this`pending, this`appDataLen, this`callbackState, this`readIntoApp, this`readBuff, this`readLen
      ensures Valid() && AwaitingPayload(len)
    {
      pending := len;
      var n := Min(appSize, len);
      pending := pending - n;
      ReadPayload(n);
      appDataLen := n;
      callbackState := ReadingPayload;
    }

    /** A ':' that ends a +IPD header: the payload of the length it announces is requested. */
    method ColonByte() returns (payload: Option<nat>)
      requires Valid() && callbackState == ReadingModuleMsg
      modifies this`resultLen, this`matchIdx, this`pending, this`appDataLen, this`callbackState
      modifies this`readIntoApp, this`readBuff, this`readLen
      ensures Valid()
      ensures ProcessedIpd(old(result[..resultLen]), old(multipleConnections), payload, resultLen)
      ensures payload.Some? ==> AwaitingPayload(payload.value) && matchIdx == LowerCounters(old(matchIdx))
      ensures payload.None? ==> unchanged(this) && Matching() == old(Matching())
    {
      payload := ProcessIpdMsg();
      if payload.Some? {
        StartPayload(payload.value);
      }
    }

    /**
     * What the byte in read_ch does while module messages are read, from
     * the state that was m with result buffer contents buf: a ':' that
     * ends a +IPD header cuts the header off the buffer and requests the
     * payload it announces; any other byte is handled as ModuleByteHandled
     * says.
     */
    ghost predicate ModuleMsgHandled(m: MatchState, buf: seq<byte>, multiple: bool, waiting: bool)
      requires ValidMatchState(m) && m.len <= |buf|
      reads this, result
    {
      var ipd := if readCh == ':' then IpdMessage(buf[..m.len], multiple) else None;
      if ipd.Some? then
        AwaitingPayload(ipd.value.1) && resultLen == IpdCut(ipd.value.0) && matchIdx == LowerCounters(m.counters)
        && resultStatus == m.status && connections == m.conns && result[..] == buf && waitingSend == waiting
      else
        ModuleByteHandled(m, buf, waiting)
    }

    /**
     * at_callback, READ_DONE while reading module messages: a ':' that
     * ends a +IPD header starts its payload (ColonByte); any other byte is
     * a module message byte (ModuleByte).
     */
    method ModuleMsgByte()
      requires Valid() && callbackState == ReadingModuleMsg
      modifies this`resultLen, this`resultStatus, this`connections, this`matchIdx, result
      modifies this`waitingSend, this`pending, this`appDataLen, this`callbackState
      modifies this`readIntoApp, this`readBuff, this`readLen
      ensures Valid()
      ensures ModuleMsgHandled(old(Matching()), old(result[..]), multipleConnections, old(waitingSend))
    {
      var payload := None;
      if readCh == ':' {
        payload := ColonByte();
      }
      if payload.None? {
        ModuleByte();
      }
    }

    /**
     * at_callback, READ_DONE while reading a payload: the application is
     * told how many bytes its buffer received; the rest of the payload is
     * requested, or the callback goes back to module messages.
     */
    method PayloadDone()
      requires Valid() && callbackState == ReadingPayload
      modifies this`notified, this`callbackState, this`pending, this`appDataLen
      modifies this`readIntoApp, this`readBuff, this`readLen
      ensures Valid()
      ensures notified == old(notified) + (if hasCallback then [old(appDataLen)] else [])
      ensures old(pending) == 0 ==>
        callbackState == ReadingModuleMsg && !readIntoApp && readLen == 1 && readBuff == old(readBuff)
        && pending == 0 && appDataLen == old(appDataLen)
      ensures old(pending) > 0 ==>
        callbackState == ReadingPayload && appDataLen == Min(appSize, old(pending)) && pending + appDataLen == old(pending)
        && readIntoApp && readBuff == appBuff && readLen == appDataLen
    {
      if hasCallback {
        notified := notified + [appDataLen];
      }
      if pending == 0 {
        callbackState := ReadingModuleMsg;
        ReadChar();
      } else {
        var n := Min(appSize, pending);
        ReadPayload(n);
        appDataLen := n;
        pending := pending - n;
      }
    }

    /** at_callback, READ_DONE in unvarnished mode: the byte goes to cb_response and the application is told its size. */
    method UnvarnishedByte()
      requires Valid() && callbackState == ReadingUnvarnished
      modifies this`cbResponse, this`notified, this`readIntoApp, this`readLen
      ensures Valid() && !readIntoApp && readLen == 1
      ensures cbResponse == old(cbResponse) + [readCh]
      ensures notified == old(notified) + (if hasCallback then [|cbResponse|] else [])
    {
      cbResponse := cbResponse + [readCh];
      if hasCallback {
        notified := notified + [|cbResponse|];
      }
      ReadChar();
    }

    /** The bytes of a completed read land where it was submitted: read_ch, or the payload buffer. */
    method Deliver(data: seq<byte>)
      requires Valid() && |data| == readLen
      modifies this`readCh, bufs
      ensures Valid()
      ensures readIntoApp ==> readBuff[..|data|] == data && readCh == old(readCh)
      ensures !readIntoApp ==> readCh == data[0]
    {
      if readIntoApp {
        forall k | 0 <= k < |data| {
          readBuff[k] := data[k];
        }
      } else {
        readCh := data[0];
      }
    }

    /** at_callback, READ_DONE once the bytes have landed: the callback state decides what they mean. */
    method Dispatch()
      requires Valid()
      modifies this`resultLen, this`resultStatus, this`connections, this`matchIdx, result
      modifies this`waitingSend, this`pending, this`appDataLen, this`callbackState
      modifies this`readIntoApp, this`readBuff, this`readLen, this`notified, this`cbResponse
      ensures Valid()
      ensures old(callbackState) == ReadingModuleMsg ==>
        ModuleMsgHandled(old(Matching()), old(result[..]), multipleConnections, old(waitingSend))
        && notified == old(notified) && cbResponse == old(cbResponse)
      ensures old(callbackState) == ReadingPayload ==>
        notified == old(notified) + (if hasCallback then [old(appDataLen)] else []) && cbResponse == old(cbResponse)
      ensures old(callbackState) == ReadingPayload && old(pending) == 0 ==>
        callbackState == ReadingModuleMsg && !readIntoApp && readLen == 1
      ensures old(callbackState) == ReadingPayload && old(pending) > 0 ==>
        callbackState == ReadingPayload && readIntoApp && readBuff == appBuff && readLen == Min(appSize, old(pending))
      ensures old(callbackState) == ReadingUnvarnished ==>
        cbResponse == old(cbResponse) + [readCh] && callbackState == ReadingUnvarnished
    {
      match callbackState {
        case ReadingModuleMsg =>
          ModuleMsgByte();
        case ReadingPayload =>
          PayloadDone();
        case ReadingUnvarnished =>
          UnvarnishedByte();
      }
    }

    /**
     * at_callback, READ_DONE: the bytes land where the last read was
     * submitted (read_ch, or a payload buffer), then the callback state
     * decides what they mean: a module message byte is matched or starts
     * a payload, a payload part is handed to the application, an
     * unvarnished byte is queued.
     */
    method ReadDone(data: seq<byte>)
      requires Valid() && |data| == readLen
      modifies this`readCh, bufs
      modifies this`resultLen, this`resultStatus, this`connections, this`matchIdx, result
      modifies this`waitingSend, this`pending, this`appDataLen, this`callbackState
      modifies this`readIntoApp, this`readBuff, this`readLen, this`notified, this`cbResponse
      ensures Valid()
      ensures old(readIntoApp) ==> old(readBuff)[..|data|] == data && readCh == old(readCh)
      ensures !old(readIntoApp) ==> readCh == data[0]
      ensures old(callbackState) == ReadingModuleMsg ==>
        ModuleMsgHandled(old(Matching()), old(result[..]), multipleConnections, old(waitingSend))
        && notified == old(notified) && cbResponse == old(cbResponse)
      ensures old(callbackState) == ReadingPayload ==>
        notified == old(notified) + (if hasCallback then [old(appDataLen)] else []) && cbResponse == old(cbResponse)
      ensures old(callbackState) == ReadingPayload && old(pending) == 0 ==>
        callbackState == ReadingModuleMsg && !readIntoApp && readLen == 1
      ensures old(callbackState) == ReadingPayload && old(pending) > 0 ==>
        callbackState == ReadingPayload && readIntoApp && readBuff == appBuff && readLen == Min(appSize, old(pending))
      ensures old(callbackState) == ReadingUnvarnished ==>
        cbResponse == old(cbResponse) + [readCh] && callbackState == ReadingUnvarnished
    {
      Deliver(data);
      assert result[..] == old(result[..]);
      Dispatch();
    }

    /**
     * Two parts of one payload with no replace_buffer between them: the
     * second part is read into the same application buffer from index 0,
     * so it lands over the first part rather than after it.
     */
    method NextPartAtStart(first: seq<byte>, second: seq<byte>)
      requires Valid() && callbackState == ReadingPayload && |first| == readLen && 0 < pending
      requires |second| == Min(appSize, pending)
      modifies this`readCh, bufs
      modifies this`resultLen, this`resultStatus, this`connections, this`matchIdx, result
      modifies this`waitingSend, this`pending, this`appDataLen, this`callbackState
      modifies this`readIntoApp, this`readBuff, this`readLen, this`notified, this`cbResponse
      ensures Valid() && appBuff == old(appBuff)
      ensures appBuff[..|second|] == second
    {
      ReadDone(first);
      ReadDone(second);
    }

    /** at_callback, ERROR and any other event: read_ch is submitted again and cmd.len cleared. */
    method UartError()
      requires Valid()
      modifies this`readIntoApp, this`readLen, this`cmdLen
      ensures Valid() && !readIntoApp && readLen == 1 && cmdLen == 0
    {
      ReadChar();
      cmdLen := 0;
    }

    /**
     * One millisecond: the submitted read completes when all its bytes
     * have arrived. A read of zero bytes never completes.
     */
    method Tick() returns (delivered: bool)
      requires Valid()
      modifies this`incoming, this`readCh, bufs
      modifies this`resultLen, this`resultStatus, this`connections, this`matchIdx, result
      modifies this`waitingSend, this`pending, this`appDataLen, this`callbackState
      modifies this`readIntoApp, this`readBuff, this`readLen, this`notified, this`cbResponse
      ensures Valid() && txLog == old(txLog) && multipleConnections == old(multipleConnections)
      ensures delivered <==> 0 < old(readLen) <= |old(incoming)|
      ensures incoming == if delivered then old(incoming)[old(readLen)..] else old(incoming)
      ensures !delivered ==> unchanged(this) && unchanged(result) && unchanged(readBuff)
    {
      delivered := 0 < readLen <= |incoming|;
      if delivered {
        var data := incoming[..readLen];
        incoming := incoming[readLen..];
        ReadDone(data);
      }
    }

    /** mdelay: ms ticks. */
    method Delay(ms: nat)
      requires Valid()
      modifies this`incoming, this`readCh, bufs
      modifies this`resultLen, this`resultStatus, this`connections, this`matchIdx, result
      modifies this`waitingSend, this`pending, this`appDataLen, this`callbackState
      modifies this`readIntoApp, this`readBuff, this`readLen, this`notified, this`cbResponse
      ensures Valid() && txLog == old(txLog) && multipleConnections == old(multipleConnections)
    {
      var t := 0;
      while t < ms
        invariant Valid() && txLog == old(txLog) && multipleConnections == old(multipleConnections)
      {
        var _ := Tick();
        t := t + 1;
      }
    }

    /** wait_for_response: up to MODULE_TIMEOUT + 1 one-millisecond waits, ending early once a status is set. */
    method WaitForResponse() returns (ticks: nat)
      requires Valid()
      modifies this`incoming, this`readCh, bufs
      modifies this`resultLen, this`resultStatus, this`connections, this`matchIdx, result
      modifies this`waitingSend, this`pending, this`appDataLen, this`callbackState
      modifies this`readIntoApp, this`readBuff, this`readLen, this`notified, this`cbResponse
      ensures Valid() && txLog == old(txLog) && multipleConnections == old(multipleConnections)
      ensures ticks <= MODULE_TIMEOUT + 1
      ensures ticks < MODULE_TIMEOUT + 1 ==> resultStatus != WaitingResult
    {
      ticks := 0;
      while ticks <= MODULE_TIMEOUT && resultStatus == WaitingResult
        invariant Valid() && txLog == old(txLog) && multipleConnections == old(multipleConnections)
        invariant ticks <= MODULE_TIMEOUT + 1
      {
        var _ := Tick();
        ticks := ticks + 1;
      }
    }

    /** The busy wait for the '>' prompt; it hangs when the stream runs out first. */
    method WaitSendPrompt() returns (released: bool)
      requires Valid()
      modifies this`incoming, this`readCh, bufs
      modifies this`resultLen, this`resultStatus, this`connections, this`matchIdx, result
      modifies this`waitingSend, this`pending, this`appDataLen, this`callbackState
      modifies this`readIntoApp, this`readBuff, this`readLen, this`notified, this`cbResponse
      ensures Valid() && txLog == old(txLog) && multipleConnections == old(multipleConnections)
      ensures released <==> !waitingSend
      ensures !released ==> !(0 < readLen <= |incoming|)
    {
      while waitingSend
        invariant Valid() && txLog == old(txLog) && multipleConnections == old(multipleConnections)
        decreases |incoming|
      {
        var delivered := Tick();
        if !delivered {
          return false;
        }
      }
      released := true;
    }

    /** result.len = 0. */
    method ClearResult()
      requires Valid()
      modifies this`resultLen
      ensures Valid() && resultLen == 0
    {
      resultLen := 0;
    }

    /** A fixed command copied into the command buffer (the memcpy of stop_echo). */
    method SetCmd(text: seq<byte>)
      requires Valid() && |text| <= CMD_BUFF_LEN
      modifies this`cmdLen, cmd
      ensures Valid() && cmd[..cmdLen] == text
    {
      forall k | 0 <= k < |text| {
        cmd[k] := text[k];
      }
      cmdLen := |text|;
    }

    /** write_cmd with the payload of AT+CIPSEND in place of cmd; cmd.len is cleared afterwards. */
    method WriteData(data: seq<byte>)
      requires Valid()
      modifies this`resultStatus, this`txLog, this`cmdLen
      ensures Valid() && resultStatus == WaitingResult && cmdLen == 0
      ensures txLog == old(txLog) + data
    {
      resultStatus := WaitingResult;
      txLog := txLog + data;
      cmdLen := 0;
    }

    /** write_cmd: the status goes back to waiting, the command goes out, and WRITE_DONE clears cmd.len. */
    method WriteCmd()
      requires Valid()
      modifies this`resultStatus, this`txLog, this`cmdLen
      ensures Valid() && resultStatus == WaitingResult && cmdLen == 0
      ensures txLog == old(txLog) + old(cmd[..cmdLen])
    {
      resultStatus := WaitingResult;
      txLog := txLog + cmd[..cmdLen];
      cmdLen := 0;
    }

    /** stop_echo: ATE0 is sent and answered; the result buffer is cleared. */
    method StopEcho() returns (ok: bool)
      requires Valid()
      modifies this`incoming, this`readCh, bufs
      modifies this`resultLen, this`resultStatus, this`connections, this`matchIdx, result
      modifies this`waitingSend, this`pending, this`appDataLen, this`callbackState
      modifies this`readIntoApp, this`readBuff, this`readLen, this`notified, this`cbResponse
      modifies this`cmdLen, this`txLog, cmd
      ensures Valid() && resultLen == 0
      ensures ok <==> resultStatus == ResultAvailable
      ensures txLog == old(txLog) + ECHO_OFF
    {
      SetCmd(ECHO_OFF);
      WriteCmd();
      var _ := WaitForResponse();
      ClearResult();
      ok := resultStatus == ResultAvailable;
    }

    /**
     * The AT+RST case of handle_special: the command is written, the
     * module gets the reset delay, and echo is switched off again;
     * is_reset stays set when that fails.
     */
    method ResetModule() returns (ok: bool)
      requires Valid()
      modifies this`incoming, this`readCh, bufs
      modifies this`resultLen, this`resultStatus, this`connections, this`matchIdx, result
      modifies this`waitingSend, this`pending, this`appDataLen, this`callbackState
      modifies this`readIntoApp, this`readBuff, this`readLen, this`notified, this`cbResponse
      modifies this`cmdLen, this`txLog, cmd, this`isReset
      ensures Valid()
      ensures txLog == old(txLog) + old(cmd[..cmdLen]) + ECHO_OFF && resultLen == 0
      ensures (ok <==> resultStatus == ResultAvailable) && (isReset <==> !ok)
    {
      WriteCmd();
      // is_reset only silences the UART error report, which this model leaves out
      SetReset(true);
      Delay(RESET_DELAY);
      ClearResult();
      ok := StopEcho();
      SetReset(!ok);
    }

    /** is_reset = b. */
    method SetReset(b: bool)
      modifies this`isReset
      ensures isReset == b
    {
      isReset := b;
    }

    /** handle_special: AT+RST is carried out; deep sleep is not supported and fails. */
    method HandleSpecial(c: AtCmd) returns (r: Outcome)
      requires Valid() && (c == Reset || c == DeepSleep)
      modifies this`incoming, this`readCh, bufs
      modifies this`resultLen, this`resultStatus, this`connections, this`matchIdx, result
      modifies this`waitingSend, this`pending, this`appDataLen, this`callbackState
      modifies this`readIntoApp, this`readBuff, this`readLen, this`notified, this`cbResponse
      modifies this`cmdLen, this`txLog, cmd, this`isReset
      ensures Valid() && r != Hung
      ensures c == DeepSleep ==> r == Failure && unchanged(this)
      ensures c == Reset ==> txLog == old(txLog) + old(cmd[..cmdLen]) + ECHO_OFF && resultLen == 0
      ensures c == Reset ==> (r == Success <==> resultStatus == ResultAvailable) && (isReset <==> r == Failure)
    {
      r := Failure;
      if c == Reset {
        var ok := ResetModule();
        if ok {
          r := Success;
        }
      }
    }

    /** The comparison of parse_result, with the length test the right way round. */
    method DisconnectReceived() returns (b: bool)
      requires Valid()
      ensures b <==> DisconnectSeen(result[..], resultLen)
    {
      b := resultLen >= |DISCONNECT_MSG| && result[..|DISCONNECT_MSG|] == DISCONNECT_MSG;
    }

    /**
     * parse_result: after AT+CWQAP the module's "WIFI DISCONNECT" is
     * awaited for 11 checks 100 ms apart, and its absence fails the
     * command; the result buffer is then copied to cb_response and
     * cleared. looks holds the result buffer and its length at each check,
     * checks what each check answered, and cbSeen cb_response at the check
     * that saw the message.
     */
    method ParseResult(c: AtCmd)
      returns (ok: bool, seenAt: Option<nat>, ghost checks: seq<bool>, ghost looks: seq<(seq<byte>, nat)>, ghost cbSeen: seq<byte>)
      requires Valid()
      modifies this`incoming, this`readCh, bufs
      modifies this`resultLen, this`resultStatus, this`connections, this`matchIdx, result
      modifies this`waitingSend, this`pending, this`appDataLen, this`callbackState
      modifies this`readIntoApp, this`readBuff, this`readLen, this`notified, this`cbResponse
      ensures Valid() && resultLen == 0 && txLog == old(txLog) && multipleConnections == old(multipleConnections)
      ensures c == DisconnectNetwork ==>
        && |checks| == |looks| <= DISCONNECT_CHECKS
        && (forall i :: 0 <= i < |looks| ==>
              |looks[i].0| >= |DISCONNECT_MSG| && looks[i].1 <= |looks[i].0|
              && checks[i] == DisconnectSeen(looks[i].0, looks[i].1))
        && seenAt == FirstSeen(checks)
        && (ok <==> seenAt.Some?)
        && (!ok ==> |checks| == DISCONNECT_CHECKS)
        && (ok ==> |checks| == seenAt.value + 1
                   && cbResponse == cbSeen + looks[seenAt.value].0[..looks[seenAt.value].1])
      ensures c != DisconnectNetwork ==>
        ok && seenAt.None? && cbResponse == old(cbResponse) + old(result[..resultLen])
        && resultStatus == old(resultStatus) && connections == old(connections) && callbackState == old(callbackState)
    {
      seenAt, checks, looks, cbSeen := None, [], [], [];
      if c == DisconnectNetwork {
        seenAt, checks, looks, cbSeen := AwaitDisconnect();
        if seenAt.None? {
          ClearResult();
          return false, None, checks, looks, cbSeen;
        }
      }
      if resultLen > 0 {
        cbResponse := cbResponse + result[..resultLen];
      }
      ClearResult();
      ok := true;
    }

    /**
     * The wait of parse_result for "WIFI DISCONNECT": up to 11 checks,
     * 100 ms apart, stopping at the first that sees it. looks holds the
     * result buffer and its length at each check, checks what each check
     * answered, and cbSeen cb_response at the check that saw the message.
     */
    method AwaitDisconnect() returns (seenAt: Option<nat>, ghost checks: seq<bool>, ghost looks: seq<(seq<byte>, nat)>, ghost cbSeen: seq<byte>)
      requires Valid()
      modifies this`incoming, this`readCh, bufs
      modifies this`resultLen, this`resultStatus, this`connections, this`matchIdx, result
      modifies this`waitingSend, this`pending, this`appDataLen, this`callbackState
      modifies this`readIntoApp, this`readBuff, this`readLen, this`notified, this`cbResponse
      ensures Valid() && txLog == old(txLog) && multipleConnections == old(multipleConnections)
      ensures |checks| == |looks| <= DISCONNECT_CHECKS
      ensures forall i :: 0 <= i < |looks| ==>
                |looks[i].0| >= |DISCONNECT_MSG| && looks[i].1 <= |looks[i].0|
                && checks[i] == DisconnectSeen(looks[i].0, looks[i].1)
      ensures seenAt == FirstSeen(checks)
      ensures seenAt.None? ==> |checks| == DISCONNECT_CHECKS
      ensures seenAt.Some? ==> |checks| == seenAt.value + 1 && looks[seenAt.value] == (result[..], resultLen) && cbSeen == cbResponse
    {
      seenAt, checks, looks, cbSeen := None, [], [], [];
      var k := 0;
      while k < DISCONNECT_CHECKS && seenAt.None?
        invariant Valid() && txLog == old(txLog) && multipleConnections == old(multipleConnections)
        invariant k <= DISCONNECT_CHECKS && |checks| == |looks| == k
        invariant forall i :: 0 <= i < |looks| ==>
                    |looks[i].0| >= |DISCONNECT_MSG| && looks[i].1 <= |looks[i].0|
                    && checks[i] == DisconnectSeen(looks[i].0, looks[i].1)
        invariant seenAt == FirstSeen(checks)
        invariant seenAt.Some? ==> k == seenAt.value + 1 && looks[k - 1] == (result[..], resultLen) && cbSeen == cbResponse
      {
        var b := DisconnectReceived();
        checks, looks := checks + [b], looks + [(result[..], resultLen)];
        FirstSeenSnoc(checks[..k], b);
        assert checks[..k] + [b] == checks;
        if b {
          seenAt, cbSeen := Some(k), cbResponse;
        } else {
          Delay(100);
        }
        k := k + 1;
      }
    }

    /** What at_run_cmd records once the module answered OK: the connection mode, an opened connection, unvarnished mode. */
    method RecordSuccess(c: AtCmd, op: CmdOperation, param: Option<InParam>)
      requires Valid() && ParamReadable(c, op, param, multipleConnections)
      modifies this`multipleConnections, this`connections, this`callbackState
      ensures Valid()
      ensures multipleConnections == if c == SetConnectionType then param.value.connType == MultipleConnection else old(multipleConnections)
      ensures connections ==
        if c == StartConnection && op == SetOp then
          old(connections)[StartSlot(param.value, old(multipleConnections)) := ConnSlot(true, param.value.socketType)]
        else old(connections)
      ensures callbackState ==
        if c == SetTransportMode && param.value.transportMode == UnvarnishedMode then ReadingUnvarnished else old(callbackState)
    {
      if c == SetConnectionType {
        multipleConnections := param.value.connType == MultipleConnection;
      }
      if c == StartConnection && op == SetOp {
        var id := if multipleConnections then param.value.id else 0;
        connections := connections[id := ConnSlot(true, param.value.socketType)];
      }
      if c == SetTransportMode && param.value.transportMode == UnvarnishedMode {
        callbackState := ReadingUnvarnished;
      }
    }

    /** waiting_send = true, then write_cmd. */
    method WriteCmdAwaitingPrompt(ghost text: seq<byte>)
      requires Valid() && cmd[..cmdLen] == text
      modifies this`waitingSend, this`resultStatus, this`txLog, this`cmdLen
      ensures Valid() && waitingSend && resultStatus == WaitingResult && cmdLen == 0
      ensures txLog == old(txLog) + text
    {
      waitingSend := true;
      WriteCmd();
    }

    /** The write of a command that is not handled specially; AT+CIPSEND waits for '>' and then writes the data. */
    method Transmit(c: AtCmd, param: Option<InParam>, ghost text: seq<byte>) returns (released: bool)
      requires Valid() && c != DeepSleep && c != Reset && (c == Send ==> param.Some? && param.value.SendData?)
      requires cmd[..cmdLen] == text
      modifies this`incoming, this`readCh, bufs
      modifies this`resultLen, this`resultStatus, this`connections, this`matchIdx, result
      modifies this`waitingSend, this`pending, this`appDataLen, this`callbackState
      modifies this`readIntoApp, this`readBuff, this`readLen, this`notified, this`cbResponse
      modifies this`cmdLen, this`txLog
      ensures Valid()
      ensures released ==> resultStatus == WaitingResult && cmdLen == 0
      ensures released ==> txLog == old(txLog) + Wire(c, param, text)
      ensures !released ==> c == Send && !(0 < readLen <= |incoming|)
    {
      WriteCmdAwaitingPrompt(text);
      released := true;
      if c == Send {
        released := SendPayload(param.value.data);
      }
    }

    /** AT+CIPSEND past its command: wait for '>', then write the data in place of the command. */
    method SendPayload(data: seq<byte>) returns (released: bool)
      requires Valid()
      modifies this`incoming, this`readCh, bufs
      modifies this`resultLen, this`resultStatus, this`connections, this`matchIdx, result
      modifies this`waitingSend, this`pending, this`appDataLen, this`callbackState
      modifies this`readIntoApp, this`readBuff, this`readLen, this`notified, this`cbResponse
      modifies this`cmdLen, this`txLog
      ensures Valid()
      ensures released ==> resultStatus == WaitingResult && cmdLen == 0 && txLog == old(txLog) + data
      ensures !released ==> !(0 < readLen <= |incoming|)
    {
      released := WaitSendPrompt();
      if released {
        WriteData(data);
      }
    }

    /** Past the gates of at_run_cmd in unvarnished mode (AT+CIPMODE=0), the callback goes back to module messages. */
    method LeaveUnvarnished()
      requires Valid()
      modifies this`callbackState
      ensures Valid() && multipleConnections == old(multipleConnections) && connections == old(connections)
      ensures callbackState == if old(callbackState) == ReadingUnvarnished then ReadingModuleMsg else old(callbackState)
    {
      if callbackState == ReadingUnvarnished {
        callbackState := ReadingModuleMsg;
      }
    }

    /** The end of at_run_cmd after the module's OK: the bookkeeping, then parse_result or a cleared buffer. */
    method Conclude(c: AtCmd, op: CmdOperation, param: Option<InParam>) returns (r: Outcome)
      requires Valid() && ParamReadable(c, op, param, multipleConnections) && resultStatus == ResultAvailable
      modifies this`incoming, this`readCh, bufs
      modifies this`resultLen, this`resultStatus, this`connections, this`matchIdx, result
      modifies this`waitingSend, this`pending, this`appDataLen, this`callbackState
      modifies this`readIntoApp, this`readBuff, this`readLen, this`notified, this`cbResponse
      modifies this`multipleConnections
      ensures Valid() && r != Hung && txLog == old(txLog)
      ensures r == Success ==> RunSucceeded(c, op, param, old(multipleConnections), Matching(), multipleConnections, callbackState)
    {
      RecordSuccess(c, op, param);
      r := Finish(c, op, param);
    }

    /** The last step of at_run_cmd: parse_result when there is a parameter, else the result buffer is cleared. */
    method Finish(c: AtCmd, op: CmdOperation, param: Option<InParam>) returns (r: Outcome)
      requires Valid() && resultStatus == ResultAvailable
      modifies this`incoming, this`readCh, bufs
      modifies this`resultLen, this`resultStatus, this`connections, this`matchIdx, result
      modifies this`waitingSend, this`pending, this`appDataLen, this`callbackState
      modifies this`readIntoApp, this`readBuff, this`readLen, this`notified, this`cbResponse
      ensures Valid() && r != Hung && txLog == old(txLog) && multipleConnections == old(multipleConnections)
      ensures r == Success ==> resultLen == 0
      ensures r == Success && !(c == DisconnectNetwork && param.Some?) ==>
        resultStatus == ResultAvailable && connections == old(connections) && callbackState == old(callbackState)
    {
      r := Success;
      if param.Some? {
        var ok, _, _, _, _ := ParseResult(if op == SetOp then GetVersion else c);
        if !ok {
          r := Failure;
        }
      } else {
        ClearResult();
      }
    }

    /** The command is written and, unless the '>' prompt never comes, the response awaited. */
    method Exchange(c: AtCmd, param: Option<InParam>, ghost text: seq<byte>) returns (released: bool)
      requires Valid() && c != DeepSleep && c != Reset && (c == Send ==> param.Some? && param.value.SendData?)
      requires cmd[..cmdLen] == text
      modifies this`incoming, this`readCh, bufs
      modifies this`resultLen, this`resultStatus, this`connections, this`matchIdx, result
      modifies this`waitingSend, this`pending, this`appDataLen, this`callbackState
      modifies this`readIntoApp, this`readBuff, this`readLen, this`notified, this`cbResponse
      modifies this`cmdLen, this`txLog
      ensures Valid()
      ensures released ==> txLog == old(txLog) + Wire(c, param, text)
      ensures !released ==> c == Send && !(0 < readLen <= |incoming|)
    {
      released := Transmit(c, param, text);
      if released {
        var _ := WaitForResponse();
      }
    }

    /**
     * at_run_cmd once the command is in the buffer: it is written (with
     * the data of AT+CIPSEND after the '>' prompt) and the response is
     * awaited; a reply other than OK fails.
     */
    method RunBuilt(c: AtCmd, op: CmdOperation, param: Option<InParam>, ghost text: seq<byte>) returns (r: Outcome)
      requires Valid() && c != DeepSleep && c != Reset && ParamReadable(c, op, param, multipleConnections)
      requires cmd[..cmdLen] == text
      modifies this`incoming, this`readCh, bufs
      modifies this`resultLen, this`resultStatus, this`connections, this`matchIdx, result
      modifies this`waitingSend, this`pending, this`appDataLen, this`callbackState
      modifies this`readIntoApp, this`readBuff, this`readLen, this`notified, this`cbResponse
      modifies this`cmdLen, this`txLog, this`multipleConnections
      ensures Valid()
      ensures r != Hung ==> txLog == old(txLog) + Wire(c, param, text)
      ensures r == Hung ==> c == Send && !(0 < readLen <= |incoming|)
      ensures r == Success ==> RunSucceeded(c, op, param, old(multipleConnections), Matching(), multipleConnections, callbackState)
    {
      var released := Exchange(c, param, text);
      if !released {
        return Hung;
      }
      if resultStatus != ResultAvailable {
        return Failure;
      }
      r := Conclude(c, op, param);
    }

    /**
     * at_run_cmd: the gates, build_cmd, the special handling of AT+RST
     * and AT+GSLP, then the write and the wait.
     */
    method RunCmd(c: AtCmd, op: CmdOperation, param: Option<InParam>) returns (r: Outcome)
      requires Valid()
      requires OpAllowed(c, op) ==> ParamReadable(c, op, param, multipleConnections)
      requires Admitted(c, op, param, callbackState) ==>
        ParamFits(c, op, param, multipleConnections)
        && |CommandText(c, op, param, multipleConnections, connections)| <= CMD_BUFF_LEN
      modifies this`incoming, this`readCh, bufs
      modifies this`resultLen, this`resultStatus, this`connections, this`matchIdx, result
      modifies this`waitingSend, this`pending, this`appDataLen, this`callbackState
      modifies this`readIntoApp, this`readBuff, this`readLen, this`notified, this`cbResponse
      modifies this`cmdLen, this`txLog, cmd, this`isReset, this`multipleConnections
      ensures Valid()
      ensures !Admitted(c, op, param, old(callbackState)) ==> r == Failure && unchanged(this)
      ensures Admitted(c, op, param, old(callbackState)) && r != Hung ==>
        txLog == old(txLog) + Transmitted(c, op, param, old(multipleConnections), old(connections))
      ensures r == Hung ==> c == Send && !(0 < readLen <= |incoming|)
      ensures c == DeepSleep ==> r == Failure
      ensures r == Success ==> RunSucceeded(c, op, param, old(multipleConnections), Matching(), multipleConnections, callbackState)
      ensures c == Reset && r != Failure ==> !isReset
    {
      if !Admitted(c, op, param, callbackState) {
        return Failure;
      }
      if c == DeepSleep || c == Reset {
        r := RunSpecial(c, op, param);
      } else {
        r := RunRegular(c, op, param);
      }
    }

    /** build_cmd, then handle_special for AT+RST and AT+GSLP. */
    method RunSpecial(c: AtCmd, op: CmdOperation, param: Option<InParam>) returns (r: Outcome)
      requires Valid() && (c == DeepSleep || c == Reset) && ParamFits(c, op, param, multipleConnections)
      requires |CommandText(c, op, param, multipleConnections, connections)| <= CMD_BUFF_LEN
      modifies this`incoming, this`readCh, bufs
      modifies this`resultLen, this`resultStatus, this`connections, this`matchIdx, result
      modifies this`waitingSend, this`pending, this`appDataLen, this`callbackState
      modifies this`readIntoApp, this`readBuff, this`readLen, this`notified, this`cbResponse
      modifies this`cmdLen, this`txLog, cmd, this`isReset
      ensures Valid() && r != Hung && multipleConnections == old(multipleConnections)
      ensures txLog == old(txLog) + Transmitted(c, op, param, old(multipleConnections), old(connections))
      ensures c == DeepSleep ==> r == Failure
      ensures r == Success ==> RunSucceeded(c, op, param, old(multipleConnections), Matching(), multipleConnections, callbackState)
      ensures c == Reset && r != Failure ==> !isReset
    {
      PrepareCmd(c, op, param);
      r := HandleSpecial(c);
      assert c == DeepSleep ==> txLog == old(txLog) + [];
    }

    /** build_cmd, then the write and the wait. */
    method RunRegular(c: AtCmd, op: CmdOperation, param: Option<InParam>) returns (r: Outcome)
      requires Valid() && c != DeepSleep && c != Reset
      requires ParamReadable(c, op, param, multipleConnections) && ParamFits(c, op, param, multipleConnections)
      requires |CommandText(c, op, param, multipleConnections, connections)| <= CMD_BUFF_LEN
      modifies this`incoming, this`readCh, bufs
      modifies this`resultLen, this`resultStatus, this`connections, this`matchIdx, result
      modifies this`waitingSend, this`pending, this`appDataLen, this`callbackState
      modifies this`readIntoApp, this`readBuff, this`readLen, this`notified, this`cbResponse
      modifies this`cmdLen, this`txLog, cmd, this`multipleConnections
      ensures Valid()
      ensures r != Hung ==> txLog == old(txLog) + Transmitted(c, op, param, old(multipleConnections), old(connections))
      ensures r == Hung ==> c == Send && !(0 < readLen <= |incoming|)
      ensures r == Success ==> RunSucceeded(c, op, param, old(multipleConnections), Matching(), multipleConnections, callbackState)
    {
      ghost var text := CommandText(c, op, param, multipleConnections, connections);
      LeaveUnvarnished();
      PrepareCmd(c, op, param);
      r := RunBuilt(c, op, param, text);
    }

    /** build_cmd, seen from the whole descriptor. */
    method PrepareCmd(c: AtCmd, op: CmdOperation, param: Option<InParam>)
      requires Valid() && ParamFits(c, op, param, multipleConnections)
      requires |CommandText(c, op, param, multipleConnections, connections)| <= CMD_BUFF_LEN
      modifies this`cmdLen, cmd
      ensures Valid() && cmd[..cmdLen] == CommandText(c, op, param, multipleConnections, connections)
      ensures multipleConnections == old(multipleConnections) && connections == old(connections) && txLog == old(txLog)
    {
      BuildCmd(c, op, param);
    }

    /**
     * replace_buffer: the application hands over a new payload buffer and
     * gets the old one back with the bytes it holds; a NULL buffer fails.
     */
    method ReplaceBuffer(inBuff: array?<byte>, inSize: nat) returns (ok: bool, outBuff: array<byte>, outLen: nat)
      requires Valid()
      requires inBuff != null ==> inSize <= inBuff.Length && IsU32(inSize) && inBuff != result && inBuff != cmd
      modifies this`appBuff, this`appDataLen, this`appSize, this`bufs
      ensures Valid() && (ok <==> inBuff != null)
      ensures ok ==> outBuff == old(appBuff) && outLen == old(appDataLen)
      ensures ok ==> appBuff == inBuff && appDataLen == 0 && appSize == inSize
      ensures !ok ==> unchanged(this)
    {
      outBuff, outLen := appBuff, appDataLen;
      if inBuff == null {
        return false, outBuff, outLen;
      }
      appBuff := inBuff;
      bufs := bufs + {inBuff};
      appDataLen := 0;
      appSize := inSize;
      ok := true;
    }

    /** callback_state = s. */
    method SetCallbackState(st: CallbackState)
      modifies this`callbackState
      ensures callbackState == st
    {
      callbackState := st;
    }

    /**
     * enter_send_unvernished_mode: only a single open TCP connection can
     * carry unvarnished data; AT+CIPSEND is written, the '>' prompt
     * awaited, and received bytes go to cb_response from then on.
     */
    method EnterSendUnvarnished() returns (r: Outcome)
      requires Valid()
      modifies this`incoming, this`readCh, bufs
      modifies this`resultLen, this`resultStatus, this`connections, this`matchIdx, result
      modifies this`waitingSend, this`pending, this`appDataLen, this`callbackState
      modifies this`readIntoApp, this`readBuff, this`readLen, this`notified, this`cbResponse
      modifies this`cmdLen, this`txLog, cmd
      ensures Valid()
      ensures old(multipleConnections || connections[0].socketType != SocketTcp || !connections[0].active) ==>
        r == Failure && unchanged(this)
      ensures r != Failure ==> txLog == old(txLog) + CommandText(Send, Execute, None, old(multipleConnections), old(connections))
      ensures r == Success ==> callbackState == ReadingUnvarnished
      ensures r == Hung ==> !(0 < readLen <= |incoming|)
    {
      if multipleConnections || connections[0].socketType != SocketTcp || !connections[0].active {
        return Failure;
      }
      BuildCmd(Send, Execute, None);
      r := OpenUnvarnished(CommandText(Send, Execute, None, multipleConnections, connections));
    }

    /** The AT+CIPSEND of enter_send_unvernished_mode is written and its '>' prompt awaited. */
    method OpenUnvarnished(ghost text: seq<byte>) returns (r: Outcome)
      requires Valid() && cmd[..cmdLen] == text
      modifies this`incoming, this`readCh, bufs
      modifies this`resultLen, this`resultStatus, this`connections, this`matchIdx, result
      modifies this`waitingSend, this`pending, this`appDataLen, this`callbackState
      modifies this`readIntoApp, this`readBuff, this`readLen, this`notified, this`cbResponse
      modifies this`cmdLen, this`txLog
      ensures Valid() && r != Failure && txLog == old(txLog) + text
      ensures r == Success ==> callbackState == ReadingUnvarnished
      ensures r == Hung ==> !(0 < readLen <= |incoming|)
    {
      WriteCmdAwaitingPrompt(text);
      var released := WaitSendPrompt();
      if !released {
        return Hung;
      }
      SetCallbackState(ReadingUnvarnished);
      r := Success;
    }

    /** send_unvarnished: the data goes straight to the UART. */
    method SendUnvarnished(data: seq<byte>)
      modifies this`txLog
      ensures txLog == old(txLog) + data
    {
      txLog := txLog + data;
    }

    /**
     * read_unvarnished: cb_read of len bytes from cb_response, taken as
     * reading the oldest bytes and failing when fewer are stored.
     */
    method ReadUnvarnished(len: nat) returns (ok: bool, data: seq<byte>)
      modifies this`cbResponse
      ensures ok <==> len <= |old(cbResponse)|
      ensures ok ==> old(cbResponse) == data + cbResponse && |data| == len
      ensures !ok ==> cbResponse == old(cbResponse) && data == []
    {
      if len > |cbResponse| {
        return false, [];
      }
      data := cbResponse[..len];
      cbResponse := cbResponse[len..];
      ok := true;
    }

    /** exit_send_unvernished_mode: "+++" is written and the callback reads module messages again. */
    method ExitSendUnvarnished()
      modifies this`txLog, this`callbackState
      ensures txLog == old(txLog) + UNVARNISHED_END && callbackState == ReadingModuleMsg
    {
      txLog := txLog + UNVARNISHED_END;
      callbackState := ReadingModuleMsg;
    }
  }
}
