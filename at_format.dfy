// The text the AT driver sends (at_driver.c): at_sprintf's argument list
// and the command line build_cmd writes. Each encoder is paired with a
// decoder that plays the module's part, and the pair is proved to
// round-trip.

module AtFormat {
  import opened Common
  import opened AtDefs
  import opened AtTable

  /** One vararg of at_sprintf: 'd' takes an int32_t, 's' an at_buff. */
  datatype Arg = Dec(v: int) | Str(s: seq<byte>)

  /** itoa(nb, buff, 10). */
  function Itoa(v: int): (r: seq<byte>)
    ensures 1 <= |r|
  {
    if v < 0 then ['-'] + Digits(-v) else Digits(v)
  }

  /** An int32_t value's text and its terminator fit the 12-byte buffer at_sprintf uses. */
  lemma ItoaFitsBuffer(v: int)
    requires -0x8000_0000 <= v <= INT32_MAX
    ensures |Itoa(v)| + 1 <= 12
  {
    if v < 0 {
      DigitsLength(-v, 10);
    } else {
      DigitsLength(v, 10);
    }
  }

  predicate NeedsEscape(b: byte) { b == '"' || b == ',' || b == '\\' }

  /** What at_sprintf writes for one byte of a string argument. */
  function EscapedByte(b: byte): seq<byte>
  {
    if NeedsEscape(b) then ['\\', b] else [b]
  }

  /** The body of a quoted argument: a backslash before each '"', ',' and '\'. */
  function Escape(s: seq<byte>): (r: seq<byte>)
    ensures |s| <= |r| <= 2 * |s|
  {
    if s == [] then [] else EscapedByte(s[0]) + Escape(s[1..])
  }

  function FormatArg(a: Arg): seq<byte>
  {
    match a
    case Dec(v) => Itoa(v)
    case Str(s) => ['"'] + Escape(s) + ['"']
  }

  /** The text at_sprintf appends for a format string and its arguments: the arguments joined by ','. */
  function FormatArgs(args: seq<Arg>): seq<byte>
  {
    if args == [] then []
    else if |args| == 1 then FormatArg(args[0])
    else FormatArg(args[0]) + [','] + FormatArgs(args[1..])
  }

  // The decoder the module applies to an argument list.

  /** A run of at least one digit: its value and what follows it. */
  function ParseNat(s: seq<byte>): (r: Option<(nat, seq<byte>)>)
    ensures r.Some? ==> |r.value.1| < |s|
  {
    var k := DigitRun(s);
    if k == 0 then None else Some((DigitsValue(s[..k]), s[k..]))
  }

  /** An optional '-' and a run of digits. */
  function ParseDec(s: seq<byte>): (r: Option<(int, seq<byte>)>)
    ensures r.Some? ==> |r.value.1| < |s|
  {
    if |s| > 0 && s[0] == '-' then
      match ParseNat(s[1..])
      case None => None
      case Some((m, rest)) => Some((-(m as int), rest))
    else
      match ParseNat(s)
      case None => None
      case Some((m, rest)) => Some((m as int, rest))
  }

  /** The rest of a quoted argument after its opening '"', up to the closing one. */
  function ParseStrBody(s: seq<byte>): (r: Option<(seq<byte>, seq<byte>)>)
    ensures r.Some? ==> |r.value.1| < |s|
  {
    if s == [] then None
    else if s[0] == '"' then Some(([], s[1..]))
    else if s[0] == '\\' then
      if |s| < 2 then None
      else match ParseStrBody(s[2..])
        case None => None
        case Some((body, rest)) => Some(([s[1]] + body, rest))
    else match ParseStrBody(s[1..])
      case None => None
      case Some((body, rest)) => Some(([s[0]] + body, rest))
  }

  function ParseArg(s: seq<byte>): (r: Option<(Arg, seq<byte>)>)
    ensures r.Some? ==> |r.value.1| < |s|
  {
    if |s| > 0 && s[0] == '"' then
      match ParseStrBody(s[1..])
      case None => None
      case Some((body, rest)) => Some((Str(body), rest))
    else
      match ParseDec(s)
      case None => None
      case Some((v, rest)) => Some((Dec(v), rest))
  }

  function ParseArgList(s: seq<byte>): Option<seq<Arg>>
    decreases |s|
  {
    match ParseArg(s)
    case None => None
    case Some((a, rest)) =>
      if rest == [] then Some([a])
      else if rest[0] == ',' then
        match ParseArgList(rest[1..])
        case None => None
        case Some(more) => Some([a] + more)
      else None
  }

  function ParseArgs(s: seq<byte>): Option<seq<Arg>>
  {
    if s == [] then Some([]) else ParseArgList(s)
  }

  lemma ParseNatDigits(n: nat, rest: seq<byte>)
    requires rest == [] || !IsDigit(rest[0])
    ensures ParseNat(Digits(n) + rest) == Some((n, rest))
  {
    var d := Digits(n);
    var t := d + rest;
    DigitRunOfDigits(d, rest);
    DigitsValueOfDigits(n);
    assert t[..|d|] == d;
    assert t[|d|..] == rest;
  }

  lemma ParseDecDigits(n: nat, rest: seq<byte>)
    requires rest == [] || !IsDigit(rest[0])
    ensures ParseDec(Digits(n) + rest) == Some((n, rest))
  {
    ParseNatDigits(n, rest);
    assert (Digits(n) + rest)[0] == Digits(n)[0];
  }

  lemma ParseDecItoa(v: int, rest: seq<byte>)
    requires rest == [] || !IsDigit(rest[0])
    ensures ParseDec(Itoa(v) + rest) == Some((v, rest))
  {
    if v < 0 {
      assert Itoa(v) == ['-'] + Digits(-v);
      ParseDecMinusDigits(-v, rest);
    } else {
      ParseDecDigits(v, rest);
    }
  }

  lemma ParseDecMinusDigits(n: nat, rest: seq<byte>)
    requires rest == [] || !IsDigit(rest[0])
    ensures ParseDec(['-'] + Digits(n) + rest) == Some((-(n as int), rest))
  {
    var t := ['-'] + Digits(n) + rest;
    ParseNatDigits(n, rest);
    assert t[0] == '-';
    assert t[1..] == Digits(n) + rest;
  }

  lemma {:induction false} ParseStrBodyEscape(s: seq<byte>, rest: seq<byte>)
    ensures ParseStrBody(Escape(s) + ['"'] + rest) == Some((s, rest))
    decreases |s|
  {
    if s == [] {
      assert Escape(s) + ['"'] + rest == ['"'] + rest;
    } else {
      var tail := Escape(s[1..]) + ['"'] + rest;
      ParseStrBodyEscape(s[1..], rest);
      ParseStrBodyByte(s[0], tail, s[1..], rest);
      assert Escape(s) + ['"'] + rest == EscapedByte(s[0]) + tail;
      assert [s[0]] + s[1..] == s;
    }
  }

  /** One escaped byte in front of a body the decoder reads. */
  lemma ParseStrBodyByte(b: byte, tail: seq<byte>, body: seq<byte>, rest: seq<byte>)
    requires ParseStrBody(tail) == Some((body, rest))
    ensures ParseStrBody(EscapedByte(b) + tail) == Some(([b] + body, rest))
  {
    var t := EscapedByte(b) + tail;
    if NeedsEscape(b) {
      assert t[2..] == tail;
    } else {
      assert t[1..] == tail;
    }
  }

  lemma ParseArgFormat(a: Arg, rest: seq<byte>)
    requires rest == [] || rest[0] == ','
    ensures ParseArg(FormatArg(a) + rest) == Some((a, rest))
  {
    match a
    case Dec(v) =>
      ParseDecItoa(v, rest);
      assert (FormatArg(a) + rest)[0] == Itoa(v)[0];
    case Str(s) =>
      ParseStrBodyEscape(s, rest);
      assert (FormatArg(a) + rest)[1..] == Escape(s) + ['"'] + rest;
  }

  lemma {:induction false} ParseArgListFormat(args: seq<Arg>)
    requires |args| >= 1
    ensures ParseArgList(FormatArgs(args)) == Some(args)
    decreases |args|
  {
    if |args| == 1 {
      ParseArgListOne(args[0]);
      assert args == [args[0]];
    } else {
      ParseArgListFormat(args[1..]);
      ParseArgListCons(args[0], FormatArgs(args[1..]), args[1..]);
      assert [args[0]] + args[1..] == args;
    }
  }

  /** The text of a single argument decodes to that argument alone. */
  lemma ParseArgListOne(a: Arg)
    ensures ParseArgList(FormatArg(a)) == Some([a])
  {
    var t := FormatArg(a);
    assert t == FormatArg(a) + [];
    ParseArgFormat(a, []);
    ParseArgListLast(t, a);
  }

  /** An argument's text, a comma and a list's text decode to the argument in front of the list. */
  lemma ParseArgListCons(a: Arg, rest: seq<byte>, more: seq<Arg>)
    requires ParseArgList(rest) == Some(more)
    ensures ParseArgList(FormatArg(a) + [','] + rest) == Some([a] + more)
  {
    var tail: seq<byte> := [','] + rest;
    var t := FormatArg(a) + [','] + rest;
    assert t == FormatArg(a) + tail;
    ParseArgFormat(a, tail);
    assert tail[1..] == rest;
    ParseArgListNext(t, a, tail, more);
  }

  /** An argument that ends the text is a list of one. */
  lemma ParseArgListLast(t: seq<byte>, a: Arg)
    requires ParseArg(t) == Some((a, []))
    ensures ParseArgList(t) == Some([a])
  {
  }

  /** An argument followed by a comma and a list is that list with the argument in front. */
  lemma ParseArgListNext(t: seq<byte>, a: Arg, tail: seq<byte>, more: seq<Arg>)
    requires ParseArg(t) == Some((a, tail))
    requires tail != [] && tail[0] == ','
    requires ParseArgList(tail[1..]) == Some(more)
    ensures ParseArgList(t) == Some([a] + more)
  {
  }

  /** Decoding what at_sprintf wrote gives back the arguments it was given. */
  lemma ParseArgsFormat(args: seq<Arg>)
    ensures ParseArgs(FormatArgs(args)) == Some(args)
  {
    if args != [] {
      ParseArgListFormat(args);
      FormatArgStartsArg(args[0]);
      assert FormatArgs(args)[0] == FormatArg(args[0])[0];
    }
  }

  /** An argument's text starts with '-', a digit or '"'. */
  lemma FormatArgStartsArg(a: Arg)
    ensures |FormatArg(a)| >= 1
    ensures var b := FormatArg(a)[0]; b == '-' || IsDigit(b) || b == '"'
  {
  }

  // ---------------------------------------------------------------------
  // build_cmd_param and build_cmd

  /**
   * The at_sprintf arguments build_cmd_param passes for a command, given the
   * multiplexing flag and, for AT+CIPSEND, the protocol of the connection the
   * data goes to. Unsigned members are passed where int32_t is read.
   */
  function ParamArgs(cmd: AtCmd, p: InParam, multiple: bool, sendSocket: SocketType): (r: seq<Arg>)
    requires ParamMatchesCmd(cmd, p) && InParamFieldsFit(p)
    ensures forall k :: 0 <= k < |r| && r[k].Dec? ==> -0x8000_0000 <= r[k].v <= INT32_MAX
  {
    match cmd
    case DeepSleep => [Dec(AsInt32(p.ms))]
    case SetOperationMode => [Dec(WifiModeValue(p.mode))]
    case ConnectNetwork => [Str(p.ssid), Str(p.pwd)]
    case SetAccessPoint =>
      [Str(p.apSsid), Str(p.apPwd), Dec(AsInt32(p.chId)), Dec(EncryptionValue(p.encryption))]
    case StartConnection =>
      var idArg := if multiple then [Dec(AsInt32(p.id))] else [];
      if p.socketType == SocketTcp then
        idArg + [Str("TCP"), Str(p.addr), Dec(p.port)]
      else
        idArg + [Str("UDP"), Str(p.addr), Dec(p.port), Dec(p.localPort), Dec(UdpModeValue(p.udpMode))]
    case Send =>
      var idArg := if multiple then [Dec(AsInt32(p.sendId))] else [];
      if sendSocket == SocketTcp then
        idArg + [Dec(AsInt32(|p.data|))]
      else
        idArg + [Dec(AsInt32(|p.data|)), Str(p.remoteIp), Dec(p.remotePort)]
    case StopConnection => [Dec(AsInt32(p.connId))]
    case SetConnectionType => [Dec(if p.connType == MultipleConnection then 1 else 0)]
    case SetServer => [Dec(if p.action == OpenSocket then 1 else 0), Dec(p.serverPort)]
    case SetTransportMode => [Dec(if p.transportMode == UnvarnishedMode then 1 else 0)]
    case SetClientTimeout => [Dec(AsInt32(p.seconds))]
    case Ping => [Str(p.ip)]
    case _ => []
  }

  /** What follows the token: nothing, '?', '=?', or '=' and the arguments. */
  datatype CmdSuffix = NoSuffix | QuerySuffix | TestSuffix | SetSuffix(args: seq<Arg>)

  /** The suffix build_cmd writes for an operation; a SET without a parameter gets none. */
  function SuffixOf(op: CmdOperation, args: Option<seq<Arg>>): CmdSuffix
  {
    match op
    case Query => QuerySuffix
    case Test => TestSuffix
    case SetOp => if args.Some? then SetSuffix(args.value) else NoSuffix
    case Execute => NoSuffix
  }

  function SuffixText(x: CmdSuffix): seq<byte>
  {
    match x
    case NoSuffix => []
    case QuerySuffix => ['?']
    case TestSuffix => ['=', '?']
    case SetSuffix(args) => ['='] + FormatArgs(args)
  }

  /** AT[CMD][OP]<params>\r\n */
  function CmdText(cmd: AtCmd, x: CmdSuffix): seq<byte>
  {
    "AT" + Token(cmd) + SuffixText(x) + "\r\n"
  }

  // The decoder the module applies to a command line.

  predicate TokenFits(t: seq<byte>, body: seq<byte>)
  {
    |t| <= |body| && body[..|t|] == t && (|t| == |body| || body[|t|] == '?' || body[|t|] == '=')
  }

  /** The first command, in table order from index i, whose token fits at the head of body. */
  function FindCmd(body: seq<byte>, i: nat): (r: Option<AtCmd>)
    ensures r.Some? ==> TokenFits(Token(r.value), body)
    decreases |ALL_CMDS| - i
  {
    if i >= |ALL_CMDS| then None
    else if TokenFits(Token(ALL_CMDS[i]), body) then Some(ALL_CMDS[i])
    else FindCmd(body, i + 1)
  }

  function ParseSuffix(rest: seq<byte>): Option<CmdSuffix>
  {
    if rest == [] then Some(NoSuffix)
    else if rest == ['?'] then Some(QuerySuffix)
    else if rest == ['=', '?'] then Some(TestSuffix)
    else if rest[0] == '=' then
      match ParseArgs(rest[1..])
      case None => None
      case Some(args) => Some(SetSuffix(args))
    else None
  }

  function ParseCmdLine(line: seq<byte>): Option<(AtCmd, CmdSuffix)>
  {
    if |line| < 4 || line[..2] != "AT" || line[|line| - 2..] != "\r\n" then None
    else
      var body := line[2..|line| - 2];
      match FindCmd(body, 0)
      case None => None
      case Some(c) =>
        match ParseSuffix(body[|Token(c)|..])
        case None => None
        case Some(x) => Some((c, x))
  }

  predicate NoDelimiter(t: seq<byte>)
  {
    forall m :: 0 <= m < |t| ==> t[m] != '?' && t[m] != '='
  }

  lemma TokenHasNoDelimiter(c: AtCmd)
    ensures NoDelimiter(Token(c))
  {
    TokenCharsOfTable(c);
  }

  lemma TokenFitsSame(ti: seq<byte>, tj: seq<byte>, s: seq<byte>)
    requires NoDelimiter(ti) && NoDelimiter(tj)
    requires s == [] || s[0] == '?' || s[0] == '='
    requires TokenFits(ti, tj + s)
    ensures ti == tj
  {
    var body := tj + s;
    forall k | 0 <= k < |ti|
      ensures ti[k] == body[k]
    {
      assert body[..|ti|][k] == body[k];
    }
    assert s != [] ==> body[|tj|] == s[0];
    assert |ti| == |tj| ==> body[..|ti|] == tj;
  }

  /** Only a command's own token fits at the head of its command line. */
  lemma TokenFitsOnlyOwn(c: AtCmd, d: AtCmd, s: seq<byte>)
    requires s == [] || s[0] == '?' || s[0] == '='
    requires TokenFits(Token(c), Token(d) + s)
    ensures c == d
  {
    TokenHasNoDelimiter(c);
    TokenHasNoDelimiter(d);
    TokenFitsSame(Token(c), Token(d), s);
    TokensDistinct(c, d);
  }

  lemma {:induction false} FindCmdFinds(cmd: AtCmd, s: seq<byte>, i: nat)
    requires s == [] || s[0] == '?' || s[0] == '='
    requires i <= CmdIndex(cmd)
    ensures FindCmd(Token(cmd) + s, i) == Some(cmd)
    decreases CmdIndex(cmd) - i
  {
    var body := Token(cmd) + s;
    if i == CmdIndex(cmd) {
      assert body[..|Token(cmd)|] == Token(cmd);
      if |Token(cmd)| < |body| {
        assert body[|Token(cmd)|] == s[0];
      }
    } else {
      if TokenFits(Token(ALL_CMDS[i]), body) {
        TokenFitsOnlyOwn(ALL_CMDS[i], cmd, s);
        CmdIndexIsBijective();
      }
      FindCmdFinds(cmd, s, i + 1);
    }
  }

  lemma SuffixTextParses(x: CmdSuffix)
    ensures ParseSuffix(SuffixText(x)) == Some(x)
    ensures SuffixText(x) == [] || SuffixText(x)[0] == '?' || SuffixText(x)[0] == '='
  {
    if x.SetSuffix? {
      var t := SuffixText(x);
      ParseArgsFormat(x.args);
      assert t[1..] == FormatArgs(x.args);
      if x.args != [] {
        FormatArgStartsArg(x.args[0]);
        assert t[1] == FormatArg(x.args[0])[0];
      }
    }
  }

  /** The framing of a command line: "AT", then the body, then "\r\n". */
  lemma LineFraming(body: seq<byte>)
    ensures var line := "AT" + body + "\r\n";
      |line| >= 4 && line[..2] == "AT" && line[|line| - 2..] == "\r\n" && line[2..|line| - 2] == body
  {
    var line := "AT" + body + "\r\n";
    assert line[..2] == "AT";
    assert line[|line| - 2..] == "\r\n";
    assert line[2..|line| - 2] == body;
  }

  lemma ParseCmdLineOfParts(t: seq<byte>, sfx: seq<byte>, c: AtCmd, x: CmdSuffix)
    requires Token(c) == t
    requires FindCmd(t + sfx, 0) == Some(c)
    requires ParseSuffix(sfx) == Some(x)
    ensures ParseCmdLine("AT" + (t + sfx) + "\r\n") == Some((c, x))
  {
    LineFraming(t + sfx);
    assert (t + sfx)[|t|..] == sfx;
  }

  /** The module recovers the command and its suffix from the line build_cmd writes. */
  lemma ParseCmdLineOfCmdText(cmd: AtCmd, x: CmdSuffix)
    ensures ParseCmdLine(CmdText(cmd, x)) == Some((cmd, x))
  {
    SuffixTextParses(x);
    FindCmdFinds(cmd, SuffixText(x), 0);
    ParseCmdLineOfParts(Token(cmd), SuffixText(x), cmd, x);
    assert CmdText(cmd, x) == "AT" + (Token(cmd) + SuffixText(x)) + "\r\n";
  }
}
