// The command table of the AT driver (g_map in at_driver.c): each command's
// token and the operations it accepts.

module AtTable {
  import opened Common
  import opened AtDefs

  /** struct cmd_desc: the command's token, its declared length and the allowed operations. */
  datatype CmdDesc = CmdDesc(token: seq<byte>, tokenLen: nat, ops: set<CmdOperation>)

  /** g_map[c]. */
  function Desc(c: AtCmd): CmdDesc
  {
    match c
    case Attention => CmdDesc("", 0, {Execute})
    case Reset => CmdDesc("+RST", 4, {Execute})
    case DeepSleep => CmdDesc("+GSLP", 5, {SetOp})
    case GetVersion => CmdDesc("+GMR", 4, {Execute})
    case SetOperationMode => CmdDesc("+CWMODE", 7, {Query, SetOp, Test})
    case ConnectNetwork => CmdDesc("+CWJAP", 6, {Query, SetOp})
    case GetAvailableNetworks => CmdDesc("+CWLAP", 6, {Execute})
    case DisconnectNetwork => CmdDesc("+CWQAP", 6, {Execute})
    case SetAccessPoint => CmdDesc("+CWSAP", 6, {Query, SetOp})
    case GetConnectedIps => CmdDesc("+CWLIF", 6, {Execute})
    case GetStatus => CmdDesc("+CIPSTATUS", 10, {Execute})
    case StartConnection => CmdDesc("+CIPSTART", 9, {Test, SetOp})
    case Send => CmdDesc("+CIPSEND", 8, {SetOp})
    case StopConnection => CmdDesc("+CIPCLOSE", 9, {Execute, SetOp})
    case GetIp => CmdDesc("+CIFSR", 6, {Execute})
    case SetConnectionType => CmdDesc("+CIPMUX", 7, {Query, SetOp})
    case SetServer => CmdDesc("+CIPSERVER", 10, {SetOp})
    case SetTransportMode => CmdDesc("+CIPMODE", 8, {Query, SetOp})
    case SetClientTimeout => CmdDesc("+CIPSTO", 7, {Query, SetOp})
    case Ping => CmdDesc("+PING", 5, {SetOp})
  }

  function Token(c: AtCmd): seq<byte>
  {
    Desc(c).token
  }

  /** The 'type' member of the command's table entry. */
  function TypeMask(c: AtCmd): bv8
  {
    OpMask(Desc(c).ops)
  }

  /** The test at_run_cmd applies before doing anything else. */
  predicate OpAllowed(c: AtCmd, op: CmdOperation)
  {
    TypeMask(c) & OpBit(op) != 0
  }

  /** The mask test accepts exactly the operations listed for the command. */
  lemma OpAllowedIff(c: AtCmd, op: CmdOperation)
    ensures OpAllowed(c, op) <==> op in Desc(c).ops
  {
    OpMaskMembership(Desc(c).ops, op);
  }

  /** The command a token names, as the module reads it. */
  function CmdOfToken(t: seq<byte>): (r: Option<AtCmd>)
    ensures r.Some? ==> Token(r.value) == t
  {
    if t == "" then Some(Attention)
    else if t == "+RST" then Some(Reset)
    else if t == "+GSLP" then Some(DeepSleep)
    else if t == "+GMR" then Some(GetVersion)
    else if t == "+CWMODE" then Some(SetOperationMode)
    else if t == "+CWJAP" then Some(ConnectNetwork)
    else if t == "+CWLAP" then Some(GetAvailableNetworks)
    else if t == "+CWQAP" then Some(DisconnectNetwork)
    else if t == "+CWSAP" then Some(SetAccessPoint)
    else if t == "+CWLIF" then Some(GetConnectedIps)
    else if t == "+CIPSTATUS" then Some(GetStatus)
    else if t == "+CIPSTART" then Some(StartConnection)
    else if t == "+CIPSEND" then Some(Send)
    else if t == "+CIPCLOSE" then Some(StopConnection)
    else if t == "+CIFSR" then Some(GetIp)
    else if t == "+CIPMUX" then Some(SetConnectionType)
    else if t == "+CIPSERVER" then Some(SetServer)
    else if t == "+CIPMODE" then Some(SetTransportMode)
    else if t == "+CIPSTO" then Some(SetClientTimeout)
    else if t == "+PING" then Some(Ping)
    else None
  }

  /**
   * Every declared length is the length of its token, and every token names
   * its own command back, so no two commands share a token.
   */
  lemma CommandTableConsistent(c: AtCmd)
    ensures |Token(c)| == Desc(c).tokenLen
    ensures CmdOfToken(Token(c)) == Some(c)
  {
  }

  lemma TokensDistinct(c: AtCmd, d: AtCmd)
    requires Token(c) == Token(d)
    ensures c == d
  {
    CommandTableConsistent(c);
    CommandTableConsistent(d);
  }

  /** A token is '+' followed by capital letters (the first one is empty). */
  predicate TokenChars(t: seq<byte>)
  {
    t == [] || (t[0] == '+' && forall m :: 1 <= m < |t| ==> 'A' <= t[m] <= 'Z')
  }

  lemma TokenCharsOfTable(c: AtCmd)
    ensures TokenChars(Token(c))
  {
  }
}
