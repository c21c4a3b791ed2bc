// Types and constants of the ESP8266 AT-command driver (at_driver.h and
// at_params.h): the command set, the operation kinds and their bit values,
// the receive states, and the parameter union a caller fills for a command.

module AtDefs {
  import opened Common

  const NB_RESPONSES: nat := 4
  const MAX_CONNECTIONS: nat := 4
  const CMD_BUFF_LEN: nat := 120
  const RESULT_BUFF_LEN: nat := 500
  /** Milliseconds wait_for_response polls before giving up. */
  const MODULE_TIMEOUT: nat := 20000

  /** enum at_cmd, in declaration order (the index into the command table). */
  datatype AtCmd =
    | Attention | Reset | DeepSleep | GetVersion | SetOperationMode
    | ConnectNetwork | GetAvailableNetworks | DisconnectNetwork | SetAccessPoint
    | GetConnectedIps | GetStatus | StartConnection | Send | StopConnection
    | GetIp | SetConnectionType | SetServer | SetTransportMode
    | SetClientTimeout | Ping

  const ALL_CMDS: seq<AtCmd> := [
    Attention, Reset, DeepSleep, GetVersion, SetOperationMode,
    ConnectNetwork, GetAvailableNetworks, DisconnectNetwork, SetAccessPoint,
    GetConnectedIps, GetStatus, StartConnection, Send, StopConnection,
    GetIp, SetConnectionType, SetServer, SetTransportMode,
    SetClientTimeout, Ping]

  /** The numeric value of the enumerator. */
  function CmdIndex(c: AtCmd): (i: nat)
    ensures i < |ALL_CMDS| && ALL_CMDS[i] == c
  {
    match c
    case Attention => 0
    case Reset => 1
    case DeepSleep => 2
    case GetVersion => 3
    case SetOperationMode => 4
    case ConnectNetwork => 5
    case GetAvailableNetworks => 6
    case DisconnectNetwork => 7
    case SetAccessPoint => 8
    case GetConnectedIps => 9
    case GetStatus => 10
    case StartConnection => 11
    case Send => 12
    case StopConnection => 13
    case GetIp => 14
    case SetConnectionType => 15
    case SetServer => 16
    case SetTransportMode => 17
    case SetClientTimeout => 18
    case Ping => 19
  }

  /** The enumerators are numbered 0, 1, ... without gaps or repeats. */
  lemma CmdIndexIsBijective()
    ensures |ALL_CMDS| == 20
    ensures forall c :: CmdIndex(c) < 20
    ensures forall i :: 0 <= i < 20 ==> CmdIndex(ALL_CMDS[i]) == i
  {
  }

  /** enum cmd_operation: each operation kind is one bit of a 4-bit mask. */
  datatype CmdOperation = Test | Query | SetOp | Execute

  function OpBit(op: CmdOperation): bv8
  {
    match op
    case Test => 0x1
    case Query => 0x2
    case SetOp => 0x4
    case Execute => 0x8
  }

  /** The mask of a set of allowed operations, as the command table spells it with '|'. */
  function OpMask(ops: set<CmdOperation>): (m: bv8)
    ensures m & 0xF0 == 0
  {
    (if Test in ops then 0x1 else 0) | (if Query in ops then 0x2 else 0)
    | (if SetOp in ops then 0x4 else 0) | (if Execute in ops then 0x8 else 0)
  }

  /** Testing a mask with '&' against one operation's bit decides membership. */
  lemma OpMaskMembership(ops: set<CmdOperation>, op: CmdOperation)
    ensures OpMask(ops) & OpBit(op) != 0 <==> op in ops
  {
  }

  /** result_status: what the response matcher concluded about the last command. */
  datatype ResultStatus = WaitingResult | ResultAvailable | ResultError | OverflowError

  /** callback_state: what the next byte from the UART is taken to be. */
  datatype CallbackState = ReadingModuleMsg | ReadingPayload | ReadingUnvarnished

  datatype SocketType = SocketTcp | SocketUdp

  /** enum cwmod_param: CLIENT = 1, ACCESS_POINT = 2, CLIENT_AND_ACCESS_POINT = 3. */
  datatype WifiMode = Client | AccessPoint | ClientAndAccessPoint

  function WifiModeValue(m: WifiMode): int
  {
    match m
    case Client => 1
    case AccessPoint => 2
    case ClientAndAccessPoint => 3
  }

  /** enum encryption_type: OPEN = 0 ... WPA_WPA2_PSK = 4. */
  datatype Encryption = Open | Wep | WpaPsk | Wpa2Psk | WpaWpa2Psk

  function EncryptionValue(e: Encryption): int
  {
    match e
    case Open => 0
    case Wep => 1
    case WpaPsk => 2
    case Wpa2Psk => 3
    case WpaWpa2Psk => 4
  }

  datatype ConnectionType = SingleConnection | MultipleConnection

  datatype ServerAction = CloseSocket | OpenSocket

  datatype TransportMode = NormalMode | UnvarnishedMode

  /** The UDP entity-change mode of AT+CIPSTART (0..2). */
  datatype UdpMode = UdpNoChange | UdpChangeOne | UdpChangeAllowed

  function UdpModeValue(m: UdpMode): int
  {
    match m
    case UdpNoChange => 0
    case UdpChangeOne => 1
    case UdpChangeAllowed => 2
  }

  predicate IsU32(n: nat) { n < U32_MODULUS }
  predicate IsU16(n: nat) { n < 0x1_0000 }

  /**
   * union in_param: the member the caller filled in. The driver reads the
   * member that belongs to the command, so the variant must match it.
   */
  datatype InParam =
    | DeepSleepTime(ms: nat)
    | WifiModeParam(mode: WifiMode)
    | Network(ssid: seq<byte>, pwd: seq<byte>)
    | AccessPointParam(apSsid: seq<byte>, apPwd: seq<byte>, chId: nat, encryption: Encryption)
    | Connection(id: nat, socketType: SocketType, addr: seq<byte>, port: nat,
                 localPort: nat, udpMode: UdpMode)
    | SendData(sendId: nat, data: seq<byte>, remoteIp: seq<byte>, remotePort: nat)
    | ConnId(connId: nat)
    | ConnTypeParam(connType: ConnectionType)
    | Server(action: ServerAction, serverPort: nat)
    | TransportModeParam(transportMode: TransportMode)
    | Timeout(seconds: nat)
    | PingIp(ip: seq<byte>)

  /** The field widths of the C members (uint32_t, uint16_t, lengths of at_buff). */
  predicate InParamFieldsFit(p: InParam)
  {
    match p
    case DeepSleepTime(ms) => IsU32(ms)
    case WifiModeParam(_) => true
    case Network(s, w) => IsU32(|s|) && IsU32(|w|)
    case AccessPointParam(s, w, ch, _) => IsU32(|s|) && IsU32(|w|) && IsU32(ch)
    case Connection(id, _, a, port, lport, _) => IsU32(id) && IsU32(|a|) && IsU16(port) && IsU16(lport)
    case SendData(id, d, ip, rport) => IsU32(id) && IsU32(|d|) && IsU32(|ip|) && IsU16(rport)
    case ConnId(id) => IsU32(id)
    case ConnTypeParam(_) => true
    case Server(_, port) => IsU16(port)
    case TransportModeParam(_) => true
    case Timeout(t) => IsU32(t)
    case PingIp(ip) => IsU32(|ip|)
  }

  /** The union member build_cmd_param reads for a command sent with '='. */
  predicate ParamMatchesCmd(cmd: AtCmd, p: InParam)
  {
    match cmd
    case DeepSleep => p.DeepSleepTime?
    case SetOperationMode => p.WifiModeParam?
    case ConnectNetwork => p.Network?
    case SetAccessPoint => p.AccessPointParam?
    case StartConnection => p.Connection?
    case Send => p.SendData?
    case StopConnection => p.ConnId?
    case SetConnectionType => p.ConnTypeParam?
    case SetServer => p.Server?
    case SetTransportMode => p.TransportModeParam?
    case SetClientTimeout => p.Timeout?
    case Ping => p.PingIp?
    case _ => true
  }

  /** One entry of the connections table: whether it is open and its protocol. */
  datatype ConnSlot = ConnSlot(active: bool, socketType: SocketType)
}
