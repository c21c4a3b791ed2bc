// What at_run_cmd (at_driver.c) asks of its arguments before it writes a
// command, and what it leaves behind when the module answers OK.

module AtRun {
  import opened Common
  import opened AtDefs
  import opened AtTable
  import opened AtMatch
  import opened AtRefresh

  /** Whether at_run_cmd gets past its gates: the operation is allowed, and in unvarnished mode only AT+CIPMODE=0 passes. */
  predicate Admitted(c: AtCmd, op: CmdOperation, param: Option<InParam>, state: CallbackState)
  {
    OpAllowed(c, op)
    && (state == ReadingUnvarnished ==>
          c == SetTransportMode && param.Some? && param.value.TransportModeParam? && param.value.transportMode == NormalMode)
  }

  /** The members of param at_run_cmd itself dereferences, for commands that pass the operation gate. */
  predicate ParamReadable(c: AtCmd, op: CmdOperation, param: Option<InParam>, multiple: bool)
  {
    (c == Send ==> param.Some? && param.value.SendData?)
    && (c == StartConnection && op == SetOp ==>
          param.Some? && param.value.Connection? && (multiple ==> param.value.id < MAX_CONNECTIONS))
    && (c == SetConnectionType ==> param.Some? && param.value.ConnTypeParam?)
    && (c == SetTransportMode ==> param.Some? && param.value.TransportModeParam?)
  }

  /** The connection slot AT+CIPSTART=... opens: its id in multiplexed mode, else 0. */
  function StartSlot(p: InParam, multiple: bool): nat
    requires p.Connection?
  {
    if multiple then p.id else 0
  }

  /**
   * What at_run_cmd leaves behind when it succeeds, given the connection
   * mode it started in: an empty result buffer, the module's OK
   * (DisconnectNetwork with a parameter instead ends on the disconnect
   * message), and the bookkeeping of the connection mode, the opened link
   * and the transport mode.
   */
  predicate RunSucceeded(c: AtCmd, op: CmdOperation, param: Option<InParam>, multiple0: bool,
                         m: MatchState, multiple: bool, state: CallbackState)
  {
    && m.len == 0
    && (!(c == DisconnectNetwork && param.Some?) ==> m.status == ResultAvailable)
    && (c == SetConnectionType && param.Some? && param.value.ConnTypeParam? ==>
          multiple == (param.value.connType == MultipleConnection))
    && (c == StartConnection && op == SetOp && param.Some? && param.value.Connection? ==>
          StartSlot(param.value, multiple0) < |m.conns|
          && m.conns[StartSlot(param.value, multiple0)] == ConnSlot(true, param.value.socketType))
    && (c == SetTransportMode && param == Some(TransportModeParam(UnvarnishedMode)) ==> state == ReadingUnvarnished)
  }
}
