// What refresh_status (at_driver.c) does to the driver's state when a byte
// is appended to the result buffer: the counters move, and a completed
// response is cut off the buffer and sets the command's status or closes
// a connection.

module AtRefresh {
  import opened Common
  import opened AtDefs
  import opened AtMatch

  /** The part of at_desc refresh_status updates. */
  datatype MatchState = MatchState(counters: seq<nat>, len: nat, status: ResultStatus, conns: seq<ConnSlot>)

  predicate ValidMatchState(m: MatchState)
  {
    ValidCounters(m.counters) && |m.conns| == MAX_CONNECTIONS
  }

  /** The effect of a completed response: the new length, the status it sets, the connection it closes. */
  datatype Completion = Completion(len: nat, status: Option<ResultStatus>, closed: Option<nat>)

  /**
   * The switch in refresh_status, with the two corrections this model
   * makes: the cut stops at an empty buffer, and a connection id outside
   * the table closes nothing.
   */
  function Complete(p: nat, buf: seq<byte>, len: nat, multiple: bool): (r: Completion)
    requires p < NB_RESPONSES && len <= |buf|
    ensures r.len <= len
    ensures r.closed.Some? ==> p == CLOSED_RESP && r.closed.value < MAX_CONNECTIONS
    ensures r.status.Some? <==> p != CLOSED_RESP
  {
    var cut := Trim(len, |RESPONSES[p]|);
    if p == ERROR_RESP then Completion(cut, Some(ResultError), None)
    else if p == OK_RESP || p == SEND_OK_RESP then Completion(cut, Some(ResultAvailable), None)
    else
      var (slot, len') := ClosedSlot(buf, cut, multiple);
      Completion(len', None, slot)
  }

  /** connections[id].active = false. */
  function Deactivate(conns: seq<ConnSlot>, slot: Option<nat>): (r: seq<ConnSlot>)
    requires slot.Some? ==> slot.value < |conns|
    ensures |r| == |conns|
    ensures forall j :: 0 <= j < |r| && slot != Some(j) ==> r[j] == conns[j]
    ensures slot.Some? ==> !r[slot.value].active && r[slot.value].socketType == conns[slot.value].socketType
  {
    if slot.None? then conns else conns[slot.value := conns[slot.value].(active := false)]
  }

  /** refresh_status after buf[len - 1] was appended. */
  function Refresh(m: MatchState, buf: seq<byte>, multiple: bool): (r: MatchState)
    requires ValidMatchState(m) && 0 < m.len <= |buf|
    ensures ValidMatchState(r) && r.len <= m.len
  {
    var st := Step(m.counters, buf[m.len - 1]);
    match st.matched
    case None => m.(counters := st.counters)
    case Some(p) =>
      var e := Complete(p, buf, m.len, multiple);
      MatchState(st.counters, e.len, if e.status.Some? then e.status.value else m.status, Deactivate(m.conns, e.closed))
  }

  /**
   * A status is set only when the bytes of its response were really
   * received: the buffer then ends with the whole response, and the
   * response is cut off it exactly, leaving what preceded it.
   */
  lemma RefreshSetsStatusOnResponse(m: MatchState, buf: seq<byte>, multiple: bool)
    requires ValidMatchState(m) && 0 < m.len <= |buf|
    requires Tracks(m.counters, buf[..m.len - 1])
    ensures var r := Refresh(m, buf, multiple);
      r.status != m.status ==>
        exists p :: 0 <= p < CLOSED_RESP
          && |RESPONSES[p]| <= m.len
          && buf[m.len - |RESPONSES[p]|..m.len] == RESPONSES[p]
          && r.len + |RESPONSES[p]| == m.len
          && r.status == (if p == ERROR_RESP then ResultError else ResultAvailable)
  {
    var h := buf[..m.len - 1];
    var b := buf[m.len - 1];
    assert h + [b] == buf[..m.len];
    StepSound(m.counters, h, b);
    var st := Step(m.counters, b);
    var r := Refresh(m, buf, multiple);
    if r.status != m.status {
      var p := st.matched.value;
      assert buf[m.len - |RESPONSES[p]|..m.len] == (h + [b])[|h| + 1 - |RESPONSES[p]|..];
    }
  }

  /** A byte that completes no response leaves everything but the counters alone, and keeps them tracking the buffer. */
  lemma RefreshWithoutMatch(m: MatchState, buf: seq<byte>, multiple: bool)
    requires ValidMatchState(m) && 0 < m.len <= |buf|
    requires Tracks(m.counters, buf[..m.len - 1])
    requires Step(m.counters, buf[m.len - 1]).matched.None?
    ensures var r := Refresh(m, buf, multiple);
      r.len == m.len && r.status == m.status && r.conns == m.conns && Tracks(r.counters, buf[..m.len])
  {
    var h := buf[..m.len - 1];
    assert h + [buf[m.len - 1]] == buf[..m.len];
    StepSound(m.counters, h, buf[m.len - 1]);
  }

  /** A "CLOSED\r\n" closes at most one connection, and only in the table. */
  lemma RefreshClosesOneSlot(m: MatchState, buf: seq<byte>, multiple: bool, j: nat)
    requires ValidMatchState(m) && 0 < m.len <= |buf| && j < MAX_CONNECTIONS
    ensures var r := Refresh(m, buf, multiple);
      r.conns[j] != m.conns[j] ==>
        Step(m.counters, buf[m.len - 1]).matched == Some(CLOSED_RESP)
        && !r.conns[j].active && r.status == m.status
        && (!multiple ==> j == 0)
  {
  }
}
