// Recognising what the module says (at_driver.c): the four final responses
// refresh_status tracks with one matching counter each, the connection id
// get_conn_id reads in front of "CLOSED", and the "+IPD," header
// process_ipd_msg looks for when a ':' arrives.

module AtMatch {
  import opened Common
  import opened AtDefs
  import opened AtTable
  import opened AtFormat
  import opened AtScan

  /** The responses refresh_status tracks, in the order it tests them. */
  const RESPONSES: seq<seq<byte>> := ["\r\nERROR\r\n", "\r\nOK\r\n", "\r\nSEND OK\r\n", "CLOSED\r\n"]
  const ERROR_RESP: nat := 0
  const OK_RESP: nat := 1
  const SEND_OK_RESP: nat := 2
  const CLOSED_RESP: nat := 3

  lemma ResponseLengths()
    ensures |RESPONSES| == NB_RESPONSES
    ensures |RESPONSES[0]| == 9 && |RESPONSES[1]| == 6 && |RESPONSES[2]| == 11 && |RESPONSES[3]| == 8
  {
  }

  /** Every counter is below the length of its response, so it indexes a byte of it. */
  predicate ValidCounters(c: seq<nat>)
  {
    |c| == NB_RESPONSES && forall p :: 0 <= p < NB_RESPONSES ==> c[p] < |RESPONSES[p]|
  }

  const ZERO_COUNTERS: seq<nat> := [0, 0, 0, 0]

  /** A counter's next value: one more on a match, 1 when the byte restarts the response, else 0. */
  function NextCount(p: nat, c: nat, b: byte): (r: nat)
    requires p < NB_RESPONSES && c < |RESPONSES[p]|
    ensures r <= c + 1
  {
    if b == RESPONSES[p][c] then c + 1
    else if b == RESPONSES[p][0] then 1
    else 0
  }

  /** Counters after a byte and the response it completed, if any. */
  datatype StepResult = StepResult(counters: seq<nat>, matched: Option<nat>)

  /** refresh_status's loop from response i on: it stops at the first completed response and clears every counter. */
  function StepFrom(c: seq<nat>, b: byte, i: nat): (r: StepResult)
    requires |c| == NB_RESPONSES && i <= NB_RESPONSES
    requires forall p :: i <= p < NB_RESPONSES ==> c[p] < |RESPONSES[p]|
    requires forall p :: 0 <= p < i ==> c[p] < |RESPONSES[p]|
    ensures ValidCounters(r.counters)
    ensures r.matched.Some? ==> i <= r.matched.value < NB_RESPONSES && r.counters == ZERO_COUNTERS
    decreases NB_RESPONSES - i
  {
    if i == NB_RESPONSES then StepResult(c, None)
    else
      var n := NextCount(i, c[i], b);
      if n == |RESPONSES[i]| then StepResult(ZERO_COUNTERS, Some(i))
      else StepFrom(c[i := n], b, i + 1)
  }

  function Step(c: seq<nat>, b: byte): (r: StepResult)
    requires ValidCounters(c)
    ensures ValidCounters(r.counters)
  {
    StepFrom(c, b, 0)
  }

  /** The last k bytes of h spell the first k bytes of response p. */
  predicate EndsWithPrefix(h: seq<byte>, p: nat, k: nat)
    requires p < NB_RESPONSES
  {
    k <= |h| && k <= |RESPONSES[p]| && h[|h| - k..] == RESPONSES[p][..k]
  }

  /** Each counter says how much of its response the bytes seen so far end with. */
  predicate Tracks(c: seq<nat>, h: seq<byte>)
    requires |c| == NB_RESPONSES
  {
    forall p :: 0 <= p < NB_RESPONSES ==> EndsWithPrefix(h, p, c[p])
  }

  lemma NextCountTracks(p: nat, c: nat, h: seq<byte>, b: byte)
    requires p < NB_RESPONSES && c < |RESPONSES[p]|
    requires EndsWithPrefix(h, p, c)
    ensures EndsWithPrefix(h + [b], p, NextCount(p, c, b))
  {
    var h' := h + [b];
    var r := RESPONSES[p];
    if b == r[c] {
      assert h'[|h'| - (c + 1)..] == h[|h| - c..] + [b];
      assert r[..c + 1] == r[..c] + [r[c]];
    } else if b == r[0] {
      assert h'[|h'| - 1..] == [b];
    } else {
      assert h'[|h'|..] == [];
    }
  }

  lemma {:induction false} StepFromSound(c: seq<nat>, b: byte, i: nat, h: seq<byte>)
    requires |c| == NB_RESPONSES && i <= NB_RESPONSES
    requires forall p :: 0 <= p < NB_RESPONSES ==> c[p] < |RESPONSES[p]|
    requires forall p :: i <= p < NB_RESPONSES ==> EndsWithPrefix(h, p, c[p])
    requires forall p :: 0 <= p < i ==> EndsWithPrefix(h + [b], p, c[p])
    ensures var r := StepFrom(c, b, i);
      (r.matched.Some? ==> EndsWithPrefix(h + [b], r.matched.value, |RESPONSES[r.matched.value]|))
      && (r.matched.None? ==> Tracks(r.counters, h + [b]))
    decreases NB_RESPONSES - i
  {
    if i < NB_RESPONSES {
      var n := NextCount(i, c[i], b);
      NextCountTracks(i, c[i], h, b);
      if n < |RESPONSES[i]| {
        var c' := c[i := n];
        StepFromSound(c', b, i + 1, h);
      }
    }
  }

  /**
   * The matcher never reports a response that was not received: when a byte
   * completes response p, the bytes seen so far end with all of p; otherwise
   * every counter still describes the tail of what was seen.
   */
  lemma StepSound(c: seq<nat>, h: seq<byte>, b: byte)
    requires ValidCounters(c) && Tracks(c, h)
    ensures var r := Step(c, b);
      (r.matched.Some? ==>
         (|RESPONSES[r.matched.value]| <= |h| + 1
          && (h + [b])[|h| + 1 - |RESPONSES[r.matched.value]|..] == RESPONSES[r.matched.value]))
      && (r.matched.None? ==> Tracks(r.counters, h + [b]))
  {
    StepFromSound(c, b, 0, h);
    var r := Step(c, b);
    if r.matched.Some? {
      var p := r.matched.value;
      assert RESPONSES[p][..|RESPONSES[p]|] == RESPONSES[p];
    }
  }

  lemma {:induction false} StepFromAdvances(c: seq<nat>, b: byte, i: nat, p: nat)
    requires |c| == NB_RESPONSES && i <= p < NB_RESPONSES
    requires forall q :: 0 <= q < NB_RESPONSES ==> c[q] < |RESPONSES[q]|
    requires b == RESPONSES[p][c[p]]
    ensures StepFrom(c, b, i).matched.None? ==> StepFrom(c, b, i).counters[p] == c[p] + 1
    ensures c[p] + 1 == |RESPONSES[p]| ==> StepFrom(c, b, i).matched.Some? && StepFrom(c, b, i).matched.value <= p
    decreases p - i
  {
    var n := NextCount(i, c[i], b);
    if i < p && n < |RESPONSES[i]| {
      StepFromAdvances(c[i := n], b, i + 1, p);
    }
  }

  /**
   * A byte that continues a response advances its counter, unless some
   * response completes on that byte; a byte that completes the response
   * always reports a completed response, that one or one tested before it.
   */
  lemma StepAdvances(c: seq<nat>, b: byte, p: nat)
    requires ValidCounters(c) && p < NB_RESPONSES
    requires b == RESPONSES[p][c[p]]
    ensures Step(c, b).matched.None? ==> Step(c, b).counters[p] == c[p] + 1
    ensures c[p] + 1 == |RESPONSES[p]| ==> Step(c, b).matched.Some? && Step(c, b).matched.value <= p
  {
    StepFromAdvances(c, b, 0, p);
  }

  /** "\r\nOK\r\n" from a clean start: one step per byte, reported on the last. */
  lemma OkResponseTrace()
    ensures Step(ZERO_COUNTERS, '\r') == StepResult([1, 1, 1, 0], None)
    ensures Step([1, 1, 1, 0], '\n') == StepResult([2, 2, 2, 0], None)
    ensures Step([2, 2, 2, 0], 'O') == StepResult([0, 3, 0, 0], None)
    ensures Step([0, 3, 0, 0], 'K') == StepResult([0, 4, 0, 0], None)
    ensures Step([0, 4, 0, 0], '\r') == StepResult([1, 5, 1, 0], None)
    ensures Step([1, 5, 1, 0], '\n') == StepResult(ZERO_COUNTERS, Some(OK_RESP))
  {
  }

  // ---------------------------------------------------------------------
  // Removing a completed response from the result buffer

  /** result.len -= match_idx[i], in uint32_t arithmetic. */
  function TrimAsWritten(len: nat, k: nat): nat
  {
    Wrap32(len - k)
  }

  /** The response is cut off the end of the buffer; a buffer shorter than the response is left empty. */
  function Trim(len: nat, k: nat): (r: nat)
    ensures r <= len
    ensures len >= k ==> r + k == len
  {
    if len >= k then len - k else 0
  }

  /** The two agree whenever the buffer holds the whole response. */
  lemma TrimAgreesWhenHeld(len: nat, k: nat)
    requires k <= len < U32_MODULUS
    ensures TrimAsWritten(len, k) == Trim(len, k)
  {
  }

  /**
   * The counters are not cleared when the executor empties the result buffer.
   * After "\r\n" the OK counter stands at 2 (see OkResponseTrace); if the
   * buffer is then emptied and "OK\r\n" arrives, the response completes with
   * 4 bytes in the buffer and result.len wraps past RESULT_BUFF_LEN.
   */
  lemma TrimWrapsAfterClear()
    ensures TrimAsWritten(|"OK\r\n"|, |RESPONSES[OK_RESP]|) == U32_MODULUS - 2
    ensures TrimAsWritten(|"OK\r\n"|, |RESPONSES[OK_RESP]|) >= RESULT_BUFF_LEN
    ensures Trim(|"OK\r\n"|, |RESPONSES[OK_RESP]|) == 0
  {
  }

  // ---------------------------------------------------------------------
  // get_conn_id

  /** get_conn_id as written: the id and the new buffer length; 0xFFFFFFFF when no digit precedes the comma. */
  function ConnIdAsWritten(buf: seq<byte>, len: nat): (r: (nat, nat))
    requires len <= |buf|
    ensures r.0 < 10 || r.0 == U32_MODULUS - 1
  {
    var i := len - 2;
    if i < 0 || !IsDigit(buf[i]) then (U32_MODULUS - 1, len)
    else (buf[i] as int - '0' as int, len - 2)
  }

  /** The connection refresh_status marks inactive as written: 0 in single mode, else get_conn_id's id. */
  function ClosedIndexAsWritten(buf: seq<byte>, len: nat, multiple: bool): nat
    requires len <= |buf|
  {
    if multiple then ConnIdAsWritten(buf, len).0 else 0
  }

  /**
   * The guard "id > 4" lets id 4 and every id the module may name through to
   * connections[id], whose last index is 3; with no digit in front of
   * "CLOSED" the index is 0xFFFFFFFF.
   */
  lemma ClosedIndexOutOfRange()
    ensures ClosedIndexAsWritten("\r\n4,", 4, true) == 4
    ensures ClosedIndexAsWritten("\r\n", 2, true) == U32_MODULUS - 1
    ensures 4 >= MAX_CONNECTIONS
  {
  }

  /** The connection a "CLOSED" line deactivates, when it is one the table holds, and the buffer length after the id is removed. */
  function ClosedSlot(buf: seq<byte>, len: nat, multiple: bool): (r: (Option<nat>, nat))
    requires len <= |buf|
    ensures r.0.Some? ==> r.0.value < MAX_CONNECTIONS
    ensures r.1 <= len
  {
    if !multiple then (Some(0), len)
    else
      var (id, len') := ConnIdAsWritten(buf, len);
      (if id < MAX_CONNECTIONS then Some(id) else None, len')
  }

  /** The slot is the one the code indexes whenever that index is in range. */
  lemma ClosedSlotAgrees(buf: seq<byte>, len: nat, multiple: bool)
    requires len <= |buf|
    ensures ClosedIndexAsWritten(buf, len, multiple) < MAX_CONNECTIONS
        <==> ClosedSlot(buf, len, multiple).0 == Some(ClosedIndexAsWritten(buf, len, multiple))
    ensures ClosedSlot(buf, len, multiple).1 == (if multiple then ConnIdAsWritten(buf, len).1 else len)
  {
  }

  // ---------------------------------------------------------------------
  // process_ipd_msg

  /** At most this many digits and commas are scanned backwards from the ':'. */
  const MAX_CH_SEARCH: nat := 13

  predicate DigitOrComma(b: byte) { IsDigit(b) || b == ',' }

  /** "+IPD," ends at index i of buf. */
  predicate IpdEndsAt(buf: seq<byte>, i: int)
  {
    4 <= i < |buf| && buf[i - 4..i + 1] == IPD_PREFIX
  }

  /**
   * The backward scan from index i with nb bytes already scanned: it walks
   * over digits and commas, at most MAX_CH_SEARCH of them, and at each comma
   * compares the five bytes ending there with "+IPD,". The result is the
   * index of the '+'. The scan stops at the start of the buffer.
   */
  function IpdScan(buf: seq<byte>, i: int, nb: nat): (r: Option<nat>)
    requires i < |buf|
    ensures r.Some? ==> IpdEndsAt(buf, r.value + 4) && r.value + 4 <= i
    decreases i + 1
  {
    if i < 0 || nb >= MAX_CH_SEARCH || !DigitOrComma(buf[i]) then None
    else if buf[i] == ',' && IpdEndsAt(buf, i) then Some(i - 4)
    else IpdScan(buf, i - 1, nb + 1)
  }

  /** Where the "+IPD," header of the bytes buffered before a ':' starts. */
  function FindIpd(buf: seq<byte>): (r: Option<nat>)
    ensures r.Some? ==> r.value + 5 <= |buf| && buf[r.value..r.value + 5] == IPD_PREFIX
  {
    IpdScan(buf, |buf| - 1, 0)
  }

  lemma {:induction false} IpdScanFinds(buf: seq<byte>, p: nat, i: int, nb: nat)
    requires IpdEndsAt(buf, p + 4) && p + 4 <= i < |buf|
    requires nb + (i - (p + 4)) < MAX_CH_SEARCH
    requires forall k :: p + 4 < k <= i ==> DigitOrComma(buf[k]) && !IpdEndsAt(buf, k)
    ensures IpdScan(buf, i, nb) == Some(p)
    decreases i
  {
    if i > p + 4 {
      IpdScanFinds(buf, p, i - 1, nb + 1);
    }
  }

  /** The text after "+IPD," in a header: the id (multiplexed) and the length. */
  function IpdTail(id: nat, len: nat, multiple: bool): seq<byte>
  {
    if multiple then Digits(id) + [','] + Digits(len) else Digits(len)
  }

  lemma IpdHeaderSplits(id: nat, len: nat, multiple: bool)
    ensures IpdHeader(id, len, multiple) == IPD_PREFIX + IpdTail(id, len, multiple)
    ensures forall k :: 0 <= k < |IpdTail(id, len, multiple)| ==> DigitOrComma(IpdTail(id, len, multiple)[k])
  {
    var t := IpdTail(id, len, multiple);
    if multiple {
      var di, dl := Digits(id), Digits(len);
      assert t == di + [','] + dl;
      forall k | 0 <= k < |t| ensures DigitOrComma(t[k]) {
        if k < |di| { assert t[k] == di[k]; } else if k > |di| { assert t[k] == dl[k - |di| - 1]; }
      }
    }
  }

  /** No "+IPD," ends inside or just after the digits and commas that follow one. */
  lemma NoIpdEndAfter(buf: seq<byte>, p: nat, k: nat)
    requires IpdEndsAt(buf, p + 4) && p + 4 < k < |buf|
    requires forall m :: p + 4 < m < |buf| ==> DigitOrComma(buf[m])
    ensures !IpdEndsAt(buf, k)
  {
    if k > p + 5 {
      assert DigitOrComma(buf[k - 1]);
    } else {
      assert buf[k - 1] == buf[p..p + 5][4];
    }
    assert k >= 4 ==> buf[k - 4..k + 1][3] == buf[k - 1];
  }

  /** The scan finds a "+IPD," that only digits and commas follow, at most 12 of them. */
  lemma FindIpdIn(buf: seq<byte>, p: nat)
    requires IpdEndsAt(buf, p + 4) && |buf| < p + 5 + MAX_CH_SEARCH
    requires forall m :: p + 4 < m < |buf| ==> DigitOrComma(buf[m])
    ensures FindIpd(buf) == Some(p)
  {
    forall k | p + 4 < k <= |buf| - 1
      ensures DigitOrComma(buf[k]) && !IpdEndsAt(buf, k)
    {
      NoIpdEndAfter(buf, p, k);
    }
    IpdScanFinds(buf, p, |buf| - 1, 0);
  }

  /** The scan finds "+IPD," followed by at most 12 digits and commas, whatever precedes it. */
  lemma FindIpdAfter(before: seq<byte>, t: seq<byte>)
    requires |t| < MAX_CH_SEARCH
    requires forall j :: 0 <= j < |t| ==> DigitOrComma(t[j])
    ensures FindIpd(before + IPD_PREFIX + t) == Some(|before|)
  {
    var buf := before + IPD_PREFIX + t;
    var p := |before|;
    assert buf[p..p + 5] == IPD_PREFIX;
    forall m | p + 4 < m < |buf| ensures DigitOrComma(buf[m]) {
      assert buf[m] == t[m - p - 5];
    }
    FindIpdIn(buf, p);
  }

  /**
   * process_ipd_msg finds the header the module sends, wherever it sits in
   * the buffer, provided the id, comma and length take at most 12 bytes.
   */
  lemma FindIpdOfHeader(before: seq<byte>, id: nat, len: nat, multiple: bool)
    requires |IpdTail(id, len, multiple)| < MAX_CH_SEARCH
    ensures FindIpd(before + IpdHeader(id, len, multiple)) == Some(|before|)
  {
    IpdHeaderSplits(id, len, multiple);
    assert before + IpdHeader(id, len, multiple) == before + IPD_PREFIX + IpdTail(id, len, multiple);
    FindIpdAfter(before, IpdTail(id, len, multiple));
  }

  /**
   * What process_ipd_msg extracts from the bytes buffered before a ':': the
   * index of the '+' of the header and the payload length at_sscanf
   * assigned; None when there is no header or the length is not assigned.
   */
  function IpdMessage(buf: seq<byte>, multiple: bool): (r: Option<(nat, nat)>)
    ensures r.Some? ==> r.value.0 + 5 <= |buf| && buf[r.value.0..r.value.0 + 5] == IPD_PREFIX
    ensures r.Some? ==> IsU32(r.value.1)
  {
    match FindIpd(buf)
    case None => None
    case Some(plus) =>
      match IpdLength(buf[plus..], multiple)
      case None => None
      case Some(len) => Some((plus, len))
  }

  /** Every header the module sends is recognised, wherever it sits, with the length it announces. */
  lemma IpdMessageOfHeader(before: seq<byte>, id: nat, len: nat, multiple: bool)
    requires id <= INT32_MAX && len <= INT32_MAX
    requires |IpdTail(id, len, multiple)| < MAX_CH_SEARCH
    ensures IpdMessage(before + IpdHeader(id, len, multiple), multiple) == Some((|before|, len))
  {
    var buf := before + IpdHeader(id, len, multiple);
    FindIpdOfHeader(before, id, len, multiple);
    assert buf[|before|..] == IpdHeader(id, len, multiple);
    IpdLengthOfHeader(id, len, multiple);
  }

  /**
   * The scan as written counts down a uint32_t index: it reads
   * result[i - k] for every k < 5 at a comma near the start of the buffer,
   * and after index 0 it reads index 0xFFFFFFFF. This is the index it reads
   * after scanning `step` bytes back from the end of a buffer of len bytes.
   */
  function IpdReadIndexAsWritten(len: nat, step: nat): nat
  {
    Wrap32(len - 1 - step)
  }

  /** Buffer ",5" (a ':' after it): the scan passes index 0 and reads far outside the buffer. */
  lemma IpdScanLeavesBuffer()
    ensures IpdReadIndexAsWritten(2, 2) == U32_MODULUS - 1
    ensures DigitOrComma(',') && DigitOrComma('5')
    ensures IpdScan(",5", 1, 0) == None
  {
  }

  /**
   * What process_ipd_msg sets result.len to as written: i - 2 with i the
   * index of the '+', which wraps when the header starts the buffer.
   */
  function IpdCutAsWritten(plus: nat): nat
  {
    Wrap32(plus - 2)
  }

  /** The "\r\n" before the header and everything after it are cut; nothing is left when the header starts the buffer. */
  function IpdCut(plus: nat): (r: nat)
    ensures r <= plus
    ensures plus >= 2 ==> r == plus - 2
  {
    if plus >= 2 then plus - 2 else 0
  }

  lemma IpdCutWraps()
    ensures IpdCutAsWritten(0) == U32_MODULUS - 2
    ensures forall p: nat :: 2 <= p < U32_MODULUS ==> IpdCutAsWritten(p) == IpdCut(p)
  {
  }

  /**
   * In multiplexed mode a single-connection header such as "+IPD,5" is
   * found, but at_sscanf gives up before it assigns the length, yet
   * process_ipd_msg reports success and at_callback uses its uninitialised
   * len.
   */
  lemma IpdLengthUnassigned(len: nat)
    requires len <= INT32_MAX
    ensures FindIpd(IpdHeader(0, len, false)) == Some(0)
    ensures IpdLength(IpdHeader(0, len, false), true) == None
  {
    DigitsLength(len, 10);
    assert [] + IpdHeader(0, len, false) == IpdHeader(0, len, false);
    FindIpdOfHeader([], 0, len, false);
    ScanSingleWithMultiple(len);
  }

  /** Counters of two or more are lowered by 2 when the header is cut off. */
  function LowerCounters(c: seq<nat>): (r: seq<nat>)
    requires ValidCounters(c)
    ensures ValidCounters(r)
  {
    seq(NB_RESPONSES, p requires 0 <= p < NB_RESPONSES => if c[p] >= 2 then c[p] - 2 else c[p])
  }
}
