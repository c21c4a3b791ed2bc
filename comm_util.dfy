// The chunked byte FIFO of the communication utilities (comm_util.c): a
// singly linked queue of received chunks, each tagged with the connection it
// came from, that readers drain by length or by line.

module CommUtil {
  import opened Common

  /** One queued chunk: the connection id and the bytes it holds. */
  datatype Chunk = Chunk(instanceId: int, bytes: seq<byte>)

  // ---------------------------------------------------------------------
  // The queue as a sequence of chunks
  // ---------------------------------------------------------------------

  /** All queued bytes, in queue order. */
  function Flatten(cs: seq<Chunk>): seq<byte>
  {
    if cs == [] then [] else Flatten(cs[..|cs| - 1]) + cs[|cs| - 1].bytes
  }

  /** The bytes of two runs of chunks are the bytes of the first, then those of the second. */
  lemma {:induction false} FlattenAppend(a: seq<Chunk>, b: seq<Chunk>)
    ensures Flatten(a + b) == Flatten(a) + Flatten(b)
    decreases |b|
  {
    if b == [] {
      assert a + b == a;
    } else {
      var b', last := b[..|b| - 1], b[|b| - 1];
      assert (a + b)[..|a + b| - 1] == a + b';
      assert (a + b)[|a + b| - 1] == last;
      calc {
        Flatten(a + b);
        Flatten(a + b') + last.bytes;
        { FlattenAppend(a, b'); }
        Flatten(a) + Flatten(b') + last.bytes;
        Flatten(a) + (Flatten(b') + last.bytes);
        Flatten(a) + Flatten(b);
      }
    }
  }

  /** A single chunk's bytes. */
  lemma FlattenOne(c: Chunk)
    ensures Flatten([c]) == c.bytes
  {
    assert [c][..0] == [];
  }

  /** Splitting the queue after k chunks splits its bytes. */
  lemma FlattenSplit(cs: seq<Chunk>, k: nat)
    requires k <= |cs|
    ensures Flatten(cs) == Flatten(cs[..k]) + Flatten(cs[k..])
  {
    assert cs == cs[..k] + cs[k..];
    FlattenAppend(cs[..k], cs[k..]);
  }

  /** One more chunk adds its bytes at the end. */
  lemma FlattenStep(cs: seq<Chunk>, k: nat)
    requires k < |cs|
    ensures Flatten(cs[..k + 1]) == Flatten(cs[..k]) + cs[k].bytes
  {
    assert cs[..k + 1][..k] == cs[..k];
  }

  /**
   * The number of whole chunks comm_read takes when the head is shorter than
   * the request: the fewest chunks, and at least k, whose bytes reach len.
   */
  function ChunksToReach(cs: seq<Chunk>, len: nat, k: nat): (r: nat)
    requires k <= |cs| && len <= |Flatten(cs)|
    ensures k <= r <= |cs| && len <= |Flatten(cs[..r])|
    decreases |cs| - k
  {
    if k == |cs| then
      assert cs[..k] == cs;
      k
    else if len <= |Flatten(cs[..k])| then k
    else ChunksToReach(cs, len, k + 1)
  }

  /** Every shorter run of at least k chunks falls short of len: the run comm_read takes is the fewest that reach it. */
  lemma {:induction false} ShortOfReach(cs: seq<Chunk>, len: nat, k: nat, j: nat)
    requires k <= |cs| && len <= |Flatten(cs)|
    requires k <= j < ChunksToReach(cs, len, k)
    ensures |Flatten(cs[..j])| < len
    decreases |cs| - k
  {
    if j > k {
      ShortOfReach(cs, len, k + 1, j);
    }
  }

  /** What comm_read takes from the queue and what it leaves there. */
  datatype ReadResult = ReadResult(taken: seq<byte>, rest: seq<Chunk>)

  /**
   * comm_read on the chunks: a head of exactly len bytes is taken whole; a
   * shorter head starts a run of whole chunks that stops once len bytes are
   * reached; a longer head gives up its first len bytes and keeps the others.
   */
  function Read(cs: seq<Chunk>, len: nat): (r: ReadResult)
    requires cs != [] && len <= |Flatten(cs)|
  {
    var head := cs[0];
    if |head.bytes| == len then ReadResult(head.bytes, cs[1..])
    else if |head.bytes| < len then
      var k := ChunksToReach(cs, len, 1);
      ReadResult(Flatten(cs[..k]), cs[k..])
    else ReadResult(head.bytes[..len], [Chunk(head.instanceId, head.bytes[len..])] + cs[1..])
  }

  /** comm_read neither loses nor reorders bytes: what it takes and what it leaves make up the queue. */
  lemma ReadConservesBytes(cs: seq<Chunk>, len: nat)
    requires cs != [] && len <= |Flatten(cs)|
    ensures Read(cs, len).taken + Flatten(Read(cs, len).rest) == Flatten(cs)
  {
    var head := cs[0];
    if |head.bytes| == len {
      HeadBytes(cs);
    } else if |head.bytes| < len {
      FlattenSplit(cs, ChunksToReach(cs, len, 1));
    } else {
      SplitHeadConservesBytes(cs, len);
    }
  }

  /** Taking the first len bytes of a longer head keeps the others at the front. */
  lemma SplitHeadConservesBytes(cs: seq<Chunk>, len: nat)
    requires cs != [] && len < |cs[0].bytes|
    ensures var h := cs[0];
            h.bytes[..len] + Flatten([Chunk(h.instanceId, h.bytes[len..])] + cs[1..]) == Flatten(cs)
  {
    var h := cs[0];
    var h' := Chunk(h.instanceId, h.bytes[len..]);
    HeadBytes(cs);
    FlattenAppend([h'], cs[1..]);
    FlattenOne(h');
    assert h.bytes == h.bytes[..len] + h.bytes[len..];
  }

  /** The queue's bytes are the head's bytes, then the rest's. */
  lemma HeadBytes(cs: seq<Chunk>)
    requires cs != []
    ensures Flatten(cs) == cs[0].bytes + Flatten(cs[1..])
    ensures Flatten(cs[..1]) == cs[0].bytes
  {
    FlattenSplit(cs, 1);
    assert cs[..1] == [cs[0]];
    FlattenOne(cs[0]);
  }

  /**
   * comm_read takes at least len bytes, exactly len unless the head is
   * shorter, and then only whole chunks, stopping at the first that reaches
   * len.
   */
  lemma ReadTakesEnough(cs: seq<Chunk>, len: nat)
    requires cs != [] && len <= |Flatten(cs)|
    ensures len <= |Read(cs, len).taken|
    ensures len <= |cs[0].bytes| ==> |Read(cs, len).taken| == len
    ensures len > |cs[0].bytes| ==>
              exists k :: 1 < k <= |cs| && Read(cs, len) == ReadResult(Flatten(cs[..k]), cs[k..])
                          && |Flatten(cs[..k - 1])| < len
  {
    if len > |cs[0].bytes| {
      var k := ChunksToReach(cs, len, 1);
      HeadBytes(cs);
      assert k != 1;
      ShortOfReach(cs, len, 1, k - 1);
      assert Read(cs, len) == ReadResult(Flatten(cs[..k]), cs[k..]);
    } else {
      assert Read(cs, len).taken == if |cs[0].bytes| == len then cs[0].bytes else cs[0].bytes[..len];
    }
  }

  // ---------------------------------------------------------------------
  // Lines
  // ---------------------------------------------------------------------

  /** Whether a "\r\n" starts at position i of s. */
  predicate CrlfAt(s: seq<byte>, i: nat)
  {
    i + 2 <= |s| && s[i] == '\r' && s[i + 1] == '\n'
  }

  /** The position of the first "\r\n" at or after position i. */
  function FindCrlfFrom(s: seq<byte>, i: nat): (r: Option<nat>)
    requires i <= |s|
    ensures r.Some? ==> i <= r.value && CrlfAt(s, r.value) && forall j :: i <= j < r.value ==> !CrlfAt(s, j)
    ensures r.None? ==> forall j :: i <= j < |s| ==> !CrlfAt(s, j)
    decreases |s| - i
  {
    if i + 2 > |s| then None
    else if CrlfAt(s, i) then Some(i)
    else FindCrlfFrom(s, i + 1)
  }

  /**
   * The position of the first "\r\n" within the bytes, as strstr finds it
   * when the search stays inside the chunk.
   */
  function FindCrlf(s: seq<byte>): (r: Option<nat>)
    ensures r.Some? ==> CrlfAt(s, r.value) && forall j :: 0 <= j < r.value ==> !CrlfAt(s, j)
    ensures r.None? ==> forall j :: 0 <= j < |s| ==> !CrlfAt(s, j)
  {
    FindCrlfFrom(s, 0)
  }

  /** The chunk's bytes after one leading "\r\n", which comm_read_line skips. */
  function SkipLeadingCrlf(d: seq<byte>): (r: seq<byte>)
    ensures CrlfAt(d, 0) ==> d == d[..2] + r && d[..2] == ['\r', '\n']
    ensures !CrlfAt(d, 0) ==> r == d
  {
    if FindCrlf(d) == Some(0) then d[2..] else d
  }

  /**
   * What comm_read_line does with the head chunk d: the returned length, the
   * bytes it writes at the start of buf, and the bytes the chunk keeps (None
   * when the chunk is dropped).
   */
  datatype LineResult = LineResult(length: nat, written: seq<byte>, kept: Option<seq<byte>>)

  /**
   * With a "\r\n" after the skipped one, the bytes before it are the line,
   * written NUL-terminated, and the chunk keeps what follows it unless that
   * is empty. Without one, the chunk is dropped and the length is 0: the
   * bytes copied into buf start at the chunk's first byte, NUL overwrites it,
   * and the copy is as long as the chunk after the skip.
   */
  function ReadLine(d: seq<byte>): (r: LineResult)
  {
    var data := SkipLeadingCrlf(d);
    match FindCrlf(data)
    case Some(k) =>
      LineResult(k, data[..k] + ['\0'], if k + 2 >= |data| then None else Some(data[k + 2..]))
    case None =>
      LineResult(0, if data == [] then ['\0'] else ['\0'] + d[1..|data|], None)
  }

  /** A "\r\n" at k cuts s into the bytes before it, the pair and the bytes after. */
  lemma CutAtCrlf(s: seq<byte>, k: nat)
    requires CrlfAt(s, k)
    ensures s == s[..k] + ['\r', '\n'] + s[k + 2..]
  {
    assert s[k..k + 2] == ['\r', '\n'];
    assert s == s[..k] + s[k..k + 2] + s[k + 2..];
  }

  /**
   * A line read is the chunk cut at its first "\r\n" (after the skipped
   * leading one): the skipped bytes, the line, the "\r\n" and the kept bytes
   * make up the chunk, and the line holds no "\r\n".
   */
  lemma ReadLineSplitsChunk(d: seq<byte>)
    requires FindCrlf(SkipLeadingCrlf(d)).Some?
    ensures var r := ReadLine(d);
            var skipped := if CrlfAt(d, 0) then ['\r', '\n'] else [];
            var kept := if r.kept.Some? then r.kept.value else [];
            && r.written == r.written[..r.length] + ['\0']
            && d == skipped + r.written[..r.length] + ['\r', '\n'] + kept
            && forall j :: 0 <= j + 1 < r.length ==> !CrlfAt(r.written[..r.length], j)
  {
    var data := SkipLeadingCrlf(d);
    var k := FindCrlf(data).value;
    var line := data[..k];
    var r := ReadLine(d);
    var skipped: seq<byte> := if CrlfAt(d, 0) then ['\r', '\n'] else [];
    var kept := if r.kept.Some? then r.kept.value else [];
    assert r == LineResult(k, line + ['\0'], if k + 2 >= |data| then None else Some(data[k + 2..]));
    assert r.written[..r.length] == line;
    assert kept == data[k + 2..];
    CutAtCrlf(data, k);
    assert d == skipped + data;
    AppendAssoc(skipped + line, ['\r', '\n'], kept);
    AppendAssoc(skipped, line, ['\r', '\n'] + kept);
    AppendAssoc(line, ['\r', '\n'], kept);
    forall j | 0 <= j + 1 < k
      ensures !CrlfAt(line, j)
    {
      assert !CrlfAt(data, j);
    }
  }

  /** A chunk with no further "\r\n" is dropped and yields an empty line. */
  lemma ReadLineWithoutCrlf(d: seq<byte>)
    requires FindCrlf(SkipLeadingCrlf(d)).None?
    ensures ReadLine(d).length == 0 && ReadLine(d).kept.None?
    ensures ReadLine(d).written[0] == '\0'
    ensures |ReadLine(d).written| == if SkipLeadingCrlf(d) == [] then 1 else |SkipLeadingCrlf(d)|
  {
  }

  // ---------------------------------------------------------------------
  // The linked queue
  // ---------------------------------------------------------------------

  /** struct fifo: one node of the queue, holding len bytes of data. */
  class FifoNode {
    var instanceId: int
    var len: int
    var data: seq<byte>
    var next: FifoNode?
    /** The node's place in the order of insertion into its queue. */
    ghost var ord: int

    /** A node as new_buffer leaves it: empty, unlinked, with no data. */
    constructor()
      ensures len == 0 && data == [] && next == null
    {
      len := 0;
      data := [];
      next := null;
    }
  }

  /**
   * The queue a reader and the receive callback share: the head pointer that
   * the functions take as struct fifo **, and the nodes it reaches.
   */
  class ChunkFifo {
    var head: FifoNode?
    ghost var nodes: seq<FifoNode>
    /** The chunks queued, head first: each node's id and data. */
    ghost var chunks: seq<Chunk>
    /** Every node this queue has linked, including those since dropped. */
    ghost var Repr: set<FifoNode>
    /** The insertion place of the head node: the i-th node is base + i. */
    ghost var base: int

    /**
     * The nodes form a NULL-terminated chain from the head, without repeats
     * as their insertion places follow each other, each node is in Repr and
     * its len is the length of its data, and chunks lists the nodes' ids and
     * data.
     */
    ghost predicate Valid()
      reads this, nodes
    {
      && (head == null <==> nodes == [])
      && (nodes != [] ==> head == nodes[0] && nodes[|nodes| - 1].next == null)
      && (forall i :: 0 <= i < |nodes| - 1 ==> nodes[i].next == nodes[i + 1])
      && (forall i :: 0 <= i < |nodes| ==> nodes[i] in Repr && nodes[i].ord == base + i && nodes[i].len == |nodes[i].data|)
      && |chunks| == |nodes|
      && (forall i :: 0 <= i < |nodes| ==> chunks[i] == Chunk(nodes[i].instanceId, nodes[i].data))
    }

    /** The chunks queued, head first. */
    ghost function Chunks(): seq<Chunk>
      reads this
    {
      chunks
    }

    /** An empty queue: a NULL head pointer. */
    constructor()
      ensures Valid() && Chunks() == []
    {
      head := null;
      nodes := [];
      chunks := [];
      Repr := {};
      base := 0;
    }

    /** get_last: walk the next pointers from the head to the last node, or NULL for an empty queue. */
    method GetLast() returns (last: FifoNode?)
      requires Valid()
      ensures nodes == [] ==> last == null
      ensures nodes != [] ==> last == nodes[|nodes| - 1]
    {
      if head == null {
        return null;
      }
      var p := head;
      ghost var i := 0;
      while p.next != null
        invariant 0 <= i < |nodes| && p == nodes[i]
        invariant i < |nodes| - 1 ==> p.next == nodes[i + 1]
        decreases |nodes| - i
      {
        p := p.next;
        i := i + 1;
      }
      return p;
    }

    /**
     * fifo_insert_tail: append a node holding a copy of the first len bytes of
     * buff and the connection id. nodeAllocated and dataAllocated are whether
     * the node's and the data's mallocs succeed. A node that cannot be
     * allocated leaves the queue as it was; data that cannot be allocated
     * leaves the new node linked, empty, with the id set.
     */
    method InsertTail(buff: array<byte>, len: nat, id: int, nodeAllocated: bool, dataAllocated: bool)
      returns (ret: int)
      requires Valid() && len <= buff.Length
      modifies this, nodes
      ensures Valid()
      ensures forall n :: n in nodes ==> n in old(nodes) || fresh(n)
      ensures !nodeAllocated ==> ret == -ENOMEM && Chunks() == old(Chunks())
      ensures nodeAllocated && !dataAllocated ==> ret == -ENOMEM && Chunks() == old(Chunks()) + [Chunk(id, [])]
      ensures nodeAllocated && dataAllocated ==> ret == 0 && Chunks() == old(Chunks()) + [Chunk(id, buff[..len])]
    {
      if !nodeAllocated {
        return -ENOMEM;
      }
      // The new node's fields are filled before it is linked: nothing reads
      // the queue in between, as the source masks interrupts meanwhile.
      var p := new FifoNode();
      p.instanceId := id;
      p.ord := base + |nodes|;
      if dataAllocated {
        p.data := buff[..len];
        p.len := len;
      }
      Append(p);
      ret := if dataAllocated then 0 else -ENOMEM;
    }

    /** Link a new node after the last one found by get_last, or make it the head of an empty queue. */
    method Append(p: FifoNode)
      requires Valid() && p.ord == base + |nodes| && p.next == null && p.len == |p.data|
      modifies this, if nodes == [] then {} else {nodes[|nodes| - 1]}
      ensures Valid() && nodes == old(nodes) + [p]
      ensures Chunks() == old(Chunks()) + [Chunk(p.instanceId, p.data)]
    {
      var last := GetLast();
      if last == null {
        head := p;
      } else {
        last.next := p;
      }
      nodes := nodes + [p];
      Repr := Repr + {p};
      chunks := chunks + [Chunk(p.instanceId, p.data)];
    }

    /**
     * fifo_remove_head, with its result stored back as the head: the head
     * node is cleared and leaves the queue, and the next node becomes the
     * head. An empty queue stays empty.
     */
    method RemoveHead()
      requires Valid()
      modifies this, if head == null then {} else {head}
      ensures Valid() && Repr == old(Repr)
      ensures old(nodes) == [] ==> nodes == [] && Chunks() == []
      ensures old(nodes) != [] ==> nodes == old(nodes[1..]) && Chunks() == old(Chunks()[1..])
    {
      if head != null {
        var p := head;
        ghost var rest := nodes[1..];
        assert forall k :: 0 <= k < |rest| ==> rest[k] == nodes[k + 1] && rest[k] != p;
        assert rest != [] ==> p.next == rest[0];
        head := p.next;
        p.len := 0;
        p.next := null;
        p.data := [];
        nodes := nodes[1..];
        chunks := chunks[1..];
        base := base + 1;
      }
    }
  
    /**
     * The head node keeps only the given bytes, as comm_read and
     * comm_read_line leave it after taking bytes from its front: len becomes
     * their count and data a fresh copy of them.
     */
    method KeepHeadBytes(remaining: seq<byte>)
      requires Valid() && nodes != []
      modifies this, nodes[0]
      ensures Valid() && nodes == old(nodes)
      ensures Chunks() == [Chunk(old(nodes[0].instanceId), remaining)] + old(Chunks()[1..])
    {
      assert forall i :: 1 <= i < |nodes| ==> nodes[i].ord != head.ord;
      head.len := |remaining|;
      head.data := remaining;
      chunks := [Chunk(head.instanceId, remaining)] + chunks[1..];
      assert forall i :: 1 <= i < |nodes| ==> chunks[i] == old(chunks[i]) && nodes[i].data == old(nodes[i].data);
    }

    /**
     * comm_read_line: take one "\r\n"-terminated line from the head chunk
     * (ReadLine). The busy wait for a non-empty queue is the precondition
     * that the queue has a head; buf must hold what is written, as the
     * source ignores its len argument.
     */
    method CommReadLine(buf: array<byte>) returns (length: int, instanceId: int)
      requires Valid() && nodes != []
      requires |ReadLine(Chunks()[0].bytes).written| <= buf.Length
      modifies this, nodes, buf
      ensures Valid()
      ensures instanceId == old(Chunks()[0].instanceId)
      ensures var r := ReadLine(old(Chunks()[0].bytes));
              && length == r.length
              && buf[..] == r.written + old(buf[..])[|r.written|..]
              && Chunks() == (if r.kept.Some? then [Chunk(instanceId, r.kept.value)] else []) + old(Chunks()[1..])
    {
      instanceId := head.instanceId;
      var d := head.data;
      var keptFrom;
      length, keptFrom := CopyLine(buf, d);
      match keptFrom
      case None =>
        RemoveHead();
      case Some(i) =>
        KeepHeadBytes(d[i..]);
    }

    /**
     * comm_read: copy len bytes from the queue into buf and drop what was
     * taken (Read). The busy wait for a non-empty queue is the precondition
     * that the queue holds at least len bytes; the connection id is that of
     * the head chunk.
     */
    method CommRead(buf: array<byte>, len: nat) returns (tempLen: int, instanceId: int)
      requires Valid() && nodes != [] && len <= |Flatten(Chunks())|
      requires |Read(Chunks(), len).taken| <= buf.Length
      modifies this, Repr, buf
      ensures Valid()
      ensures instanceId == old(Chunks()[0].instanceId)
      ensures var r := Read(old(Chunks()), len);
              && tempLen == |r.taken|
              && buf[..] == r.taken + old(buf[|r.taken|..])
              && Chunks() == r.rest
    {
      ghost var cs := Chunks();
      ghost var b0 := buf[..];
      instanceId := head.instanceId;
      if head.len == len {
        assert Read(cs, len) == ReadResult(cs[0].bytes, cs[1..]);
        CopyBytes(buf, 0, head.data);
        assert buf[..] == cs[0].bytes + b0[len..];
        RemoveHead();
        tempLen := len;
      } else if head.len < len {
        tempLen := ReadWholeChunks(buf, len);
      } else {
        var d := head.data;
        assert Read(cs, len) == ReadResult(d[..len], [Chunk(instanceId, d[len..])] + cs[1..]);
        CopyBytes(buf, 0, d[..len]);
        assert buf[..] == d[..len] + b0[len..];
        KeepHeadBytes(d[len..]);
        tempLen := len;
      }
    }

    /**
     * The loop of comm_read for a head shorter than len: copy whole chunks
     * one after the other, dropping each, until at least len bytes are
     * taken. The source re-tests the head pointer in each round, which is
     * never NULL here as the queue holds at least len bytes.
     */
    method ReadWholeChunks(buf: array<byte>, len: nat) returns (tempLen: int)
      requires Valid() && nodes != [] && |Chunks()[0].bytes| < len <= |Flatten(Chunks())|
      requires |Flatten(Chunks()[..ChunksToReach(Chunks(), len, 1)])| <= buf.Length
      modifies this, Repr, buf
      ensures Valid()
      ensures var cs := old(Chunks());
              var k := ChunksToReach(cs, len, 1);
              && tempLen == |Flatten(cs[..k])|
              && buf[..] == Flatten(cs[..k]) + old(buf[tempLen..])
              && Chunks() == cs[k..]
    {
      ghost var cs := Chunks();
      ghost var k := ChunksToReach(cs, len, 1);
      ghost var b0 := buf[..];
      ghost var taken := 0;
      assert cs[..0] == [] && cs[0..] == cs;
      tempLen := 0;
      var pbuf: nat := 0;
      while tempLen < len
        invariant Reading(buf, pbuf, len, cs, k, taken, b0) && Repr == old(Repr) && tempLen == pbuf
        decreases k - taken
      {
        var n := ReadRound(buf, pbuf, len, cs, k, taken, b0);
        pbuf := pbuf + n;
        tempLen := tempLen + n;
        taken := taken + 1;
      }
      Rejoin(buf[..], pbuf, Flatten(cs[..k]), b0[pbuf..]);
    }

    /**
     * Where ReadWholeChunks's loop stands after taken whole chunks of cs:
     * their bytes fill buf up to pbuf, the rest of buf is as it was (b0),
     * the queue holds the chunks not yet taken, and pbuf falls short of len
     * exactly while fewer than k chunks are taken.
     */
    ghost predicate Reading(buf: array<byte>, pbuf: nat, len: nat, cs: seq<Chunk>, k: nat, taken: nat, b0: seq<byte>)
      reads this, nodes, buf
    {
      && Valid() && 1 <= |cs| && len <= |Flatten(cs)| && k == ChunksToReach(cs, len, 1)
      && taken <= k && |Flatten(cs[..k])| <= buf.Length == |b0|
      && pbuf == |Flatten(cs[..taken])| <= buf.Length && buf[..pbuf] == Flatten(cs[..taken]) && buf[pbuf..] == b0[pbuf..]
      && Chunks() == cs[taken..]
      && (pbuf < len <==> taken < k)
    }

    /**
     * One round of ReadWholeChunks's loop: the next chunk is copied after
     * the ones taken and dropped, and the loop test then says whether more
     * are needed.
     */
    method ReadRound(buf: array<byte>, pbuf: nat, len: nat, ghost cs: seq<Chunk>, ghost k: nat,
                     ghost taken: nat, ghost b0: seq<byte>) returns (n: nat)
      requires Reading(buf, pbuf, len, cs, k, taken, b0) && taken < k
      modifies this, nodes[0], buf
      ensures Reading(buf, pbuf + n, len, cs, k, taken + 1, b0) && Repr == old(Repr)
    {
      FlattenStep(cs, taken);
      FlattenPrefixGrows(cs, taken + 1, k);
      ReachedAt(cs, len, taken + 1);
      ghost var before := buf[..];
      n := TakeHead(buf, pbuf, cs[taken].bytes);
      assert buf[..] == before[..pbuf] + cs[taken].bytes + before[pbuf + n..];
      assert buf[..pbuf + n] == Flatten(cs[..taken]) + cs[taken].bytes;
      SuffixesAgree(before, b0, pbuf, pbuf + n);
      assert cs[taken + 1..] == old(Chunks()[1..]);
    }

    /** One round of comm_read's loop: copy the head chunk, whose bytes are chunk, into buf at offset at and drop it. */
    method TakeHead(buf: array<byte>, at: nat, ghost chunk: seq<byte>) returns (n: nat)
      requires Valid() && nodes != [] && Chunks()[0].bytes == chunk && at + |chunk| <= buf.Length
      modifies this, nodes[0], buf
      ensures Valid() && Repr == old(Repr) && Chunks() == old(Chunks()[1..])
      ensures n == |chunk|
      ensures buf[..] == old(buf[..at]) + chunk + old(buf[at + n..])
    {
      CopyBytes(buf, at, head.data);
      n := head.len;
      RemoveHead();
    }
  }

  /** A sequence is its first i elements followed by the rest. */
  lemma Rejoin(s: seq<byte>, i: nat, front: seq<byte>, back: seq<byte>)
    requires i <= |s| && s[..i] == front && s[i..] == back
    ensures s == front + back
  {
    assert s == s[..i] + s[i..];
  }

  /** A run of j chunks, 1 <= j, falls short of len exactly when it is shorter than comm_read's run. */
  lemma ReachedAt(cs: seq<Chunk>, len: nat, j: nat)
    requires 1 <= j <= |cs| && len <= |Flatten(cs)|
    ensures |Flatten(cs[..j])| < len <==> j < ChunksToReach(cs, len, 1)
  {
    var k := ChunksToReach(cs, len, 1);
    if k <= j {
      FlattenPrefixGrows(cs, k, j);
    } else {
      ShortOfReach(cs, len, 1, j);
    }
  }

  /** The prefixes of the queue hold more bytes the longer they are. */
  lemma FlattenPrefixGrows(cs: seq<Chunk>, i: nat, j: nat)
    requires i <= j <= |cs|
    ensures |Flatten(cs[..i])| <= |Flatten(cs[..j])|
  {
    FlattenSplit(cs[..j], i);
    assert cs[..j][..i] == cs[..i];
  }

  /** Two byte strings that agree from i on agree from any later j on. */
  lemma SuffixesAgree(s: seq<byte>, t: seq<byte>, i: nat, j: nat)
    requires i <= j <= |s| == |t| && s[i..] == t[i..]
    ensures s[j..] == t[j..]
  {
    assert s[j..] == s[i..][j - i..];
    assert t[j..] == t[i..][j - i..];
  }

  /**
   * The part of comm_read_line that reads the head chunk d and writes buf:
   * skip a leading "\r\n", find the next one, copy the line and terminate
   * it, and say from which position the chunk keeps its bytes (None when
   * the source drops the chunk).
   */
  method CopyLine(buf: array<byte>, d: seq<byte>) returns (length: nat, keptFrom: Option<nat>)
    requires |ReadLine(d).written| <= buf.Length
    modifies buf
    ensures length == ReadLine(d).length
    ensures buf[..] == ReadLine(d).written + old(buf[..])[|ReadLine(d).written|..]
    ensures keptFrom.Some? <==> ReadLine(d).kept.Some?
    ensures keptFrom.Some? ==> keptFrom.value <= |d| && d[keptFrom.value..] == ReadLine(d).kept.value
  {
    // The source lowers the node's len by 2 when it skips a leading
    // "\r\n"; the node is then either dropped or given a new len, so the
    // lowered value lives in nodeLen only.
    var nodeLen := |d|;
    var start := 0;
    var end := FindCrlf(d);
    if end == Some(0) {
      nodeLen := nodeLen - 2;
      start := 2;
      end := FindCrlf(d[2..]);
    }
    var data := d[start..];
    assert data == SkipLeadingCrlf(d) && nodeLen == |data| && end == FindCrlf(data);
    ghost var r := ReadLine(d);
    match end
    case Some(k) =>
      assert r == LineResult(k, data[..k] + ['\0'], if k + 2 >= |data| then None else Some(data[k + 2..]));
      length := k;
      assert d[start..start + k] == data[..k];
      WriteLine(buf, data[..k]);
      if length + 2 >= nodeLen {
        keptFrom := None;
      } else {
        keptFrom := Some(start + k + 2);
        assert d[start + k + 2..] == data[k + 2..];
      }
    case None =>
      length := 0;
      if nodeLen != 0 {
        assert d[..nodeLen][1..] == d[1..nodeLen];
      }
      WriteEmptyLine(buf, d[..nodeLen]);
      keptFrom := None;
  }

  /** The line found: memcpy it to the start of buf and put a NUL after it. */
  method WriteLine(buf: array<byte>, line: seq<byte>)
    requires |line| < buf.Length
    modifies buf
    ensures buf[..] == line + ['\0'] + old(buf[..])[|line| + 1..]
  {
    ghost var b0 := buf[..];
    CopyBytes(buf, 0, line);
    assert b0[..0] == [];
    PutNul(buf, |line|, line, b0);
  }

  /**
   * No line found: memcpy the whole chunk to the start of buf, then put a
   * NUL at buf[0] (buf[length] with length 0) over its first byte.
   */
  method WriteEmptyLine(buf: array<byte>, chunk: seq<byte>)
    requires |chunk| <= buf.Length && 1 <= buf.Length
    modifies buf
    ensures chunk == [] ==> buf[..] == ['\0'] + old(buf[..])[1..]
    ensures chunk != [] ==> buf[..] == ['\0'] + chunk[1..] + old(buf[..])[|chunk|..]
  {
    ghost var b0 := buf[..];
    CopyBytes(buf, 0, chunk);
    ghost var copied := buf[..];
    buf[0] := '\0';
    EmptyLineShape(chunk, b0, copied, buf[..]);
  }

  /** The buffer after the copy and the NUL, in terms of the chunk and the earlier contents. */
  lemma EmptyLineShape(chunk: seq<byte>, b0: seq<byte>, copied: seq<byte>, after: seq<byte>)
    requires |chunk| <= |b0| && 1 <= |b0|
    requires copied == b0[..0] + chunk + b0[|chunk|..]
    requires after == copied[0 := '\0']
    ensures chunk == [] ==> after == ['\0'] + b0[1..]
    ensures chunk != [] ==> after == ['\0'] + chunk[1..] + b0[|chunk|..]
  {
    assert after == ['\0'] + copied[1..];
    if chunk != [] {
      assert copied[1..] == chunk[1..] + b0[|chunk|..];
    } else {
      assert copied == b0;
    }
  }

  /** buf[at] = '\0' after the bytes line, with rest the earlier contents of buf behind them. */
  method PutNul(buf: array<byte>, at: nat, ghost line: seq<byte>, ghost rest: seq<byte>)
    requires at == |line| < buf.Length == |rest| && buf[..] == line + rest[at..]
    modifies buf
    ensures buf[..] == line + ['\0'] + rest[at + 1..]
  {
    buf[at] := '\0';
    assert rest[at..] == [rest[at]] + rest[at + 1..];
  }

  /** memcpy of the bytes src into buf at offset at. */
  method CopyBytes(buf: array<byte>, at: nat, src: seq<byte>)
    requires at + |src| <= buf.Length
    modifies buf
    ensures buf[..] == old(buf[..at]) + src + old(buf[at + |src|..])
  {
    forall k | 0 <= k < |src| {
      buf[at + k] := src[k];
    }
  }
}
