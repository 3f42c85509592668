/** What every reachable state of the ring keeps, and what follows for whole runs. */
module RingSafety {
  import opened Bits
  import opened Records
  import opened RingMachine

  /** Everything the kernel has written or is about to write, by stream position. */
  function Written(s: State): seq<byte>
  {
    Flatten(s.hist.committed) + s.ring.pend
  }

  /** The record at position p reaches or crosses the ring end. */
  predicate Touches(k: nat, p: nat, size: nat)
  {
    Slot(k, p) + size >= Pow2(k)
  }

  /** Record i of c would fit the copy buffer if it has to go there. */
  predicate CopySafe(k: nat, c: seq<Record>, i: nat)
    requires i < |c|
  {
    Touches(k, Start(c, i), |c[i]|) ==> |c[i]| <= PERF_SAMPLE_MAX_SIZE
  }

  /** The pointer `read` has to return for record i. */
  function RefFor(k: nat, c: seq<Record>, i: nat): Ref
    requires i < |c|
  {
    var p := Start(c, i);
    if Touches(k, p, |c[i]|) then InCopy(|c[i]|) else InPlace(Slot(k, p), |c[i]|)
  }

  /** The three positions stand at record boundaries, in order, at most one lap apart. */
  ghost predicate Positions(k: nat, s: State)
  {
    var r, h := s.ring, s.hist;
    && h.delivered <= h.committed
    && h.freed <= |h.delivered|
    && r.head == |Flatten(h.committed)|
    && r.prev == |Flatten(h.delivered)|
    && r.tail == Start(h.delivered, h.freed)
    && r.tail <= r.prev <= r.head
    && r.done <= |r.pend|
    && r.head + |r.pend| <= r.tail + Pow2(k)
    && (r.pend == [] || WellFormed(r.pend))
    && (forall record :: record in h.committed ==> WellFormed(record))
  }

  /** Stream positions lo..hi of `bytes` lie in the ring, each at its slot. */
  ghost predicate Holds(k: nat, mem: seq<byte>, lo: nat, hi: nat, bytes: seq<byte>)
    requires |mem| == Pow2(k) && hi <= |bytes|
  {
    forall p :: lo <= p < hi ==> mem[Slot(k, p)] == bytes[p]
  }

  /** Nothing between the tail and the write position has been overwritten. */
  ghost predicate Contents(k: nat, s: State)
    requires Shape(k, s.ring) && Positions(k, s)
  {
    Holds(k, s.ring.mem, s.ring.tail, s.ring.head + s.ring.done, Written(s))
  }

  /** The pointer handed out for record i of c, where `live` starts at record `freed`, is
      the right one, and the copy buffer still holds the record if it points there. */
  predicate IsLive(k: nat, copy: seq<byte>, c: seq<Record>, freed: nat, live: seq<Ref>, i: nat)
    requires freed <= i < |c| && |live| == |c| - freed
  {
    && live[i - freed] == RefFor(k, c, i)
    && (live[i - freed].InCopy? ==> c[i] <= copy)
  }

  /** The pointers handed out since the last null result. */
  ghost predicate LiveRefs(k: nat, copy: seq<byte>, h: History)
  {
    && h.freed <= |h.delivered|
    && |h.live| == |h.delivered| - h.freed
    && (forall i :: 0 <= i < |h.delivered| ==> CopySafe(k, h.delivered, i))
    && (forall i :: h.freed <= i < |h.delivered| ==> IsLive(k, copy, h.delivered, h.freed, h.live, i))
  }

  /** The local variables of `read` in progress. */
  ghost predicate Locals(k: nat, prev: nat, head: nat, copy: seq<byte>, pc: Pc, h: History)
  {
    var n := |h.delivered|;
    match pc
    case Idle => true
    case Loaded(seen) => prev <= seen <= head
    case Sized(size) => n < |h.committed| && size == |h.committed[n]|
    case Copying(size, offset, dst, len, i) =>
      && n < |h.committed| && size == |h.committed[n]|
      && Touches(k, prev, size)
      && offset == prev + dst && dst + len == size && len > 0
      && i <= ChunkLength(k, offset, len)
      && dst + i <= PERF_SAMPLE_MAX_SIZE == |copy|
      && copy[..dst + i] == h.committed[n][..dst + i]
      && (dst == 0 || Slot(k, offset) == 0)
    case Fault =>
      n < |h.committed| && !CopySafe(k, h.committed, n)
  }

  ghost predicate Inv(k: nat, s: State)
  {
    && k >= 3
    && Shape(k, s.ring)
    && Positions(k, s)
    && Contents(k, s)
    && LiveRefs(k, s.ring.copy, s.hist)
    && Locals(k, s.ring.prev, s.ring.head, s.ring.copy, s.ring.pc, s.hist)
  }

  lemma InitialInv(k: nat, s: State)
    requires k >= 3 && Initial(k, s)
    ensures Inv(k, s)
  {
  }

  // ---- geometry ----

  /** Moving d forward inside one lap. */
  lemma SlotStep(k: nat, p: nat, d: nat)
    requires Slot(k, p) + d < Pow2(k)
    ensures Slot(k, p + d) == Slot(k, p) + d
  {
    AndMask(p, k);
    AndMask(p + d, k);
    ModStep(p, d, Pow2(k));
  }

  /** Moving d forward across the ring end once. */
  lemma SlotWrap(k: nat, p: nat, d: nat)
    requires Pow2(k) <= Slot(k, p) + d < 2 * Pow2(k)
    ensures Slot(k, p + d) == Slot(k, p) + d - Pow2(k)
  {
    AndMask(p, k);
    AndMask(p + d, k);
    ModWrap(p, d, Pow2(k));
  }

  /** Two positions less than a lap apart have different slots. */
  lemma SlotDistinct(k: nat, p: nat, q: nat)
    requires p < q < p + Pow2(k)
    ensures Slot(k, p) != Slot(k, q)
  {
    AndMask(p, k);
    AndMask(q, k);
    ModDistinct(p, q, Pow2(k));
  }

  /** The wrap test of the code holds exactly for the records that reach the ring end,
      the exact fit included. */
  lemma WrapTest(k: nat, p: nat, size: nat)
    requires 1 <= size <= Pow2(k)
    ensures Wraps(Unbounded, k, p, size) <==> Touches(k, p, size)
  {
    if Touches(k, p, size) {
      SlotWrap(k, p, size);
    } else {
      SlotStep(k, p, size);
    }
  }

  /** Inside one lap that starts at t only one record can touch the ring end. */
  lemma TouchOnce(k: nat, t: nat, p1: nat, n1: nat, p2: nat, n2: nat)
    requires t <= p1 && p1 + n1 <= p2 && p2 + n2 <= t + Pow2(k)
    ensures !(Touches(k, p1, n1) && Touches(k, p2, n2))
  {
    if Touches(k, p1, n1) {
      // The lap boundary b lies in (p1, p1 + n1]; p2 comes after it and p2 + n2 before the next.
      var b := p1 + (Pow2(k) - Slot(k, p1));
      SlotWrap(k, p1, Pow2(k) - Slot(k, p1));
      SlotStep(k, b, p2 - b);
    }
  }

  lemma CapacityAligned(k: nat)
    requires k >= 3
    ensures Pow2(k) == 8 * Pow2(k - 3)
  {
    assert Pow2(k) == 2 * Pow2(k - 1) && Pow2(k - 1) == 2 * Pow2(k - 2);
  }

  lemma SlotAligned(k: nat, p: nat)
    requires k >= 3
    ensures Slot(k, p) % 8 == p % 8
  {
    AndMask(p, k);
    CapacityAligned(k);
    ModOfMod(p, 8, Pow2(k - 3));
  }

  /** With 8-aligned positions the 8-byte header never straddles the ring end. */
  lemma HeaderFits(k: nat, p: nat)
    requires k >= 3 && p % 8 == 0
    ensures Slot(k, p) % 8 == 0 && Slot(k, p) + HEADER_SIZE <= Pow2(k)
  {
    SlotAligned(k, p);
    CapacityAligned(k);
  }

  // ---- records in the ring ----

  /** The next unread record and where it lies. */
  lemma NextRecord(k: nat, s: State)
    requires k >= 3 && Shape(k, s.ring) && Positions(k, s)
    requires |s.hist.delivered| < |s.hist.committed|
    ensures var n, c := |s.hist.delivered|, s.hist.committed;
      && WellFormed(c[n]) && Start(c, n) == s.ring.prev
      && s.ring.prev + |c[n]| <= s.ring.head <= s.ring.tail + Pow2(k)
      && Written(s)[s.ring.prev..s.ring.prev + |c[n]|] == c[n]
      && s.ring.prev % 8 == 0
  {
    var n, c := |s.hist.delivered|, s.hist.committed;
    assert c[n] in c;
    assert c[..n] == s.hist.delivered;
    FlattenAt(c, n);
    FlattenAligned(s.hist.delivered);
  }

  /** A stretch of positions that stays on one lap is a stretch of the ring. */
  lemma RingSlice(k: nat, mem: seq<byte>, lo: nat, hi: nat, bytes: seq<byte>, p: nat, n: nat)
    requires |mem| == Pow2(k) && hi <= |bytes| && Holds(k, mem, lo, hi, bytes)
    requires lo <= p && p + n <= hi && Slot(k, p) + n <= Pow2(k)
    ensures mem[Slot(k, p)..Slot(k, p) + n] == bytes[p..p + n]
  {
    var got, want := mem[Slot(k, p)..Slot(k, p) + n], bytes[p..p + n];
    forall i | 0 <= i < n
      ensures got[i] == want[i]
    {
      SlotStep(k, p, i);
      assert mem[Slot(k, p + i)] == bytes[p + i];
    }
  }

  lemma SliceOfSlice(s: seq<byte>, p: nat, m: nat, from: nat, n: nat)
    requires p + m <= |s| && from + n <= m
    ensures s[p..p + m][from..from + n] == s[p + from..p + from + n]
  {
    var a, b := s[p..p + m][from..from + n], s[p + from..p + from + n];
    assert forall i :: 0 <= i < n ==> a[i] == b[i];
  }

  lemma NextBytes(k: nat, s: State, from: nat, n: nat)
    requires k >= 3 && Shape(k, s.ring) && Positions(k, s)
    requires |s.hist.delivered| < |s.hist.committed|
    requires from + n <= |s.hist.committed[|s.hist.delivered|]|
    ensures s.ring.prev + from + n <= s.ring.head
    ensures Written(s)[s.ring.prev + from..s.ring.prev + from + n]
         == s.hist.committed[|s.hist.delivered|][from..from + n]
  {
    NextRecord(k, s);
    SliceOfSlice(Written(s), s.ring.prev, |s.hist.committed[|s.hist.delivered|]|, from, n);
  }

  /** The same inside the next unread record. */
  lemma NextSlice(k: nat, s: State, from: nat, n: nat)
    requires k >= 3 && Shape(k, s.ring) && Positions(k, s) && Contents(k, s)
    requires |s.hist.delivered| < |s.hist.committed|
    requires from + n <= |s.hist.committed[|s.hist.delivered|]|
    requires Slot(k, s.ring.prev + from) + n <= Pow2(k)
    ensures var at := Slot(k, s.ring.prev + from);
      s.ring.mem[at..at + n] == s.hist.committed[|s.hist.delivered|][from..from + n]
  {
    NextBytes(k, s, from, n);
    RingSlice(k, s.ring.mem, s.ring.tail, s.ring.head + s.ring.done, Written(s), s.ring.prev + from, n);
  }

  // ---- the producer's steps ----

  lemma ReserveKeeps(k: nat, s: State, record: Record)
    requires Inv(k, s)
    ensures Inv(k, Step(Unbounded, k, s, Reserve(record)))
  {
    var s' := Step(Unbounded, k, s, Reserve(record));
    if s.ring.pend == [] {
      assert s.ring.done == 0;
      assert Written(s) == Flatten(s.hist.committed);
      assert Flatten(s.hist.committed) <= Written(s');
    }
  }

  /** Writing at position q leaves everything written less than a lap before q. */
  lemma HoldsExtend(k: nat, mem: seq<byte>, lo: nat, q: nat, bytes: seq<byte>)
    requires |mem| == Pow2(k) && lo <= q < |bytes| && q < lo + Pow2(k)
    requires Holds(k, mem, lo, q, bytes)
    ensures Holds(k, mem[Slot(k, q) := bytes[q]], lo, q + 1, bytes)
  {
    var mem' := mem[Slot(k, q) := bytes[q]];
    forall p | lo <= p < q + 1
      ensures mem'[Slot(k, p)] == bytes[p]
    {
      if p != q {
        SlotDistinct(k, p, q);
        assert mem[Slot(k, p)] == bytes[p];
      }
    }
  }

  lemma WriteKeeps(k: nat, s: State)
    requires Inv(k, s)
    ensures Inv(k, Step(Unbounded, k, s, WriteByte))
  {
    if s.ring.done < |s.ring.pend| {
      HoldsExtend(k, s.ring.mem, s.ring.tail, s.ring.head + s.ring.done, Written(s));
    }
  }

  lemma PublishKeeps(k: nat, s: State)
    requires Inv(k, s)
    ensures Inv(k, Step(Unbounded, k, s, Publish))
  {
    var s' := Step(Unbounded, k, s, Publish);
    if s.ring.pend != [] && s.ring.done == |s.ring.pend| {
      FlattenSnoc(s.hist.committed, s.ring.pend);
      assert Written(s') == Written(s);
      CommitKeepsLocals(k, s.ring.prev, s.ring.head, s'.ring.head, s.ring.copy, s.ring.pc, s.hist, s'.hist);
    }
  }

  /** One more committed record changes nothing the consumer relies on. */
  lemma CommitKeepsLocals(k: nat, prev: nat, head: nat, head': nat, copy: seq<byte>, pc: Pc, h: History, h': History)
    requires Locals(k, prev, head, copy, pc, h)
    requires head <= head' && h.committed <= h'.committed && h'.delivered == h.delivered
    ensures Locals(k, prev, head', copy, pc, h')
  {
    var n := |h.delivered|;
    if n < |h.committed| {
      assert h'.committed[..n] == h.committed[..n];
    }
  }

  // ---- the consumer's steps ----

  /** A head other than `prev_` means that an unread record is complete. */
  lemma MoreToRead(k: nat, s: State)
    requires Shape(k, s.ring) && Positions(k, s) && s.ring.prev != s.ring.head
    ensures |s.hist.delivered| < |s.hist.committed|
  {
    assert |s.hist.delivered| == |s.hist.committed| ==> s.hist.delivered == s.hist.committed;
  }

  lemma SizeKeeps(k: nat, s: State)
    requires Inv(k, s) && s.ring.pc.Loaded? && s.ring.prev != s.ring.pc.head
    ensures Inv(k, Step(Unbounded, k, s, Consume))
    ensures Step(Unbounded, k, s, Consume).ring.pc.Sized?
  {
    MoreToRead(k, s);
    NextRecord(k, s);
    HeaderFits(k, s.ring.prev);
    NextSlice(k, s, 0, HEADER_SIZE);
    var next := s.hist.committed[|s.hist.delivered|];
    assert HeaderSize(next[..HEADER_SIZE]) == HeaderSize(next);
  }

  lemma NullKeeps(k: nat, s: State)
    requires Inv(k, s) && s.ring.pc.Loaded? && s.ring.prev == s.ring.pc.head
    ensures Inv(k, Step(Unbounded, k, s, Consume))
  {
    var d := s.hist.delivered;
    assert d[..|d|] == d;
  }

  /** A record of the history is read the same way after another one has been appended. */
  lemma LiveSnoc(k: nat, copy: seq<byte>, h: History, next: Record, ref: Ref)
    requires LiveRefs(k, copy, h)
    requires ref == RefFor(k, h.delivered + [next], |h.delivered|)
    requires ref.InCopy? ==> |next| <= PERF_SAMPLE_MAX_SIZE && next <= copy
    ensures LiveRefs(k, copy, h.(delivered := h.delivered + [next], live := h.live + [ref]))
  {
    var d, d' := h.delivered, h.delivered + [next];
    forall i | 0 <= i < |d'|
      ensures CopySafe(k, d', i)
    {
      if i < |d| {
        assert CopySafe(k, d, i);
        assert d'[..i] == d[..i];
      }
    }
    forall i | h.freed <= i < |d'|
      ensures IsLive(k, copy, d', h.freed, h.live + [ref], i)
    {
      if i < |d| {
        assert IsLive(k, copy, d, h.freed, h.live, i);
        assert d'[..i] == d[..i];
      }
    }
  }

  /** Returning a pointer that shows the next record keeps everything. */
  lemma ReturnKeeps(k: nat, s: State, ref: Ref)
    requires Inv(k, s)
    requires |s.hist.delivered| < |s.hist.committed|
    requires ref == RefFor(k, s.hist.committed, |s.hist.delivered|)
    requires Deref(s.ring, ref) == s.hist.committed[|s.hist.delivered|]
    ensures var (r, o) := ReturnStep(Unbounded, s.ring, ref);
      Inv(k, State(r, Observe(s.hist, r, o)))
  {
    var d, n := s.hist.delivered, |s.hist.delivered|;
    var next := s.hist.committed[n];
    var d' := d + [next];
    assert d'[..n] == d == s.hist.committed[..n];
    LiveSnoc(k, s.ring.copy, s.hist, next, ref);
    ReturnPositions(k, s, ref);
  }

  lemma ReturnPositions(k: nat, s: State, ref: Ref)
    requires k >= 3 && Shape(k, s.ring) && Positions(k, s)
    requires |s.hist.delivered| < |s.hist.committed|
    requires ref.size == |s.hist.committed[|s.hist.delivered|]|
    requires Deref(s.ring, ref) == s.hist.committed[|s.hist.delivered|]
    ensures var (r, o) := ReturnStep(Unbounded, s.ring, ref);
      Positions(k, State(r, Observe(s.hist, r, o)))
  {
    var d, next := s.hist.delivered, s.hist.committed[|s.hist.delivered|];
    NextRecord(k, s);
    FlattenSnoc(d, next);
    assert (d + [next])[..s.hist.freed] == d[..s.hist.freed];
  }

  lemma SizedKeeps(k: nat, s: State)
    requires Inv(k, s) && s.ring.pc.Sized?
    ensures Inv(k, Step(Unbounded, k, s, Consume))
  {
    var size := s.ring.pc.size;
    NextRecord(k, s);
    WrapTest(k, s.ring.prev, size);
    if !Wraps(Unbounded, k, s.ring.prev, size) {
      InPlaceKeeps(k, s);
    }
  }

  lemma InPlaceKeeps(k: nat, s: State)
    requires Inv(k, s) && s.ring.pc.Sized? && !Touches(k, s.ring.prev, s.ring.pc.size)
    ensures var (r, o) := ReturnStep(Unbounded, s.ring, InPlace(Slot(k, s.ring.prev), s.ring.pc.size));
      Inv(k, State(r, Observe(s.hist, r, o)))
  {
    var size := s.ring.pc.size;
    NextSlice(k, s, 0, size);
    assert Start(s.hist.committed, |s.hist.delivered|) == s.ring.prev by { NextRecord(k, s); }
    ReturnKeeps(k, s, InPlace(Slot(k, s.ring.prev), size));
  }

  /** While a record is being copied no live pointer leads into the copy buffer. */
  lemma CopyBufferFree(k: nat, s: State, i: nat)
    requires Inv(k, s) && s.ring.pc.Copying?
    requires s.hist.freed <= i < |s.hist.delivered|
    ensures s.hist.live[i - s.hist.freed].InPlace?
  {
    var h := s.hist;
    assert IsLive(k, s.ring.copy, h.delivered, h.freed, h.live, i);
    NextRecord(k, s);
    FlattenAt(h.delivered, i);
    StartMonotone(h.delivered, h.freed, i);
    TouchOnce(k, s.ring.tail, Start(h.delivered, i), |h.delivered[i]|, s.ring.prev, s.ring.pc.size);
  }

  lemma LiveRefsFrame(k: nat, s: State, copy: seq<byte>)
    requires Inv(k, s) && s.ring.pc.Copying?
    ensures LiveRefs(k, copy, s.hist)
  {
    var h := s.hist;
    forall j | h.freed <= j < |h.delivered|
      ensures IsLive(k, copy, h.delivered, h.freed, h.live, j)
    {
      assert IsLive(k, s.ring.copy, h.delivered, h.freed, h.live, j);
      CopyBufferFree(k, s, j);
    }
  }

  /** The byte the copy loop reads next is the next byte of the record. */
  lemma CopiedByte(k: nat, s: State)
    requires Inv(k, s) && s.ring.pc.Copying?
    requires s.ring.pc.i < ChunkLength(k, s.ring.pc.offset, s.ring.pc.len)
    ensures var Copying(_, offset, dst, _, i) := s.ring.pc;
      && Slot(k, offset) + i < Pow2(k)
      && dst + i < |s.hist.committed[|s.hist.delivered|]|
      && s.ring.mem[Slot(k, offset) + i] == s.hist.committed[|s.hist.delivered|][dst + i]
  {
    var Copying(_, offset, dst, _, i) := s.ring.pc;
    NextSlice(k, s, dst, i + 1);
    var rec, at := s.hist.committed[|s.hist.delivered|], Slot(k, offset);
    assert s.ring.mem[at..at + (i + 1)][i] == rec[dst..dst + (i + 1)][i];
  }

  /** One more byte of the record is in the copy buffer. */
  lemma CopyByteLocals(k: nat, s: State)
    requires Inv(k, s) && s.ring.pc.Copying?
    requires s.ring.pc.i < ChunkLength(k, s.ring.pc.offset, s.ring.pc.len)
    requires s.ring.pc.dst + s.ring.pc.i < PERF_SAMPLE_MAX_SIZE
    ensures var Copying(_, offset, dst, _, i) := s.ring.pc;
      && Slot(k, offset) + i < Pow2(k)
      && Locals(k, s.ring.prev, s.ring.head, s.ring.copy[dst + i := s.ring.mem[Slot(k, offset) + i]],
                s.ring.pc.(i := i + 1), s.hist)
  {
    var Copying(size, offset, dst, len, i) := s.ring.pc;
    var next := s.hist.committed[|s.hist.delivered|];
    CopiedByte(k, s);
    var copy := s.ring.copy[dst + i := s.ring.mem[Slot(k, offset) + i]];
    assert copy[..dst + i + 1] == s.ring.copy[..dst + i] + [next[dst + i]];
    assert next[..dst + i + 1] == next[..dst + i] + [next[dst + i]];
  }

  /** The copy buffer and the local variables matter to nothing else. */
  lemma CopyFrame(k: nat, s: State, copy: seq<byte>, pc: Pc)
    requires k >= 3 && Shape(k, s.ring) && Positions(k, s) && Contents(k, s) && |copy| == |s.ring.copy|
    requires LiveRefs(k, copy, s.hist) && Locals(k, s.ring.prev, s.ring.head, copy, pc, s.hist)
    ensures Inv(k, s.(ring := s.ring.(copy := copy, pc := pc)))
  {
  }

  lemma CopyByteKeeps(k: nat, s: State)
    requires Inv(k, s) && s.ring.pc.Copying?
    requires s.ring.pc.i < ChunkLength(k, s.ring.pc.offset, s.ring.pc.len)
    ensures Inv(k, Step(Unbounded, k, s, Consume))
  {
    if s.ring.pc.dst + s.ring.pc.i < PERF_SAMPLE_MAX_SIZE {
      var r := Step(Unbounded, k, s, Consume).ring;
      CopyByteLocals(k, s);
      LiveRefsFrame(k, s, r.copy);
      CopyFrame(k, s, r.copy, r.pc);
    } else {
      OverrunKeeps(k, s);
    }
  }

  lemma OverrunKeeps(k: nat, s: State)
    requires Inv(k, s) && s.ring.pc.Copying?
    requires s.ring.pc.i < ChunkLength(k, s.ring.pc.offset, s.ring.pc.len)
    requires s.ring.pc.dst + s.ring.pc.i >= PERF_SAMPLE_MAX_SIZE
    ensures Inv(k, Step(Unbounded, k, s, Consume))
  {
    var n := |s.hist.delivered|;
    assert s.hist.committed[..n] == s.hist.delivered;
    CopiedByte(k, s);
  }

  /** The first chunk ended at the ring end; the second starts at index 0. */
  lemma NextChunkKeeps(k: nat, s: State)
    requires Inv(k, s) && s.ring.pc.Copying?
    requires s.ring.pc.i == ChunkLength(k, s.ring.pc.offset, s.ring.pc.len) != s.ring.pc.len
    ensures Inv(k, Step(Unbounded, k, s, Consume))
  {
    var Copying(size, offset, dst, len, i) := s.ring.pc;
    assert i == Pow2(k) - Slot(k, offset);
    SlotWrap(k, offset, i);
  }

  lemma CopyDoneKeeps(k: nat, s: State)
    requires Inv(k, s) && s.ring.pc.Copying?
    requires s.ring.pc.i == ChunkLength(k, s.ring.pc.offset, s.ring.pc.len) == s.ring.pc.len
    ensures Inv(k, Step(Unbounded, k, s, Consume))
  {
    var size, next := s.ring.pc.size, s.hist.committed[|s.hist.delivered|];
    assert s.ring.copy[..size] == next[..size] == next;
    assert Start(s.hist.committed, |s.hist.delivered|) == s.ring.prev by { NextRecord(k, s); }
    ReturnKeeps(k, s, InCopy(size));
  }

  lemma StepKeeps(k: nat, s: State, a: Action)
    requires Inv(k, s)
    ensures Inv(k, Step(Unbounded, k, s, a))
  {
    match a
    case Reserve(record) => ReserveKeeps(k, s, record);
    case WriteByte => WriteKeeps(k, s);
    case Publish => PublishKeeps(k, s);
    case Consume =>
      match s.ring.pc
      case Idle =>
      case Loaded(head) => if s.ring.prev != head { SizeKeeps(k, s); } else { NullKeeps(k, s); }
      case Sized(_) => SizedKeeps(k, s);
      case Copying(_, offset, _, len, i) =>
        if i < ChunkLength(k, offset, len) {
          CopyByteKeeps(k, s);
        } else if i < len {
          NextChunkKeeps(k, s);
        } else {
          CopyDoneKeeps(k, s);
        }
      case Fault =>
  }

  lemma {:induction false} RunKeeps(k: nat, s: State, acts: seq<Action>)
    requires Inv(k, s)
    ensures Inv(k, Run(Unbounded, k, s, acts))
    decreases |acts|
  {
    if acts != [] {
      StepKeeps(k, s, acts[0]);
      RunKeeps(k, Step(Unbounded, k, s, acts[0]), acts[1..]);
    }
  }
}
