/** What `read` and the drain loop reach when the kernel is stopped, and exactly when the
    64-byte copy buffer is too small. */
module RingProgress {
  import opened Bits
  import opened Records
  import opened RingMachine
  import opened RingSafety
  import opened RingWords
  import opened RingTheorems

  /** Only the reader moves. */
  function Alone(n: nat): (acts: seq<Action>)
    ensures |acts| == n && forall i :: 0 <= i < n ==> acts[i] == Consume
  {
    seq(n, _ => Consume)
  }

  lemma AloneSum(w: Width, k: nat, s: State, a: nat, b: nat)
    requires Shape(k, s.ring)
    ensures Run(w, k, s, Alone(a + b)) == Run(w, k, Run(w, k, s, Alone(a)), Alone(b))
  {
    assert Alone(a + b) == Alone(a) + Alone(b);
    RunAppend(w, k, s, Alone(a), Alone(b));
  }

  lemma AloneOne(w: Width, k: nat, s: State, b: nat)
    requires Shape(k, s.ring)
    ensures Run(w, k, s, Alone(b + 1)) == Run(w, k, Step(w, k, s, Consume), Alone(b))
  {
    assert Alone(b + 1)[1..] == Alone(b);
  }

  /** The reader's steps leave the kernel's side alone. */
  ghost predicate KernelUntouched(u: State, v: State)
  {
    && v.ring.mem == u.ring.mem && v.ring.head == u.ring.head
    && v.ring.pend == u.ring.pend && v.ring.done == u.ring.done
    && v.hist.committed == u.hist.committed
  }

  /** v is u after the call of `read` in progress has returned record n, or has left the copy
      buffer if the record does not fit. */
  ghost predicate CallEnds(k: nat, u: State, v: State, n: nat)
    requires n < |u.hist.committed|
  {
    && Inv(k, v) && KernelUntouched(u, v) && v.ring.tail == u.ring.tail
    && if CopySafe(k, u.hist.committed, n) then
         && v.ring.pc == Idle
         && v.hist.delivered == u.hist.delivered + [u.hist.committed[n]]
         && v.hist.live == u.hist.live + [RefFor(k, u.hist.committed, n)]
         && v.hist.freed == u.hist.freed
       else v.ring.pc == Fault && v.hist == u.hist
  }

  /** A returning step appends one record and one pointer and touches nothing shared. */
  lemma ReturnFrame(k: nat, u: State)
    requires Shape(k, u.ring) && (u.ring.pc.Sized? || u.ring.pc.Copying?)
    requires Step(Unbounded, k, u, Consume).ring.pc.Idle?
    ensures var v := Step(Unbounded, k, u, Consume);
      && KernelUntouched(u, v) && v.ring.tail == u.ring.tail && v.hist.freed == u.hist.freed
      && |v.hist.delivered| == |u.hist.delivered| + 1 && u.hist.delivered <= v.hist.delivered
      && |v.hist.live| == |u.hist.live| + 1 && u.hist.live <= v.hist.live
  {
  }

  lemma StepReturns(k: nat, u: State)
    requires Inv(k, u) && (u.ring.pc.Sized? || u.ring.pc.Copying?)
    requires Step(Unbounded, k, u, Consume).ring.pc.Idle?
    ensures CallEnds(k, u, Step(Unbounded, k, u, Consume), |u.hist.delivered|)
  {
    StepKeeps(k, u, Consume);
    ReturnFrame(k, u);
    Returned(k, u, Step(Unbounded, k, u, Consume));
  }

  /** By the invariant, the one record appended can only be the next one. */
  lemma Returned(k: nat, u: State, v: State)
    requires Inv(k, u) && Inv(k, v) && v.ring.pc == Idle
    requires KernelUntouched(u, v) && v.ring.tail == u.ring.tail && v.hist.freed == u.hist.freed
    requires |v.hist.delivered| == |u.hist.delivered| + 1 && u.hist.delivered <= v.hist.delivered
    requires |v.hist.live| == |u.hist.live| + 1 && u.hist.live <= v.hist.live
    ensures |u.hist.delivered| < |u.hist.committed|
    ensures CallEnds(k, u, v, |u.hist.delivered|)
  {
    var n, c := |u.hist.delivered|, u.hist.committed;
    assert v.hist.delivered == c[..n + 1];
    assert c[..n + 1][..n] == c[..n];
    assert CopySafe(k, v.hist.delivered, n);
    assert IsLive(k, v.ring.copy, v.hist.delivered, v.hist.freed, v.hist.live, n);
  }

  /** The step that leaves the call ends it as promised. */
  lemma StepEnds(k: nat, u: State)
    requires Inv(k, u) && (u.ring.pc.Sized? || u.ring.pc.Copying?)
    requires var pc := Step(Unbounded, k, u, Consume).ring.pc; pc.Idle? || pc.Fault?
    ensures CallEnds(k, u, Step(Unbounded, k, u, Consume), |u.hist.delivered|)
  {
    if Step(Unbounded, k, u, Consume).ring.pc.Idle? {
      StepReturns(k, u);
    } else {
      StepKeeps(k, u, Consume);
    }
  }

  /** Every step of the copy loop copies a byte or starts the second chunk. */
  lemma CopyProgress(k: nat, u: State)
    requires Inv(k, u) && u.ring.pc.Copying?
    ensures var v := Step(Unbounded, k, u, Consume);
      v.ring.pc.Copying? ==>
        && KernelUntouched(u, v) && v.ring.tail == u.ring.tail && v.hist == u.hist
        && 0 <= v.ring.pc.len - v.ring.pc.i <= u.ring.pc.len - u.ring.pc.i
        && (v.ring.pc.len - v.ring.pc.i < u.ring.pc.len - u.ring.pc.i || v.ring.pc.len < u.ring.pc.len)
  {
  }

  lemma CopyEnds(k: nat, u: State) returns (m: nat)
    requires Inv(k, u) && u.ring.pc.Copying?
    ensures CallEnds(k, u, Run(Unbounded, k, u, Alone(m)), |u.hist.delivered|)
    decreases u.ring.pc.len - u.ring.pc.i, u.ring.pc.len
  {
    var v := Step(Unbounded, k, u, Consume);
    CopyProgress(k, u);
    if v.ring.pc.Copying? {
      StepKeeps(k, u, Consume);
      m := CopyEnds(k, v);
    } else {
      StepEnds(k, u);
      m := 0;
    }
    AloneOne(Unbounded, k, u, m);
    m := m + 1;
  }

  /** A call of `read` on a non-empty ring ends with the oldest unread record. */
  lemma ReadEnds(k: nat, u: State) returns (m: nat)
    requires Inv(k, u) && u.ring.pc.Idle? && |u.hist.delivered| < |u.hist.committed|
    ensures CallEnds(k, u, Run(Unbounded, k, u, Alone(m)), |u.hist.delivered|)
  {
    var n := |u.hist.delivered|;
    NextRecord(k, u);
    var loaded := Step(Unbounded, k, u, Consume);
    SizeKeeps(k, loaded);
    var sized := Step(Unbounded, k, loaded, Consume);
    m := SizedEnds(k, sized);
    AloneOne(Unbounded, k, loaded, m);
    AloneOne(Unbounded, k, u, m + 1);
    m := m + 2;
  }

  lemma SizedEnds(k: nat, u: State) returns (m: nat)
    requires Inv(k, u) && u.ring.pc.Sized?
    ensures CallEnds(k, u, Run(Unbounded, k, u, Alone(m)), |u.hist.delivered|)
  {
    var v := Step(Unbounded, k, u, Consume);
    if v.ring.pc.Copying? {
      StepKeeps(k, u, Consume);
      m := CopyEnds(k, v);
    } else {
      StepEnds(k, u);
      m := 0;
    }
    AloneOne(Unbounded, k, u, m);
    m := m + 1;
  }

  /** The ring is empty, the whole capacity is free again and no pointer is out. */
  ghost predicate Emptied(k: nat, u: State, v: State)
  {
    && Inv(k, v) && KernelUntouched(u, v)
    && v.ring.pc == Idle
    && v.ring.tail == v.ring.prev == v.ring.head
    && v.hist.delivered == v.hist.committed
    && v.hist.freed == |v.hist.committed| && v.hist.live == []
  }

  ghost predicate AllCopySafe(k: nat, c: seq<Record>)
  {
    forall i :: 0 <= i < |c| ==> CopySafe(k, c, i)
  }

  /** Reading until null empties the ring, unless an unread record overruns the copy buffer. */
  lemma DrainEnds(k: nat, u: State) returns (m: nat)
    requires Inv(k, u) && u.ring.pc.Idle?
    ensures var v := Run(Unbounded, k, u, Alone(m));
      if AllCopySafe(k, u.hist.committed) then Emptied(k, u, v) else v.ring.pc == Fault
    decreases |u.hist.committed| - |u.hist.delivered|
  {
    var n := |u.hist.delivered|;
    if n < |u.hist.committed| {
      var m0 := ReadEnds(k, u);
      var v := Run(Unbounded, k, u, Alone(m0));
      m := m0;
      if v.ring.pc.Idle? {
        var m1 := DrainEnds(k, v);
        AloneSum(Unbounded, k, u, m0, m1);
        m := m0 + m1;
      }
    } else {
      assert u.hist.delivered == u.hist.committed;
      AllDeliveredSafe(k, u);
      var loaded := Step(Unbounded, k, u, Consume);
      NullKeeps(k, loaded);
      AloneOne(Unbounded, k, u, 1);
      AloneOne(Unbounded, k, loaded, 0);
      m := 2;
    }
  }

  lemma AllDeliveredSafe(k: nat, u: State)
    requires Inv(k, u) && u.hist.delivered == u.hist.committed
    ensures AllCopySafe(k, u.hist.committed)
  {
  }

  /** The record at stream position |Flatten(c[..i])| reaches the ring end and is longer than 64
      bytes. */
  lemma UnsafeIff(k: nat, c: seq<Record>, i: nat)
    requires i < |c|
    ensures !CopySafe(k, c, i) <==> Start(c, i) % Pow2(k) + |c[i]| >= Pow2(k) && |c[i]| > 64
  {
    AndMask(Start(c, i), k);
  }

  /** The copy buffer is overrun on some continuation without the kernel exactly if some
      committed record reaches the ring end and is longer than 64 bytes. */
  lemma OverrunIff(k: nat, s0: State, acts: seq<Action>)
    requires 3 <= k <= 32 && Initial(k, s0)
    requires Run(Words, k, s0, acts).ring.pc.Idle?
    ensures var s := Run(Words, k, s0, acts);
      var c := s.hist.committed;
      (exists m: nat :: Run(Words, k, s, Alone(m)).ring.pc.Fault?) <==>
        exists i :: 0 <= i < |c| && Start(c, i) % Pow2(k) + |c[i]| >= Pow2(k) && |c[i]| > 64
  {
    var s := Run(Words, k, s0, acts);
    var c := s.hist.committed;
    FaultIff(k, s0, acts);
    if !AllCopySafe(k, c) {
      var i :| 0 <= i < |c| && !CopySafe(k, c, i);
      UnsafeIff(k, c, i);
    }
    forall i | 0 <= i < |c| && Start(c, i) % Pow2(k) + |c[i]| >= Pow2(k) && |c[i]| > 64
      ensures !AllCopySafe(k, c)
    {
      UnsafeIff(k, c, i);
    }
  }

  lemma FaultIff(k: nat, s0: State, acts: seq<Action>)
    requires 3 <= k <= 32 && Initial(k, s0)
    requires Run(Words, k, s0, acts).ring.pc.Idle?
    ensures var s := Run(Words, k, s0, acts);
      (exists m: nat :: Run(Words, k, s, Alone(m)).ring.pc.Fault?) <==> !AllCopySafe(k, s.hist.committed)
  {
    var u := Reachable(k, s0, acts);
    var s := Run(Words, k, s0, acts);
    var m0 := DrainEnds(k, u);
    RunTruncates(k, u, Alone(m0));
    forall m: nat | Run(Words, k, s, Alone(m)).ring.pc.Fault?
      ensures !AllCopySafe(k, s.hist.committed)
    {
      RunKeeps(k, u, Alone(m));
      RunTruncates(k, u, Alone(m));
      AloneCommitsNothing(k, u, m);
    }
  }

  lemma {:induction false} AloneCommitsNothing(k: nat, u: State, m: nat)
    requires Shape(k, u.ring)
    ensures Run(Unbounded, k, u, Alone(m)).hist.committed == u.hist.committed
    decreases m
  {
    if m != 0 {
      AloneOne(Unbounded, k, u, m - 1);
      AloneCommitsNothing(k, Step(Unbounded, k, u, Consume), m - 1);
    }
  }

  /** On machine words, too: with the kernel stopped, reading until null hands out every
      unread record and gives the whole ring back, whenever no record overruns the buffer. */
  lemma DrainEmpties(k: nat, s0: State, acts: seq<Action>) returns (m: nat)
    requires 3 <= k <= 32 && Initial(k, s0)
    requires Run(Words, k, s0, acts).ring.pc.Idle?
    requires AllCopySafe(k, Run(Words, k, s0, acts).hist.committed)
    ensures var s := Run(Words, k, s0, acts);
      var s' := Run(Words, k, s, Alone(m));
      && s'.ring.pc == Idle
      && s'.ring.tail == s'.ring.prev == s'.ring.head == s.ring.head
      && s'.hist == History(s.hist.committed, s.hist.committed, |s.hist.committed|, [])
  {
    var u := Reachable(k, s0, acts);
    m := DrainEnds(k, u);
    RunTruncates(k, u, Alone(m));
  }

  /** In every run, an access outside the ring or the copy buffer means that the record being
      read is one that reaches the ring end and is longer than the copy buffer. */
  lemma NeverOutOfBounds(k: nat, s0: State, acts: seq<Action>)
    requires 3 <= k <= 32 && Initial(k, s0)
    ensures var s := Run(Words, k, s0, acts);
      var c, n := s.hist.committed, |s.hist.delivered|;
      s.ring.pc.Fault? ==> n < |c| && Start(c, n) % Pow2(k) + |c[n]| >= Pow2(k) && |c[n]| > 64
  {
    var u := Reachable(k, s0, acts);
    if u.ring.pc.Fault? {
      UnsafeIff(k, u.hist.committed, |u.hist.delivered|);
    }
  }

  // ---- a run that overruns the copy buffer, in a ring of any size ----

  /** Writing out the record in progress, byte by byte. */
  lemma {:induction false} WritesFinish(k: nat, u: State, n: nat) returns (acts: seq<Action>)
    requires Inv(k, u) && u.ring.pend != [] && n == |u.ring.pend| - u.ring.done
    ensures var v := Run(Unbounded, k, u, acts);
      && Inv(k, v) && v.hist == u.hist.(committed := u.hist.committed + [u.ring.pend])
      && v.ring.pc == u.ring.pc && v.ring.pend == []
    decreases n
  {
    if n == 0 {
      acts := [Publish];
      PublishKeeps(k, u);
      assert acts[1..] == [];
      assert Run(Unbounded, k, u, acts) == Run(Unbounded, k, Step(Unbounded, k, u, Publish), []);
    } else {
      WriteKeeps(k, u);
      var rest := WritesFinish(k, Step(Unbounded, k, u, WriteByte), n - 1);
      acts := [WriteByte] + rest;
      assert acts[1..] == rest;
    }
  }

  /** Everything committed has been read and given back. */
  ghost predicate Clean(k: nat, u: State)
  {
    && Inv(k, u) && u.ring.pc.Idle? && u.ring.pend == []
    && u.hist.delivered == u.hist.committed && u.hist.freed == |u.hist.committed|
  }

  lemma CleanPositions(k: nat, u: State)
    requires Clean(k, u)
    ensures u.ring.tail == u.ring.head == |Flatten(u.hist.committed)|
  {
    assert u.hist.delivered[..u.hist.freed] == u.hist.committed;
  }

  /** Any record that fits the ring can be put into an empty one. */
  lemma Put(k: nat, u: State, record: Record) returns (acts: seq<Action>)
    requires Clean(k, u) && WellFormed(record) && |record| <= Pow2(k)
    ensures var v := Run(Unbounded, k, u, acts);
      && Inv(k, v) && v.ring.pc.Idle? && v.ring.pend == []
      && v.hist == u.hist.(committed := u.hist.committed + [record])
  {
    CleanPositions(k, u);
    ReserveKeeps(k, u, record);
    var writes := WritesFinish(k, Step(Unbounded, k, u, Reserve(record)), |record|);
    acts := [Reserve(record)] + writes;
    assert acts[1..] == writes;
  }

  /** A record that fits the copy buffer, too, is then read, and the ring is empty again. */
  lemma PutAndDrain(k: nat, u: State, record: Record) returns (acts: seq<Action>)
    requires Clean(k, u) && WellFormed(record) && |record| <= Pow2(k)
    requires |record| <= PERF_SAMPLE_MAX_SIZE && AllCopySafe(k, u.hist.committed)
    ensures var v := Run(Unbounded, k, u, acts);
      && Clean(k, v) && AllCopySafe(k, v.hist.committed) && v.hist.committed == u.hist.committed + [record]
  {
    var put := Put(k, u, record);
    var v := Run(Unbounded, k, u, put);
    SafeSnoc(k, u.hist.committed, record);
    var m := DrainEnds(k, v);
    acts := put + Alone(m);
    RunAppend(Unbounded, k, u, put, Alone(m));
  }

  lemma SafeSnoc(k: nat, c: seq<Record>, record: Record)
    requires AllCopySafe(k, c) && |record| <= PERF_SAMPLE_MAX_SIZE
    ensures AllCopySafe(k, c + [record])
  {
    forall i | 0 <= i < |c|
      ensures CopySafe(k, c + [record], i)
    {
      assert CopySafe(k, c, i);
      assert (c + [record])[..i] == c[..i];
    }
  }

  /** A record of n bytes of the kind `attr.mmap = 1` asks for. */
  function MmapRecord(n: nat): (r: Record)
    requires 8 <= n < 256 && n % 8 == 0
    ensures |r| == n && WellFormed(r) && HeaderType(r) == PERF_RECORD_MMAP
  {
    var r := seq(n, i requires 0 <= i < n => if i == 0 then 1 else if i == 6 then n as byte else 0);
    LittleEndianByte(r[0..4]);
    r
  }

  /** Records of 64 bytes, each put and drained, until the ring end is n records ahead. */
  lemma {:induction false} Fill(k: nat, s0: State, n: nat) returns (acts: seq<Action>)
    requires k >= 6 && Initial(k, s0)
    ensures var v := Run(Unbounded, k, s0, acts);
      Clean(k, v) && AllCopySafe(k, v.hist.committed) && |Flatten(v.hist.committed)| == 64 * n
    decreases n
  {
    if n == 0 {
      acts := [];
      InitialInv(k, s0);
    } else {
      var before := Fill(k, s0, n - 1);
      var u := Run(Unbounded, k, s0, before);
      Pow2Monotone(6, k);
      assert Pow2(6) == 64;
      var more := PutAndDrain(k, u, MmapRecord(64));
      FlattenSnoc(u.hist.committed, MmapRecord(64));
      acts := before + more;
      RunAppend(Unbounded, k, s0, before, more);
    }
  }

  /** A record of 64 bytes or more that starts 64 bytes before the ring end reaches it. */
  lemma LastSlot(k: nat, n: nat)
    requires k >= 7 && n >= 64
    ensures 64 * (Pow2(k - 6) - 1) == Pow2(k) - 64 && Pow2(k) >= 128
    ensures Touches(k, Pow2(k) - 64, n) && (Pow2(k) - 64) % Pow2(k) == Pow2(k) - 64
  {
    CapacityInSixtyFours(k);
    FirstLap(k, Pow2(k) - 64);
    AndMask(Pow2(k) - 64, k);
  }

  lemma CapacityInSixtyFours(k: nat)
    requires k >= 7
    ensures Pow2(k) == 64 * Pow2(k - 6) && Pow2(k) >= 128
  {
    Pow2Sum(6, k - 6);
    assert Pow2(6) == 64;
    Pow2Monotone(7, k);
    assert Pow2(7) == 128;
  }

  lemma FirstLap(k: nat, p: nat)
    requires p < Pow2(k)
    ensures Slot(k, p) == p
  {
    AndMask(p, k);
    ModUnique(p, Pow2(k), 0, p);
  }

  /** The ring filled with records of 64 bytes, all read, up to 64 bytes before its end, and then
      one record of n bytes there. */
  lemma LastRecord(k: nat, s0: State, n: nat) returns (acts: seq<Action>)
    requires 7 <= k && Initial(k, s0) && 64 <= n <= 128 && n % 8 == 0
    ensures var v := Run(Unbounded, k, s0, acts);
      && Inv(k, v) && v.ring.pc.Idle? && v.hist.live == []
      && |v.hist.committed| == |v.hist.delivered| + 1
      && v.hist.committed[|v.hist.delivered|] == MmapRecord(n)
      && Start(v.hist.committed, |v.hist.delivered|) == Pow2(k) - 64
      && (forall i :: 0 <= i < |v.hist.delivered| ==> CopySafe(k, v.hist.committed, i))
  {
    LastSlot(k, n);
    var fill := Fill(k, s0, Pow2(k - 6) - 1);
    var u := Run(Unbounded, k, s0, fill);
    var put := Put(k, u, MmapRecord(n));
    var v := Run(Unbounded, k, u, put);
    acts := fill + put;
    RunAppend(Unbounded, k, s0, fill, put);
    assert v.hist.committed[..|u.hist.committed|] == u.hist.committed;
    forall i | 0 <= i < |u.hist.committed|
      ensures CopySafe(k, v.hist.committed, i)
    {
      assert CopySafe(k, u.hist.committed, i);
      assert v.hist.committed[..i] == u.hist.committed[..i];
    }
  }

  /** For a ring of any size from 128 bytes on, so for 64 pages of any size: if that record has
      72 bytes or more, a multiple of eight up to 128, reading it leaves the copy buffer. */
  lemma OverrunHappens(k: nat, s0: State, n: nat) returns (acts: seq<Action>)
    requires 7 <= k <= 32 && Initial(k, s0) && 72 <= n <= 128 && n % 8 == 0
    ensures Run(Words, k, s0, acts).ring.pc.Fault?
  {
    LastSlot(k, n);
    var before := LastRecord(k, s0, n);
    var v := Run(Unbounded, k, s0, before);
    UnsafeIff(k, v.hist.committed, |v.hist.delivered|);
    var m := DrainEnds(k, v);
    acts := before + Alone(m);
    RunAppend(Unbounded, k, s0, before, Alone(m));
    var w := Reachable(k, s0, acts);
  }

  /** And if it has 64 bytes, so that it fits both the rest of the ring and the copy buffer
      exactly, it is returned from the copy buffer, byte for byte. */
  lemma ExactFitIsReturned(k: nat, s0: State) returns (acts: seq<Action>)
    requires 7 <= k <= 32 && Initial(k, s0)
    ensures var s := Run(Words, k, s0, acts);
      && s.ring.pc.Idle? && s.hist.live == [InCopy(64)]
      && s.hist.delivered == s.hist.committed && s.hist.committed != []
      && s.hist.committed[|s.hist.committed| - 1] == MmapRecord(64)
      && Deref(s.ring, InCopy(64)) == MmapRecord(64)
  {
    LastSlot(k, 64);
    var before := LastRecord(k, s0, 64);
    var v := Run(Unbounded, k, s0, before);
    var n := |v.hist.delivered|;
    var m := ReadEnds(k, v);
    acts := before + Alone(m);
    RunAppend(Unbounded, k, s0, before, Alone(m));
    var w := Reachable(k, s0, acts);
    assert w.hist.delivered == v.hist.committed;
    assert w.hist.delivered[..n] == v.hist.committed[..n];
    LiveShows(k, w, n);
  }

  // ---- pointer stability across a stretch of a run ----

  lemma HistoryGrows(w: Width, k: nat, s: State, a: Action)
    requires Shape(k, s.ring) && s.hist.freed <= |s.hist.delivered|
    requires |s.hist.live| == |s.hist.delivered| - s.hist.freed
    ensures var h, h' := s.hist, Step(w, k, s, a).hist;
      && h.committed <= h'.committed && h.delivered <= h'.delivered
      && h.freed <= h'.freed <= |h'.delivered| && |h'.live| == |h'.delivered| - h'.freed
      && (h'.freed == h.freed ==> h.live <= h'.live)
  {
  }

  lemma {:induction false} RunGrows(w: Width, k: nat, s: State, acts: seq<Action>)
    requires Shape(k, s.ring) && s.hist.freed <= |s.hist.delivered|
    requires |s.hist.live| == |s.hist.delivered| - s.hist.freed
    ensures var h, h' := s.hist, Run(w, k, s, acts).hist;
      && h.committed <= h'.committed && h.delivered <= h'.delivered
      && h.freed <= h'.freed
      && (h'.freed == h.freed ==> h.live <= h'.live)
    decreases |acts|
  {
    if acts != [] {
      HistoryGrows(w, k, s, acts[0]);
      RunGrows(w, k, Step(w, k, s, acts[0]), acts[1..]);
    }
  }

  /** A pointer stays out, and what it shows does not change, through any steps of kernel and
      reader, until a read that returns null gives records back. */
  lemma PointersStayValid(k: nat, s0: State, acts: seq<Action>, more: seq<Action>)
    requires 3 <= k <= 32 && Initial(k, s0)
    ensures var s := Run(Words, k, s0, acts);
      var s' := Run(Words, k, s, more);
      s'.hist.freed == s.hist.freed ==>
        && s.hist.live <= s'.hist.live
        && (forall j :: 0 <= j < |s.hist.live| ==>
              Deref(s'.ring, s.hist.live[j]) == Deref(s.ring, s.hist.live[j]))
  {
    var s := Run(Words, k, s0, acts);
    LivePointers(k, s0, acts);
    LivePointers(k, s0, acts + more);
    RunAppend(Words, k, s0, acts, more);
    RunGrows(Words, k, s, more);
    ShownStays(s, Run(Words, k, s, more));
  }

  lemma ShownStays(s: State, s': State)
    requires LiveShown(s) && LiveShown(s')
    requires s.hist.delivered <= s'.hist.delivered
    requires s'.hist.freed == s.hist.freed ==> s.hist.live <= s'.hist.live
    ensures s'.hist.freed == s.hist.freed ==>
      forall j :: 0 <= j < |s.hist.live| ==> Deref(s'.ring, s.hist.live[j]) == Deref(s.ring, s.hist.live[j])
  {
    if s'.hist.freed == s.hist.freed {
      forall j | 0 <= j < |s.hist.live|
        ensures Deref(s'.ring, s.hist.live[j]) == Deref(s.ring, s.hist.live[j])
      {
        assert s'.hist.live[j] == s.hist.live[j];
        assert s'.hist.delivered[s.hist.freed + j] == s.hist.delivered[s.hist.freed + j];
      }
    }
  }
}
