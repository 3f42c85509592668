/** The ring's promises, for every schedule of kernel and reader steps on machine words. */
module RingTheorems {
  import opened Bits
  import opened Records
  import opened RingMachine
  import opened RingSafety
  import opened RingWords

  /** Every state a schedule reaches on machine words is the truncation of an unbounded state
      that satisfies the invariant. */
  lemma Reachable(k: nat, s0: State, acts: seq<Action>) returns (u: State)
    requires 3 <= k <= 32 && Initial(k, s0)
    ensures u == Run(Unbounded, k, s0, acts) && Inv(k, u)
    ensures Run(Words, k, s0, acts) == Truncate(u)
  {
    InitialInv(k, s0);
    RunKeeps(k, s0, acts);
    RunTruncates(k, s0, acts);
    assert Truncate(s0) == s0;
    u := Run(Unbounded, k, s0, acts);
  }

  /** First in, first out: what `read` returned so far is, byte for byte and in order, a
      prefix of what the kernel committed. The bytes consumed are the sizes of the records
      returned, and the read and tail positions count them modulo 2^64. */
  lemma FirstInFirstOut(k: nat, s0: State, acts: seq<Action>)
    requires 3 <= k <= 32 && Initial(k, s0)
    ensures var s := Run(Words, k, s0, acts);
      && s.hist.delivered <= s.hist.committed
      && s.hist.freed <= |s.hist.delivered|
      && s.ring.head == |Flatten(s.hist.committed)| % WORD64
      && s.ring.prev == |Flatten(s.hist.delivered)| % WORD64
      && s.ring.tail == |Flatten(s.hist.delivered[..s.hist.freed])| % WORD64
  {
    var u := Reachable(k, s0, acts);
  }

  /** tail <= prev <= head <= tail + capacity, read off the words as distances, all 8-aligned. */
  lemma PositionsOrdered(k: nat, s0: State, acts: seq<Action>)
    requires 3 <= k <= 32 && Initial(k, s0)
    ensures var r := Run(Words, k, s0, acts).ring;
      && 0 <= Distance(Words, r.prev, r.tail) <= Distance(Words, r.head, r.tail) <= Pow2(k) - |r.pend|
      && r.head % 8 == 0 && r.prev % 8 == 0 && r.tail % 8 == 0
  {
    var u := Reachable(k, s0, acts);
    var v := u.ring;
    SlotTruncates(k, 0);
    DistanceTruncates(v.prev, v.tail);
    DistanceTruncates(v.head, v.tail);
    Aligned(u.hist.committed);
    Aligned(u.hist.delivered);
    Aligned(u.hist.delivered[..u.hist.freed]);
  }

  /** The slots of n consecutive positions. */
  function Slots(w: Width, k: nat, from: nat, n: int): set<nat>
  {
    set i: nat | i < n :: SlotAfter(w, k, from, i)
  }

  /** The kernel writes to no slot that has not been given back to it. */
  lemma NothingOverwritten(k: nat, s0: State, acts: seq<Action>)
    requires 3 <= k <= 32 && Initial(k, s0)
    ensures var r := Run(Words, k, s0, acts).ring;
      Slots(Words, k, r.tail, Distance(Words, r.head, r.tail)) !! Slots(Words, k, r.head, |r.pend|)
  {
    var u := Reachable(k, s0, acts);
    SlotTruncates(k, 0);
    DistanceTruncates(u.ring.head, u.ring.tail);
    SlotsDisjoint(k, u.ring.tail, u.ring.head, |u.ring.pend|);
  }

  lemma SlotsDisjoint(k: nat, tail: nat, head: nat, n: nat)
    requires k <= 32 && tail <= head && head + n <= tail + Pow2(k)
    ensures Slots(Words, k, tail % WORD64, head - tail) !! Slots(Words, k, head % WORD64, n)
  {
    forall i: nat, j: nat | i < head - tail && j < n
      ensures SlotAfter(Words, k, tail % WORD64, i) != SlotAfter(Words, k, head % WORD64, j)
    {
      SlotShift(k, tail, i);
      SlotShift(k, head, j);
      SlotDistinct(k, tail + i, head + j);
    }
  }

  lemma SlotShift(k: nat, x: nat, y: nat)
    requires k <= 32
    ensures SlotAfter(Words, k, x % WORD64, y) == Slot(k, x + y)
  {
    ModAdd(x, y, WORD64);
    SlotTruncates(k, x + y);
  }

  lemma Aligned(c: seq<Record>)
    requires forall r :: r in c ==> WellFormed(r)
    ensures |Flatten(c)| % WORD64 % 8 == 0
  {
    FlattenAligned(c);
    Bits.Words();
    TruncateMod(|Flatten(c)|, 64, 3);
    assert Pow2(3) == 8;
  }

  /** The kernel may start a record exactly if the free part of the ring holds it. */
  lemma KernelMayWrite(k: nat, s0: State, acts: seq<Action>, record: Record)
    requires 3 <= k <= 32 && Initial(k, s0) && record != []
    ensures var s := Run(Words, k, s0, acts);
      s.ring.pend == [] ==>
        (Step(Words, k, s, Reserve(record)).ring.pend == record <==>
          WellFormed(record) && (s.ring.head - s.ring.tail) % 0x1_0000_0000_0000_0000 + |record| <= Pow2(k))
  {
  }

  /** A live pointer shows its record. */
  lemma LiveShows(k: nat, u: State, i: nat)
    requires Inv(k, u) && u.hist.freed <= i < |u.hist.delivered|
    ensures Deref(u.ring, u.hist.live[i - u.hist.freed]) == u.hist.delivered[i]
    ensures u.hist.live[i - u.hist.freed] == RefFor(k, u.hist.delivered, i)
  {
    var h := u.hist;
    assert IsLive(k, u.ring.copy, h.delivered, h.freed, h.live, i);
    assert CopySafe(k, h.delivered, i);
    if !Touches(k, Start(h.delivered, i), |h.delivered[i]|) {
      InPlaceShows(k, u, i);
    }
  }

  lemma InPlaceShows(k: nat, u: State, i: nat)
    requires Inv(k, u) && u.hist.freed <= i < |u.hist.delivered|
    requires Slot(k, Start(u.hist.delivered, i)) + |u.hist.delivered[i]| <= Pow2(k)
    ensures var at, rec := Slot(k, Start(u.hist.delivered, i)), u.hist.delivered[i];
      u.ring.mem[at..at + |rec|] == rec
  {
    var h, r := u.hist, u.ring;
    DeliveredBytes(u, i);
    StartMonotone(h.delivered, h.freed, i);
    RingSlice(k, r.mem, r.tail, r.head + r.done, Written(u), Start(h.delivered, i), |h.delivered[i]|);
  }

  lemma DeliveredBytes(u: State, i: nat)
    requires u.hist.delivered <= u.hist.committed && i < |u.hist.delivered|
    ensures var p, rec := Start(u.hist.delivered, i), u.hist.delivered[i];
      && p + |rec| <= |Flatten(u.hist.delivered)| <= |Flatten(u.hist.committed)|
      && Written(u)[p..p + |rec|] == rec
  {
    var h := u.hist;
    FlattenAt(h.delivered, i);
    FlattenPrefix(h.committed, |h.delivered|);
    assert h.committed[..|h.delivered|] == h.delivered;
  }

  /** Every pointer returned since the last null result shows the record it was returned for. */
  ghost predicate LiveShown(s: State)
  {
    && s.hist.freed <= |s.hist.delivered|
    && |s.hist.live| == |s.hist.delivered| - s.hist.freed
    && forall j :: 0 <= j < |s.hist.live| ==>
      Deref(s.ring, s.hist.live[j]) == s.hist.delivered[s.hist.freed + j]
  }

  /** That holds in every reachable state, whatever the kernel did in between. */
  lemma LivePointers(k: nat, s0: State, acts: seq<Action>)
    requires 3 <= k <= 32 && Initial(k, s0)
    ensures LiveShown(Run(Words, k, s0, acts))
  {
    var u := Reachable(k, s0, acts);
    forall j | 0 <= j < |u.hist.live|
      ensures Deref(Truncate(u).ring, u.hist.live[j]) == u.hist.delivered[u.hist.freed + j]
    {
      LiveShows(k, u, u.hist.freed + j);
    }
  }

  /** Between two null results at most one pointer leads into the copy buffer. */
  lemma OneCopyAtATime(k: nat, s0: State, acts: seq<Action>)
    requires 3 <= k <= 32 && Initial(k, s0)
    ensures var live := Run(Words, k, s0, acts).hist.live;
      forall i, j :: 0 <= i < j < |live| ==> live[i].InPlace? || live[j].InPlace?
  {
    var u := Reachable(k, s0, acts);
    var h := u.hist;
    forall i, j | 0 <= i < j < |h.live|
      ensures h.live[i].InPlace? || h.live[j].InPlace?
    {
      OneCopy(k, u, h.freed + i, h.freed + j);
    }
  }

  lemma OneCopy(k: nat, u: State, i: nat, j: nat)
    requires Inv(k, u) && u.hist.freed <= i < j < |u.hist.delivered|
    ensures u.hist.live[i - u.hist.freed].InPlace? || u.hist.live[j - u.hist.freed].InPlace?
  {
    var d := u.hist.delivered;
    LiveShows(k, u, i);
    LiveShows(k, u, j);
    FlattenAt(d, i);
    FlattenAt(d, j);
    StartMonotone(d, u.hist.freed, i);
    StartMonotone(d, i + 1, j);
    StartMonotone(d, j + 1, |d|);
    assert d[..|d|] == d;
    assert d[j] in u.hist.committed;
    TouchOnce(k, u.ring.tail, Start(d, i), |d[i]|, Start(d, j), |d[j]|);
  }

  /** The unread records, oldest first. */
  function Queue(s: State): seq<Record>
    requires |s.hist.delivered| <= |s.hist.committed|
  {
    s.hist.committed[|s.hist.delivered|..]
  }

  /** The ring refines a queue of records: publishing enqueues, returning a pointer dequeues
      the record it shows, nothing else touches the queue; and the head load of `read`, which
      alone decides about null, sees `prev_` exactly when the queue is empty. */
  lemma RefinesQueue(k: nat, s0: State, acts: seq<Action>, a: Action)
    requires 3 <= k <= 32 && Initial(k, s0)
    ensures var s := Run(Words, k, s0, acts);
      var (r, o) := RingStep(Words, k, s.ring, a);
      var s' := Step(Words, k, s, a);
      && |s.hist.delivered| <= |s.hist.committed|
      && |s'.hist.delivered| <= |s'.hist.committed|
      && match o
         case Published(record) => Queue(s') == Queue(s) + [record]
         case Returned(ref) => Queue(s) != [] && Deref(r, ref) == Queue(s)[0] && Queue(s') == Queue(s)[1..]
         case Drained => Queue(s') == Queue(s)
         case Silent =>
           && Queue(s') == Queue(s)
           && (a.Consume? && s.ring.pc.Idle? ==> (r.pc == Loaded(r.prev) <==> Queue(s) == []))
  {
    var u := Reachable(k, s0, acts);
    StepKeeps(k, u, a);
    StepTruncates(k, u, a);
    SlotTruncates(k, 0);
    EmptinessTruncates(u.ring.prev, u.ring.head);
    if u.ring.prev != u.ring.head {
      MoreToRead(k, u);
    } else if |u.hist.delivered| < |u.hist.committed| {
      NextRecord(k, u);
    }
    var s, s' := Run(Words, k, s0, acts), Step(Words, k, Run(Words, k, s0, acts), a);
    var d, d' := s.hist.delivered, s'.hist.delivered;
    if |d'| > |d| {
      assert d'[|d|] == s'.hist.committed[|d|];
      assert Queue(s)[1..] == s.hist.committed[|d| + 1..];
    }
  }
}
