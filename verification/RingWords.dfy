/** The 64- and 32-bit arithmetic of the code takes the same decisions and touches the same
    bytes as positions that grow for ever. */
module RingWords {
  import opened Bits
  import opened Records
  import opened RingMachine
  import opened RingSafety

  function TruncatePc(pc: Pc): Pc
  {
    match pc
    case Loaded(head) => Loaded(head % WORD64)
    case Copying(size, offset, dst, len, i) => Copying(size, offset % WORD32, dst, len, i)
    case _ => pc
  }

  function TruncateRing(r: Ring): Ring
  {
    r.(head := r.head % WORD64, tail := r.tail % WORD64, prev := r.prev % WORD64, pc := TruncatePc(r.pc))
  }

  /** The state the machine words hold when the unbounded positions are those of s. */
  function Truncate(s: State): State
  {
    s.(ring := TruncateRing(s.ring))
  }

  lemma {:induction false} Pow2Monotone(a: nat, b: nat)
    requires a <= b
    ensures Pow2(a) <= Pow2(b)
  {
    if a < b {
      Pow2Monotone(a, b - 1);
    }
  }

  lemma SlotTruncates(k: nat, x: nat)
    requires k <= 32
    ensures Slot(k, x % WORD64) == Slot(k, x) == Slot(k, x % WORD32)
    ensures Pow2(k) <= WORD32
  {
    Bits.Words();
    TruncateMod(x, 64, k);
    TruncateMod(x, 32, k);
    AndMask(x, k);
    AndMask(x % WORD64, k);
    AndMask(x % WORD32, k);
    Pow2Monotone(k, 32);
  }

  /** The 32-bit `offset` may be taken from the 64-bit `prev_`. */
  lemma OffsetTruncates(x: nat)
    ensures x % WORD64 % WORD32 == x % WORD32
  {
    Bits.Words();
    TruncateMod(x, 64, 32);
  }

  /** `old != head` on words is `old != head` on positions less than 2^64 apart. */
  lemma EmptinessTruncates(prev: nat, head: nat)
    requires prev <= head < prev + WORD64
    ensures prev % WORD64 == head % WORD64 <==> prev == head
  {
    if prev != head {
      ModDistinct(prev, head, WORD64);
    }
  }

  lemma DistanceTruncates(head: nat, tail: nat)
    requires tail <= head < tail + WORD64
    ensures Distance(Words, head % WORD64, tail % WORD64) == head - tail
  {
    ModSub(head, tail, WORD64);
  }

  lemma ReserveTruncates(k: nat, s: State, record: Record)
    requires Inv(k, s) && k <= 32
    ensures Step(Words, k, Truncate(s), Reserve(record)) == Truncate(Step(Unbounded, k, s, Reserve(record)))
  {
    SlotTruncates(k, 0);
    DistanceTruncates(s.ring.head, s.ring.tail);
  }

  lemma WriteTruncates(k: nat, s: State)
    requires Inv(k, s) && k <= 32
    ensures Step(Words, k, Truncate(s), WriteByte) == Truncate(Step(Unbounded, k, s, WriteByte))
  {
    ModAdd(s.ring.head, s.ring.done, WORD64);
    SlotTruncates(k, s.ring.head + s.ring.done);
  }

  lemma PublishTruncates(k: nat, s: State)
    requires Inv(k, s) && k <= 32
    ensures Step(Words, k, Truncate(s), Publish) == Truncate(Step(Unbounded, k, s, Publish))
  {
    ModAdd(s.ring.head, |s.ring.pend|, WORD64);
  }

  lemma ReturnTruncates(r: Ring, ref: Ref)
    ensures ReturnStep(Words, TruncateRing(r), ref)
         == (TruncateRing(ReturnStep(Unbounded, r, ref).0), ReturnStep(Unbounded, r, ref).1)
  {
    ModAdd(r.prev, ref.size, WORD64);
  }

  lemma WrapsTruncates(k: nat, prev: nat, size: nat)
    requires k <= 32
    ensures Wraps(Words, k, prev % WORD64, size) == Wraps(Unbounded, k, prev, size)
  {
    SlotTruncates(k, prev);
    SlotTruncates(k, prev + size);
    ModAdd(prev, size, WORD64);
  }

  lemma SizedTruncates(k: nat, s: State)
    requires Inv(k, s) && k <= 32 && s.ring.pc.Sized?
    ensures Step(Words, k, Truncate(s), Consume) == Truncate(Step(Unbounded, k, s, Consume))
  {
    var r := s.ring;
    var size := r.pc.size;
    WrapsTruncates(k, r.prev, size);
    if Wraps(Unbounded, k, r.prev, size) {
      OffsetTruncates(r.prev);
    } else {
      SlotTruncates(k, r.prev);
      ReturnTruncates(r, InPlace(Slot(k, r.prev), size));
    }
  }

  /** The copy loop: the 32-bit `offset` leads to the same slots and the same chunks. */
  lemma CopyStepTruncates(k: nat, r: Ring)
    requires Shape(k, r) && k <= 32 && r.pc.Copying?
    ensures CopyStep(Words, k, TruncateRing(r))
         == (TruncateRing(CopyStep(Unbounded, k, r).0), CopyStep(Unbounded, k, r).1)
  {
    var Copying(size, offset, dst, len, i) := r.pc;
    var n := ChunkLength(k, offset, len);
    SlotTruncates(k, offset);
    assert ChunkLength(k, offset % WORD32, len) == n;
    ModAdd(offset, n, WORD32);
    ReturnTruncates(r, InCopy(size));
  }

  lemma CopyTruncates(k: nat, s: State)
    requires Inv(k, s) && k <= 32 && s.ring.pc.Copying?
    ensures Step(Words, k, Truncate(s), Consume) == Truncate(Step(Unbounded, k, s, Consume))
  {
    CopyStepTruncates(k, s.ring);
  }

  /** One step on machine words is the truncation of one step on unbounded positions. */
  lemma StepTruncates(k: nat, s: State, a: Action)
    requires Inv(k, s) && k <= 32
    ensures Step(Words, k, Truncate(s), a) == Truncate(Step(Unbounded, k, s, a))
  {
    match a
    case Reserve(record) => ReserveTruncates(k, s, record);
    case WriteByte => WriteTruncates(k, s);
    case Publish => PublishTruncates(k, s);
    case Consume =>
      match s.ring.pc
      case Idle =>
      case Loaded(head) =>
        SlotTruncates(k, s.ring.prev);
        EmptinessTruncates(s.ring.prev, head);
      case Sized(_) => SizedTruncates(k, s);
      case Copying(_, _, _, _, _) => CopyTruncates(k, s);
      case Fault =>
  }

  /** The same for every run, however often the 64-bit positions wrap around. */
  lemma {:induction false} RunTruncates(k: nat, s: State, acts: seq<Action>)
    requires Inv(k, s) && k <= 32
    ensures Run(Words, k, Truncate(s), acts) == Truncate(Run(Unbounded, k, s, acts))
    decreases |acts|
  {
    if acts != [] {
      StepTruncates(k, s, acts[0]);
      StepKeeps(k, s, acts[0]);
      RunTruncates(k, Step(Unbounded, k, s, acts[0]), acts[1..]);
    }
  }
}
