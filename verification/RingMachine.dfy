/** The perf ring as a step system: the kernel's byte-by-byte producer and the steps of
    `PerfRingBuffer::read`, interleaved in any order. The same steps exist at two widths:
    with positions that grow for ever and with the 64- and 32-bit words of the code. */
module RingMachine {
  import opened Bits
  import opened Records

  const PERF_SAMPLE_MAX_SIZE: nat := 64

  datatype Width = Unbounded | Words

  /** A 64-bit position. */
  function Position(w: Width, x: nat): nat
  {
    if w.Unbounded? then x else x % WORD64
  }

  /** The difference of two 64-bit positions. */
  function Distance(w: Width, x: nat, y: nat): int
  {
    if w.Unbounded? then x - y else (x - y) % WORD64
  }

  /** The 32-bit `offset` of the copy loop. */
  function Offset(w: Width, x: nat): nat
  {
    if w.Unbounded? then x else x % WORD32
  }

  /** `x & mask_`, the index of position x in a ring of 2^k bytes. */
  function Slot(k: nat, x: nat): (i: nat)
    ensures i < Pow2(k)
  {
    AndMask(x, k);
    And(x, Pow2(k) - 1)
  }

  /** The slot i bytes after position `from`. */
  function SlotAfter(w: Width, k: nat, from: nat, i: nat): (slot: nat)
    ensures slot < Pow2(k)
  {
    Slot(k, Position(w, from + i))
  }

  /** Where the consumer stands inside `read`; `Fault` is an access outside the ring or
      outside the copy buffer. */
  datatype Pc =
    | Idle
    | Loaded(head: nat)
    | Sized(size: nat)
    | Copying(size: nat, offset: nat, dst: nat, len: nat, i: nat)
    | Fault

  /** The pointer `read` returns: into the mapping or at the copy buffer. */
  datatype Ref = InPlace(at: nat, size: nat) | InCopy(size: nat)

  /** `data_head`, `data_tail` and the data pages are shared; `pend` and `done` are the
      kernel's record in progress; `prev`, `copy` and `pc` are the consumer's. */
  datatype Ring = Ring(
    mem: seq<byte>, head: nat, tail: nat, pend: Record, done: nat,
    prev: nat, copy: seq<byte>, pc: Pc)

  datatype Action = Reserve(record: Record) | WriteByte | Publish | Consume

  datatype Outcome = Silent | Published(record: Record) | Returned(ref: Ref) | Drained

  predicate Shape(k: nat, r: Ring)
  {
    |r.mem| == Pow2(k) && |r.copy| == PERF_SAMPLE_MAX_SIZE
  }

  /** The bytes a pointer shows; a pointer that leaves its object shows nothing. */
  function Deref(r: Ring, ref: Ref): seq<byte>
  {
    match ref
    case InPlace(at, size) => if at + size <= |r.mem| then r.mem[at..at + size] else []
    case InCopy(size) => if size <= |r.copy| then r.copy[..size] else []
  }

  /** The kernel starts a record only when it fits into the free part of the ring. */
  function ReserveStep(w: Width, k: nat, r: Ring, record: Record): Ring
  {
    if r.pend == [] && WellFormed(record) && Distance(w, r.head, r.tail) + |record| <= Pow2(k) then
      r.(pend := record, done := 0)
    else r
  }

  function WriteStep(w: Width, k: nat, r: Ring): Ring
    requires Shape(k, r)
  {
    if r.done < |r.pend| then
      r.(mem := r.mem[SlotAfter(w, k, r.head, r.done) := r.pend[r.done]], done := r.done + 1)
    else r
  }

  /** All bytes are in place before the head moves. */
  function PublishStep(w: Width, r: Ring): (Ring, Outcome)
  {
    if r.pend != [] && r.done == |r.pend| then
      (r.(head := Position(w, r.head + |r.pend|), pend := [], done := 0), Published(r.pend))
    else (r, Silent)
  }

  function Min(x: int, y: int): int
  {
    if x < y then x else y
  }

  /** `nbytes_to_copy`: up to the end of the ring, but no more than is left. */
  function ChunkLength(k: nat, offset: nat, len: nat): (n: nat)
    ensures n <= len && Slot(k, offset) + n <= Pow2(k)
  {
    Min(Pow2(k) - Slot(k, offset), len)
  }

  function ReturnStep(w: Width, r: Ring, ref: Ref): (Ring, Outcome)
  {
    (r.(prev := Position(w, r.prev + ref.size), pc := Idle), Returned(ref))
  }

  function SizeStep(k: nat, r: Ring): Ring
    requires Shape(k, r)
  {
    var at := Slot(k, r.prev);
    if at + HEADER_SIZE <= |r.mem| then
      r.(pc := Sized(HeaderSize(r.mem[at..at + HEADER_SIZE])))
    else r.(pc := Fault)
  }

  predicate Wraps(w: Width, k: nat, prev: nat, size: nat)
  {
    Slot(k, prev) + size != Slot(k, Position(w, prev + size))
  }

  function CopyStep(w: Width, k: nat, r: Ring): (Ring, Outcome)
    requires Shape(k, r) && r.pc.Copying?
  {
    var Copying(size, offset, dst, len, i) := r.pc;
    var n := ChunkLength(k, offset, len);
    if i < n then
      if dst + i < PERF_SAMPLE_MAX_SIZE then
        (r.(copy := r.copy[dst + i := r.mem[Slot(k, offset) + i]],
            pc := Copying(size, offset, dst, len, i + 1)), Silent)
      else (r.(pc := Fault), Silent)
    else if len - n != 0 then
      (r.(pc := Copying(size, Offset(w, offset + n), dst + n, len - n, 0)), Silent)
    else ReturnStep(w, r, InCopy(size))
  }

  /** One step of `PerfRingBuffer::read`, from entry to return. */
  function ConsumeStep(w: Width, k: nat, r: Ring): (Ring, Outcome)
    requires Shape(k, r)
  {
    match r.pc
    case Idle => (r.(pc := Loaded(r.head)), Silent)
    case Loaded(head) =>
      if r.prev != head then (SizeStep(k, r), Silent)
      else (r.(tail := r.prev, pc := Idle), Drained)
    case Sized(size) =>
      if Wraps(w, k, r.prev, size) then
        (r.(pc := Copying(size, Offset(w, r.prev), 0, size, 0)), Silent)
      else ReturnStep(w, r, InPlace(Slot(k, r.prev), size))
    case Copying(_, _, _, _, _) => CopyStep(w, k, r)
    case Fault => (r, Silent)
  }

  function RingStep(w: Width, k: nat, r: Ring, a: Action): (out: (Ring, Outcome))
    requires Shape(k, r)
    ensures Shape(k, out.0)
  {
    match a
    case Reserve(record) => (ReserveStep(w, k, r, record), Silent)
    case WriteByte => (WriteStep(w, k, r), Silent)
    case Publish => PublishStep(w, r)
    case Consume => ConsumeStep(w, k, r)
  }

  /** What an observer of both sides writes down. No step reads it.
      committed: records published so far; delivered: bytes shown by each pointer at the
      moment `read` returned it; freed: how many of those preceded the last null result;
      live: the pointers returned since that null result. */
  datatype History = History(committed: seq<Record>, delivered: seq<seq<byte>>, freed: nat, live: seq<Ref>)

  datatype State = State(ring: Ring, hist: History)

  function Observe(h: History, r: Ring, o: Outcome): History
  {
    match o
    case Silent => h
    case Published(record) => h.(committed := h.committed + [record])
    case Returned(ref) => h.(delivered := h.delivered + [Deref(r, ref)], live := h.live + [ref])
    case Drained => h.(freed := |h.delivered|, live := [])
  }

  function Step(w: Width, k: nat, s: State, a: Action): (s': State)
    requires Shape(k, s.ring)
    ensures Shape(k, s'.ring)
  {
    var (r, o) := RingStep(w, k, s.ring, a);
    State(r, Observe(s.hist, r, o))
  }

  /** A schedule is any sequence of actions; an action that is not enabled changes nothing. */
  function Run(w: Width, k: nat, s: State, acts: seq<Action>): (s': State)
    requires Shape(k, s.ring)
    ensures Shape(k, s'.ring)
    decreases |acts|
  {
    if acts == [] then s else Run(w, k, Step(w, k, s, acts[0]), acts[1..])
  }

  /** A fresh mapping: empty ring, positions zero, whatever bytes the pages held. */
  predicate Initial(k: nat, s: State)
  {
    && Shape(k, s.ring)
    && s.ring.head == 0 && s.ring.tail == 0 && s.ring.prev == 0
    && s.ring.pend == [] && s.ring.done == 0 && s.ring.pc == Idle
    && s.hist == History([], [], 0, [])
  }

  lemma {:induction false} RunAppend(w: Width, k: nat, s: State, a: seq<Action>, b: seq<Action>)
    requires Shape(k, s.ring)
    ensures Run(w, k, s, a + b) == Run(w, k, Run(w, k, s, a), b)
    decreases |a|
  {
    if a == [] {
      assert a + b == b;
    } else {
      assert (a + b)[0] == a[0] && (a + b)[1..] == a[1..] + b;
      RunAppend(w, k, Step(w, k, s, a[0]), a[1..], b);
    }
  }
}
