/** `PerfRingBuffer` over its shared page, changed in place, with the kernel free to run
    between any two of its steps. */
module PerfRing {
  import opened Wrappers
  import opened Bits
  import opened Records
  import opened RingMachine
  import opened RingSafety
  import opened RingWords
  import opened RingProgress

  /** What the kernel may do at one point of the reader's code: any of its own steps. */
  predicate KernelOnly(acts: seq<Action>)
  {
    forall i :: 0 <= i < |acts| ==> !acts[i].Consume?
  }

  /** The kernel's steps at each point of a call. */
  ghost predicate KernelSchedule(env: nat -> seq<Action>)
  {
    forall n :: KernelOnly(env(n))
  }

  /** A schedule during which the kernel stays stopped. */
  ghost predicate Stopped(env: nat -> seq<Action>)
  {
    forall n :: env(n) == []
  }

  /** A whole call: schedule 0 for `read` itself, one more for each chunk it copies. */
  ghost predicate CallSchedule(env: nat -> nat -> seq<Action>)
  {
    forall round :: KernelSchedule(env(round))
  }

  ghost predicate CallStopped(env: nat -> nat -> seq<Action>)
  {
    forall round :: Stopped(env(round))
  }

  /** What the kernel cannot change: everything on the reader's side. */
  ghost predicate ReaderUntouched(u: State, v: State)
  {
    && v.ring.tail == u.ring.tail && v.ring.prev == u.ring.prev
    && v.ring.copy == u.ring.copy && v.ring.pc == u.ring.pc
    && v.hist == u.hist.(committed := v.hist.committed)
  }

  lemma {:induction false} KernelFrame(k: nat, u: State, acts: seq<Action>)
    requires Shape(k, u.ring) && KernelOnly(acts)
    ensures ReaderUntouched(u, Run(Unbounded, k, u, acts))
    decreases |acts|
  {
    if acts != [] {
      KernelFrame(k, Step(Unbounded, k, u, acts[0]), acts[1..]);
    }
  }

  /** What a call in progress has not changed yet: positions and history. */
  ghost predicate CallFrame(u: State, v: State)
  {
    && v.ring.tail == u.ring.tail && v.ring.prev == u.ring.prev
    && v.hist == u.hist.(committed := v.hist.committed)
  }

  /** The step system, started on a fresh mapping, is at u after the steps in `trace`. */
  ghost predicate Reached(k: nat, u0: State, trace: seq<Action>, u: State)
  {
    && 3 <= k <= 30 && Initial(k, u0)
    && u == Run(Unbounded, k, u0, trace)
  }

  lemma ReachedInv(k: nat, u0: State, trace: seq<Action>, u: State)
    requires Reached(k, u0, trace, u)
    ensures Inv(k, u)
  {
    InitialInv(k, u0);
    RunKeeps(k, u0, trace);
  }

  /** Records of a reached state are as the kernel promises. */
  lemma CommittedOk(k: nat, u0: State, trace: seq<Action>, u: State)
    requires Reached(k, u0, trace, u)
    ensures AllWellFormed(u.hist.committed) && u.hist.delivered <= u.hist.committed
    ensures u.hist.freed == |u.hist.delivered| ==> u.ring.tail == u.ring.prev
  {
    ReachedInv(k, u0, trace, u);
    assert u.hist.delivered[..|u.hist.delivered|] == u.hist.delivered;
    forall i | 0 <= i < |u.hist.committed|
      ensures WellFormed(u.hist.committed[i])
    {
      assert u.hist.committed[i] in u.hist.committed;
    }
  }

  lemma ReachedStep(k: nat, u0: State, trace: seq<Action>, u: State, a: Action)
    requires Reached(k, u0, trace, u)
    ensures Reached(k, u0, trace + [a], Step(Unbounded, k, u, a))
    ensures RingStep(Words, k, TruncateRing(u.ring), a).0 == TruncateRing(Step(Unbounded, k, u, a).ring)
  {
    RunAppend(Unbounded, k, u0, trace, [a]);
    assert [a][1..] == [];
    ReachedInv(k, u0, trace, u);
    StepTruncates(k, u, a);
  }

  lemma ReaderFrame(k: nat, u: State)
    requires Shape(k, u.ring)
    ensures KernelUntouched(u, Step(Unbounded, k, u, Consume))
  {
  }

  /** The next record, if there is one, fits the copy buffer if it has to go there. */
  ghost predicate NextSafe(k: nat, u: State)
  {
    var n := |u.hist.delivered|;
    n < |u.hist.committed| ==> CopySafe(k, u.hist.committed, n)
  }

  /** There is one. Nothing the kernel does takes that away. */
  ghost predicate Readable(k: nat, u: State)
  {
    |u.hist.delivered| < |u.hist.committed| && NextSafe(k, u)
  }

  lemma StaysReadable(k: nat, u: State, v: State)
    requires Readable(k, u) && v.hist.delivered == u.hist.delivered && u.hist.committed <= v.hist.committed
    ensures Readable(k, v)
  {
    var n := |u.hist.delivered|;
    assert v.hist.committed[..n] == u.hist.committed[..n];
  }

  lemma ByteInside(k: nat, u0: State, trace: seq<Action>, u: State)
    requires Reached(k, u0, trace, u) && u.ring.pc.Copying? && Readable(k, u)
    requires u.ring.pc.i < ChunkLength(k, u.ring.pc.offset, u.ring.pc.len)
    ensures u.ring.pc.dst + u.ring.pc.i < PERF_SAMPLE_MAX_SIZE
  {
    ReachedInv(k, u0, trace, u);
    NextRecord(k, u);
  }

  /** Inside the ring and inside the copy buffer, one byte moves. */
  lemma ByteEffect(k: nat, u0: State, trace: seq<Action>, u: State)
    requires Reached(k, u0, trace, u) && u.ring.pc.Copying? && Readable(k, u)
    requires u.ring.pc.i < ChunkLength(k, u.ring.pc.offset, u.ring.pc.len)
    ensures var Copying(_, offset, dst, _, i) := u.ring.pc;
      && dst + i < PERF_SAMPLE_MAX_SIZE && Slot(k, offset) + i < Pow2(k)
      && Slot(k, offset % WORD32) == Slot(k, offset)
      && Step(Unbounded, k, u, Consume) == u.(ring := u.ring.(
           copy := u.ring.copy[dst + i := u.ring.mem[Slot(k, offset) + i]],
           pc := u.ring.pc.(i := i + 1)))
  {
    ByteInside(k, u0, trace, u);
    SlotTruncates(k, u.ring.pc.offset);
  }

  /** The header lies inside the ring. */
  lemma SizeEffect(k: nat, u0: State, trace: seq<Action>, u: State)
    requires Reached(k, u0, trace, u) && u.ring.pc.Loaded? && u.ring.prev != u.ring.pc.head
    ensures var at := Slot(k, u.ring.prev);
      && at + HEADER_SIZE <= Pow2(k) && at == Slot(k, u.ring.prev % WORD64)
      && Step(Unbounded, k, u, Consume)
        == u.(ring := u.ring.(pc := Sized(HeaderSize(u.ring.mem[at..at + HEADER_SIZE]))))
  {
    ReachedInv(k, u0, trace, u);
    SizeKeeps(k, u);
    SlotTruncates(k, u.ring.prev);
  }

  /** After a chunk either the record is complete or the first of two chunks is. */
  lemma ChunkEnds(k: nat, u0: State, trace: seq<Action>, u: State)
    requires Reached(k, u0, trace, u) && u.ring.pc.Copying?
    requires u.ring.pc.i == ChunkLength(k, u.ring.pc.offset, u.ring.pc.len)
    ensures var Copying(_, offset, dst, len, i) := u.ring.pc;
      && 0 < i <= len && (dst > 0 ==> i == len)
      && (offset + i) % WORD32 == (offset % WORD32 + i) % WORD32
  {
    ReachedInv(k, u0, trace, u);
    ModAdd(u.ring.pc.offset, u.ring.pc.i, WORD32);
    NextRecord(k, u);
  }

  /** The wrap test and the pointer returned in place, on words. */
  lemma SizedEffect(k: nat, u0: State, trace: seq<Action>, u: State)
    requires Reached(k, u0, trace, u) && u.ring.pc.Sized?
    ensures var size, p := u.ring.pc.size, u.ring.prev;
      && Slot(k, p % WORD64) == Slot(k, p)
      && Wraps(Words, k, p % WORD64, size) == Wraps(Unbounded, k, p, size)
      && (p % WORD64 + size) % WORD64 == (p + size) % WORD64
      && Step(Unbounded, k, u, Consume) ==
        if Wraps(Unbounded, k, p, size) then u.(ring := u.ring.(pc := Copying(size, p, 0, size, 0)))
        else AfterReturn(u, InPlace(Slot(k, p), size))
  {
    SlotTruncates(k, u.ring.prev);
    WrapsTruncates(k, u.ring.prev, u.ring.pc.size);
    ModAdd(u.ring.prev, u.ring.pc.size, WORD64);
  }

  /** The state after `read` has returned `ref`. */
  function AfterReturn(u: State, ref: Ref): State
  {
    var r := u.ring.(prev := u.ring.prev + ref.size, pc := Idle);
    State(r, u.hist.(delivered := u.hist.delivered + [Deref(r, ref)], live := u.hist.live + [ref]))
  }

  lemma CopiedEffect(k: nat, u0: State, trace: seq<Action>, u: State)
    requires Reached(k, u0, trace, u) && u.ring.pc.Copying?
    requires u.ring.pc.i == ChunkLength(k, u.ring.pc.offset, u.ring.pc.len) == u.ring.pc.len
    ensures Step(Unbounded, k, u, Consume) == AfterReturn(u, InCopy(u.ring.pc.size))
    ensures (u.ring.prev % WORD64 + u.ring.pc.size) % WORD64 == (u.ring.prev + u.ring.pc.size) % WORD64
  {
    ModAdd(u.ring.prev, u.ring.pc.size, WORD64);
  }

  /** `old != head` on words decides whether a record is there. */
  lemma LoadedEffect(k: nat, u0: State, trace: seq<Action>, u: State)
    requires Reached(k, u0, trace, u) && u.ring.pc.Loaded?
    ensures u.ring.prev % WORD64 == u.ring.pc.head % WORD64 <==> u.ring.prev == u.ring.pc.head
    ensures u.ring.prev == u.ring.head <==> u.hist.delivered == u.hist.committed
    ensures u.ring.prev != u.ring.head ==> |u.hist.delivered| < |u.hist.committed|
    ensures u.hist.freed <= |u.hist.delivered|
  {
    ReachedInv(k, u0, trace, u);
    SlotTruncates(k, 0);
    EmptinessTruncates(u.ring.prev, u.ring.pc.head);
    if u.ring.prev != u.ring.head {
      MoreToRead(k, u);
    } else if |u.hist.delivered| < |u.hist.committed| {
      NextRecord(k, u);
    }
  }

  lemma ChunkStep(k: nat, u: State)
    requires Shape(k, u.ring) && u.ring.pc.Copying?
    requires u.ring.pc.i == ChunkLength(k, u.ring.pc.offset, u.ring.pc.len) < u.ring.pc.len
    ensures var Copying(size, offset, dst, len, i) := u.ring.pc;
      Step(Unbounded, k, u, Consume)
        == u.(ring := u.ring.(pc := Copying(size, offset + i, dst + i, len - i, 0)))
  {
  }

  /** The mapping: the words of the metadata page, the data pages, and the kernel's record in
      progress. */
  class MmapPage {
    ghost const k: nat
    const data: array<byte>
    var dataHead: nat
    var dataTail: nat
    var pend: Record
    var done: nat

    constructor (ghost k: nat, capacity: nat)
      requires capacity == Pow2(k)
      ensures this.k == k && fresh(data) && data.Length == capacity
      ensures dataHead == 0 && dataTail == 0 && pend == [] && done == 0
    {
      this.k := k;
      data := new byte[capacity](_ => 0);
      dataHead, dataTail := 0, 0;
      pend, done := [], 0;
    }

    /** The ring as the kernel and a reader with the given private state see it. */
    ghost function Seen(prev: nat, copy: seq<byte>, pc: Pc): Ring
      reads this, data
    {
      Ring(data[..], dataHead, dataTail, pend, done, prev, copy, pc)
    }

    /** One kernel step on the mapping, whatever the reader's private state. */
    method Kernel(a: Action)
      requires data.Length == Pow2(k) && !a.Consume?
      modifies this, data
      ensures forall prev, copy, pc | |copy| == PERF_SAMPLE_MAX_SIZE ::
        Seen(prev, copy, pc) == RingStep(Words, k, old(Seen(prev, copy, pc)), a).0
    {
      match a
      case Reserve(record) =>
        if pend == [] && WellFormed(record) && Distance(Words, dataHead, dataTail) + |record| <= data.Length {
          pend, done := record, 0;
        }
      case WriteByte =>
        if done < |pend| {
          AndMask(Position(Words, dataHead + done), k);
          data[And(Position(Words, dataHead + done), data.Length - 1)] := pend[done];
          done := done + 1;
        }
      case Publish =>
        if pend != [] && done == |pend| {
          dataHead := Position(Words, dataHead + |pend|);
          pend, done := [], 0;
        }
    }
  }

  class PerfRingBuffer {
    const page: MmapPage
    const mask: nat
    const eventCopy: array<byte>
    var prev: nat

    /** The run of the step system this object is a run of: its start, its steps, and the
        state it has reached, with positions that never wrap. */
    ghost const st0: State
    ghost var trace: seq<Action>
    ghost var st: State

    ghost predicate Valid()
      reads this, page, page.data, eventCopy
    {
      && mask == Pow2(page.k) - 1
      && page.data.Length == Pow2(page.k) && eventCopy.Length == PERF_SAMPLE_MAX_SIZE
      && page.data != eventCopy
      && Reached(page.k, st0, trace, st)
      && page.Seen(prev, eventCopy[..], TruncatePc(st.ring.pc)) == TruncateRing(st.ring)
    }

    /** 64 data pages of 2^pageBits bytes; `mask_` is an int. */
    constructor (pageBits: nat, pageSize: nat)
      requires pageBits <= 24 && pageSize == Pow2(pageBits)
      ensures Valid() && st == st0 && trace == [] && page.k == pageBits + 6
      ensures fresh(page) && fresh(page.data) && fresh(eventCopy)
      ensures mask == 64 * pageSize - 1 && page.data.Length == 64 * pageSize && eventCopy.Length == 64
    {
      Pow2Sum(6, pageBits);
      assert Pow2(6) == 64;
      mask := 64 * pageSize - 1;
      var mapping := new MmapPage(pageBits + 6, 64 * pageSize);
      page := mapping;
      var copy := new byte[PERF_SAMPLE_MAX_SIZE](_ => 0);
      eventCopy := copy;
      prev := 0;
      st0 := State(mapping.Seen(0, copy[..], Idle), History([], [], 0, []));
      st := State(mapping.Seen(0, copy[..], Idle), History([], [], 0, []));
      trace := [];
    }

    /** The kernel runs, at this point, as long as the schedule says. */
    method Interference(acts: seq<Action>)
      requires Valid() && KernelOnly(acts)
      modifies page, page.data, this`st, this`trace
      ensures Valid() && trace == old(trace) + acts && st == Run(Unbounded, page.k, old(st), acts)
      ensures ReaderUntouched(old(st), st) && (acts == [] ==> st == old(st))
      ensures old(st.hist.committed) <= st.hist.committed
      ensures old(Readable(page.k, st)) ==> Readable(page.k, st)
    {
      RunAppend(Unbounded, page.k, st0, trace, acts);
      var i := 0;
      while i < |acts|
        invariant i <= |acts| && Valid() && trace == old(trace) + acts[..i]
        invariant ReaderUntouched(old(st), st) && (i == 0 ==> st == old(st))
        invariant old(st.hist.committed) <= st.hist.committed
      {
        ReachedStep(page.k, st0, trace, st, acts[i]);
        page.Kernel(acts[i]);
        st := Step(Unbounded, page.k, st, acts[i]);
        trace := trace + [acts[i]];
        assert acts[..i + 1] == acts[..i] + [acts[i]];
        i := i + 1;
      }
      assert acts[..i] == acts;
      if old(Readable(page.k, st)) {
        StaysReadable(page.k, old(st), st);
      }
    }

    /** Bookkeeping of a reader's step whose effect the caller has carried out. */
    ghost method Advance()
      requires Reached(page.k, st0, trace, st)
      requires mask == Pow2(page.k) - 1 && page.data.Length == Pow2(page.k) && eventCopy.Length == PERF_SAMPLE_MAX_SIZE
      requires page.data != eventCopy
      requires var v := Step(Unbounded, page.k, st, Consume);
        page.Seen(prev, eventCopy[..], TruncatePc(v.ring.pc)) == TruncateRing(v.ring)
      modifies this`st, this`trace
      ensures Valid() && st == Step(Unbounded, page.k, old(st), Consume) && trace == old(trace) + [Consume]
      ensures KernelUntouched(old(st), st)
    {
      ReachedStep(page.k, st0, trace, st, Consume);
      ReaderFrame(page.k, st);
      st := Step(Unbounded, page.k, st, Consume);
      trace := trace + [Consume];
    }

    method ReadHead() returns (head: nat)
      ensures head == page.dataHead
    {
      head := page.dataHead;
    }

    method WriteTail(tail: nat)
      modifies page`dataTail
      ensures page.dataTail == tail
    {
      page.dataTail := tail;
    }

    /** One byte of the memcpy. */
    method MoveByte(offset: nat, dst: nat, len: nat, i: nat)
      requires Valid() && Readable(page.k, st)
      requires st.ring.pc.Copying? && TruncatePc(st.ring.pc) == Copying(st.ring.pc.size, offset, dst, len, i)
      requires i < ChunkLength(page.k, st.ring.pc.offset, len)
      modifies eventCopy, this`st, this`trace
      ensures Valid() && Readable(page.k, st) && old(trace) <= trace
      ensures st.ring.pc == old(st.ring.pc).(i := i + 1)
      ensures CallFrame(old(st), st) && KernelUntouched(old(st), st)
    {
      ByteEffect(page.k, st0, trace, st);
      AndMask(offset, page.k);
      eventCopy[dst + i] := page.data[And(offset, mask) + i];
      Advance();
      StaysReadable(page.k, old(st), st);
    }

    /** One memcpy of the copy loop, the kernel running between any two bytes. */
    method CopyChunk(offset: nat, dst: nat, len: nat, n: nat, env: nat -> seq<Action>)
      requires Valid() && Readable(page.k, st) && KernelSchedule(env)
      requires st.ring.pc.Copying? && TruncatePc(st.ring.pc) == Copying(st.ring.pc.size, offset, dst, len, 0)
      requires n == ChunkLength(page.k, st.ring.pc.offset, len)
      modifies page, page.data, eventCopy, this`st, this`trace
      ensures Valid() && Readable(page.k, st) && old(trace) <= trace
      ensures st.ring.pc == old(st.ring.pc).(i := n)
      ensures CallFrame(old(st), st) && (Stopped(env) ==> KernelUntouched(old(st), st))
    {
      var i := 0;
      while i < n
        invariant i <= n && Valid() && Readable(page.k, st) && old(trace) <= trace
        invariant st.ring.pc == old(st.ring.pc).(i := i)
        invariant CallFrame(old(st), st) && (Stopped(env) ==> KernelUntouched(old(st), st))
      {
        Interference(env(i));
        MoveByte(offset, dst, len, i);
        i := i + 1;
      }
    }

    /** One round of the do-while: a chunk up to the ring end or the end of the record. */
    method OneChunk(offset: nat, dst: nat, len: nat, env: nat -> seq<Action>) returns (n: nat)
      requires Valid() && Readable(page.k, st) && KernelSchedule(env)
      requires st.ring.pc.Copying? && TruncatePc(st.ring.pc) == Copying(st.ring.pc.size, offset, dst, len, 0)
      modifies page, page.data, eventCopy, this`st, this`trace
      ensures Valid() && Readable(page.k, st) && old(trace) <= trace
      ensures st.ring.pc == old(st.ring.pc).(i := n) && n == ChunkLength(page.k, st.ring.pc.offset, len)
      ensures CallFrame(old(st), st) && (Stopped(env) ==> KernelUntouched(old(st), st))
      ensures 0 < n <= len && (dst > 0 ==> n == len)
      ensures (st.ring.pc.offset + n) % WORD32 == (offset + n) % WORD32
    {
      SlotTruncates(page.k, st.ring.pc.offset);
      n := Min(mask + 1 - And(offset, mask), len);
      CopyChunk(offset, dst, len, n, env);
      ChunkEnds(page.k, st0, trace, st);
    }

    /** The loop goes round: the copy continues at the start of the ring. */
    ghost method NextChunk()
      requires Valid() && Readable(page.k, st) && st.ring.pc.Copying?
      requires st.ring.pc.i == ChunkLength(page.k, st.ring.pc.offset, st.ring.pc.len) < st.ring.pc.len
      modifies this`st, this`trace
      ensures Valid() && Readable(page.k, st) && old(trace) <= trace
      ensures var Copying(size, offset, dst, len, i) := old(st.ring.pc);
        st.ring.pc == Copying(size, offset + i, dst + i, len - i, 0)
      ensures CallFrame(old(st), st) && KernelUntouched(old(st), st)
    {
      ChunkStep(page.k, st);
      Advance();
    }

    /** Any round but the first. */
    method FollowingChunk(ghost size: nat, offset: nat, dst: nat, len: nat, env: nat -> seq<Action>) returns (n: nat)
      requires Valid() && Readable(page.k, st) && KernelSchedule(env) && dst > 0 && len != 0
      requires ChunkDone(page.k, st.ring.pc, size, offset, dst, len)
      modifies page, page.data, eventCopy, this`st, this`trace
      ensures Valid() && Readable(page.k, st) && old(trace) <= trace && n == len
      ensures ChunkDone(page.k, st.ring.pc, size, (offset + n) % WORD32, dst + n, len - n)
      ensures CallFrame(old(st), st) && (Stopped(env) ==> KernelUntouched(old(st), st))
    {
      NextChunk();
      n := OneChunk(offset, dst, len, env);
    }

    /** The do-while: copies the record that starts at position `old_` in at most two rounds. */
    method CopyRecord(old_: nat, size: nat, env: nat -> nat -> seq<Action>) returns (rounds: nat)
      requires Valid() && Readable(page.k, st) && CallSchedule(env)
      requires st.ring.pc == Copying(size, st.ring.prev, 0, size, 0) && prev == old_
      modifies page, page.data, eventCopy, this`st, this`trace
      ensures Valid() && old(trace) <= trace
      ensures st.ring.pc.Copying? && st.ring.pc.size == size
      ensures st.ring.pc.i == ChunkLength(page.k, st.ring.pc.offset, st.ring.pc.len) == st.ring.pc.len
      ensures CallFrame(old(st), st) && (CallStopped(env) ==> KernelUntouched(old(st), st))
      ensures 1 <= rounds <= 2
    {
      OffsetTruncates(st.ring.prev);
      var offset: nat, len: nat, dst: nat := old_ % WORD32, size, 0;
      var n := OneChunk(offset, dst, len, env(1));
      rounds := 1;
      offset, dst, len := (offset + n) % WORD32, dst + n, len - n;
      while len != 0
        invariant 1 <= rounds <= 2 && dst > 0 && (rounds == 2 ==> len == 0)
        invariant Valid() && Readable(page.k, st) && old(trace) <= trace
        invariant ChunkDone(page.k, st.ring.pc, size, offset, dst, len)
        invariant CallFrame(old(st), st) && (CallStopped(env) ==> KernelUntouched(old(st), st))
        decreases len
      {
        n := FollowingChunk(size, offset, dst, len, env(2));
        rounds := rounds + 1;
        offset, dst, len := (offset + n) % WORD32, dst + n, len - n;
      }
    }

    /** The bytes a caller sees through a pointer. */
    function Show(ref: Ref): (bytes: seq<byte>)
      reads this, page, page.data, eventCopy
    {
      match ref
      case InPlace(at, size) => if at + size <= page.data.Length then page.data[at..at + size] else []
      case InCopy(size) => if size <= eventCopy.Length then eventCopy[..size] else []
    }

    lemma ShowsDeref(ref: Ref)
      requires Valid()
      ensures Show(ref) == Deref(st.ring, ref)
    {
    }

    /** `old = prev_` and the head load. */
    method LoadHead(acts: seq<Action>) returns (head: nat)
      requires Valid() && st.ring.pc.Idle? && KernelOnly(acts)
      requires NextSafe(page.k, Run(Unbounded, page.k, st, acts))
      modifies page, page.data, this`st, this`trace
      ensures Valid() && NextSafe(page.k, st) && old(trace) <= trace
      ensures st.ring.pc == Loaded(st.ring.head) && head == st.ring.head % WORD64
      ensures CallFrame(old(st), st) && (acts == [] ==> KernelUntouched(old(st), st))
      ensures st.hist.committed == Run(Unbounded, page.k, old(st), acts).hist.committed
    {
      Interference(acts);
      head := ReadHead();
      Advance();
    }

    /** The size field of the record at `prev_`. */
    method LoadSize(old_: nat, acts: seq<Action>) returns (at: nat, size: nat)
      requires Valid() && st.ring.pc.Loaded? && st.ring.prev != st.ring.pc.head && old_ == prev && KernelOnly(acts)
      requires Readable(page.k, st)
      modifies page, page.data, this`st, this`trace
      ensures Valid() && Readable(page.k, st) && old(trace) <= trace
      ensures st.ring.pc == Sized(size) && at == Slot(page.k, st.ring.prev)
      ensures CallFrame(old(st), st) && (acts == [] ==> KernelUntouched(old(st), st))
    {
      Interference(acts);
      SizeEffect(page.k, st0, trace, st);
      AndMask(old_, page.k);
      at := And(old_, mask);
      size := HeaderSize(page.data[at..at + HEADER_SIZE]);
      Advance();
    }

    /** The null result: the tail is published, every record handed out is given back. */
    method ReturnNull(old_: nat, acts: seq<Action>)
      requires Valid() && st.ring.pc.Loaded? && st.ring.prev == st.ring.pc.head && old_ == prev && KernelOnly(acts)
      modifies page, page.data, this
      ensures Valid() && old(trace) <= trace && st.ring.pc.Idle?
      ensures st.hist == History(st.hist.committed, old(st.hist.delivered), |old(st.hist.delivered)|, [])
      ensures page.dataTail == prev == old(prev)
      ensures acts == [] ==> KernelUntouched(old(st), st)
    {
      Interference(acts);
      WriteTail(old_);
      prev := old_;
      Advance();
    }

    /** The part of `read` between the size load and the return: the wrap test, and the copy
        of a record that touches the ring end. */
    method Locate(old_: nat, at: nat, size: nat, env: nat -> nat -> seq<Action>) returns (event: Ref)
      requires Valid() && st.ring.pc == Sized(size) && at == Slot(page.k, st.ring.prev) && old_ == prev
      requires CallSchedule(env) && Readable(page.k, st)
      modifies page, page.data, eventCopy, this`st, this`trace
      ensures Valid() && old(trace) <= trace && event.size == size
      ensures CallFrame(old(st), st) && (CallStopped(env) ==> KernelUntouched(old(st), st))
      ensures Step(Unbounded, page.k, st, Consume) == AfterReturn(st, event)
      ensures (old_ + size) % WORD64 == (st.ring.prev + size) % WORD64
    {
      Interference(env(0)(2));
      SizedEffect(page.k, st0, trace, st);
      if at + size != And((old_ + size) % WORD64, mask) {
        Advance();
        var rounds := CopyRecord(old_, size, env);
        CopiedEffect(page.k, st0, trace, st);
        event := InCopy(size);
      } else {
        event := InPlace(at, size);
      }
    }

    /** The other result: the read position moves past the record. */
    method ReturnEvent(old_: nat, event: Ref)
      requires Valid() && Step(Unbounded, page.k, st, Consume) == AfterReturn(st, event)
      requires old_ == (st.ring.prev + event.size) % WORD64
      modifies this
      ensures Valid() && old(trace) <= trace && st == AfterReturn(old(st), event)
      ensures KernelUntouched(old(st), st)
    {
      prev := old_;
      Advance();
    }

    /** A pointer just returned shows the record that follows those handed out before. */
    lemma ShowsNext(before: seq<seq<byte>>, event: Ref)
      requires Valid() && st.hist.delivered == before + [Deref(st.ring, event)]
      ensures |before| < |st.hist.committed| && Show(event) == st.hist.committed[|before|]
    {
      ShowsDeref(event);
      CommittedOk(page.k, st0, trace, st);
      assert st.hist.delivered[|before|] == Show(event);
    }

    /** Since a record is not empty, what shows it lies inside its object. */
    lemma ShowsSome(before: seq<seq<byte>>, event: Ref)
      requires Valid() && |before| < |st.hist.committed| && Show(event) == st.hist.committed[|before|]
      ensures event.InCopy? ==> event.size <= 64
    {
      CommittedOk(page.k, st0, trace, st);
      assert WellFormed(st.hist.committed[|before|]);
    }

    /** `PerfRingBuffer::read`, the kernel running between its steps as `env` says. A pointer
        shows the oldest record not handed out yet, at this moment and wherever it lies; null
        gives every record handed out back and publishes the read position, and is the result
        exactly if nothing was left when the head was loaded. The record found by the head load must fit the
        copy buffer if it has to go there; the other records, those that arrive during the call
        included, may be of any length. And whatever the kernel does, the object stays on a run
        of the step system, so that what holds for every run holds for it. */
    method Read(env: nat -> nat -> seq<Action>) returns (event: Option<Ref>)
      requires Valid() && st.ring.pc.Idle? && CallSchedule(env)
      requires NextSafe(page.k, Run(Unbounded, page.k, st, env(0)(0)))
      modifies page, page.data, eventCopy, this
      ensures Valid() && st.ring.pc.Idle? && old(trace) <= trace
      ensures event.Some? ==>
        && |old(st.hist.delivered)| < |st.hist.committed|
        && Show(event.value) == st.hist.committed[|old(st.hist.delivered)|]
      ensures event.Some? ==> st.hist == old(st.hist).(
          committed := st.hist.committed,
          delivered := old(st.hist.delivered) + [Deref(st.ring, event.value)],
          live := old(st.hist.live) + [event.value])
      ensures event.None? ==>
        && st.hist == History(st.hist.committed, old(st.hist.delivered), |old(st.hist.delivered)|, [])
        && page.dataTail == prev == old(prev)
      ensures event.None? <==>
        old(st.hist.delivered) == Run(Unbounded, page.k, old(st), env(0)(0)).hist.committed
      ensures event.Some? && event.value.InCopy? ==> event.value.size <= 64
      ensures CallStopped(env) ==>
        && KernelUntouched(old(st), st)
        && (event.None? <==> old(st.hist.delivered) == old(st.hist.committed))
    {
      var old_ := prev;
      var head := LoadHead(env(0)(0));
      LoadedEffect(page.k, st0, trace, st);
      if old_ != head {
        var at, size := LoadSize(old_, env(0)(1));
        var ref := Locate(old_, at, size, env);
        ReturnEvent((old_ + size) % WORD64, ref);
        ShowsNext(old(st.hist.delivered), ref);
        ShowsSome(old(st.hist.delivered), ref);
        event := Some(ref);
      } else {
        ReturnNull(old_, env(0)(1));
        event := None;
      }
    }
  }

  /** Between two rounds of the copy loop. */
  ghost predicate ChunkDone(k: nat, pc: Pc, size: nat, offset: nat, dst: nat, len: nat)
  {
    && pc.Copying? && pc.size == size
    && pc.i == ChunkLength(k, pc.offset, pc.len)
    && (pc.offset + pc.i) % WORD32 == offset
    && pc.dst + pc.i == dst && pc.len - pc.i == len
  }
}
