/** `PerfSampling`: what one thread's signal handler does with its descriptors. */
module PerfSamplingThread {
  import opened Wrappers
  import opened Bits
  import opened Records
  import opened RingMachine
  import opened RingProgress
  import opened PerfRing
  import opened Sampling
  import opened EventBuffer

  /** The schedule in which the kernel does nothing: the descriptor is disabled. */
  const DISABLED: nat -> nat -> seq<Action> := (round: nat) => (n: nat) => []

  lemma DisabledStops()
    ensures CallSchedule(DISABLED) && CallStopped(DISABLED)
  {
    forall round: nat
      ensures KernelSchedule(DISABLED(round)) && Stopped(DISABLED(round))
    {
    }
  }

  /** After a null result with nothing left, the three positions meet. */
  lemma EmptyMeets(k: nat, u0: State, trace: seq<Action>, u: State)
    requires Reached(k, u0, trace, u)
    requires u.hist.delivered == u.hist.committed && u.hist.freed == |u.hist.delivered|
    ensures u.ring.tail == u.ring.prev == u.ring.head
  {
    ReachedInv(k, u0, trace, u);
    assert u.hist.delivered[..u.hist.freed] == u.hist.delivered;
  }

  ghost function ChannelOf(ring: PerfRingBuffer): Channel
    reads ring
  {
    Channel(ring.st.hist.committed, |ring.st.hist.delivered|)
  }

  ghost function Footprint(ring: PerfRingBuffer): set<object>
  {
    {ring, ring.page, ring.page.data, ring.eventCopy}
  }

  lemma Inhabited(s: set<int>)
    ensures s == {} || exists x :: x in s
  {
    if forall x :: x !in s {
      assert s == {};
    }
  }

  ghost predicate Apart(a: PerfRingBuffer, b: PerfRingBuffer)
  {
    Footprint(a) !! Footprint(b)
  }

  class PerfSampling {
    const cfg: Config
    const clock: nat -> int
    var ringBuffers: map<int, PerfRingBuffer>
    var eventData: EventRingBuffer?
    var readings: nat
    /** The descriptors whose counters run. */
    var enabled: set<int>
    /** Every event built so far, with its descriptor. */
    ghost var log: seq<Entry>
    /** Each ring as the queue it refines. */
    ghost var channels: map<int, Channel>
    /** The run of the model this object is a run of. */
    ghost var run: seq<ThreadAction>
    /** The memory of all rings. */
    ghost var repr: set<object>

    constructor (cfg: Config, clock: nat -> int)
      ensures Valid() && ringBuffers == map[] && eventData == null && View() == FRESH
      ensures this.cfg == cfg && this.clock == clock && enabled == {}
    {
      this.cfg, this.clock := cfg, clock;
      ringBuffers, eventData, readings, enabled := map[], null, 0, {};
      log, channels, run, repr := [], map[], [], {};
    }

    /** `measurement_clock::now`. */
    method Now() returns (time: int)
      modifies this`readings
      ensures time == clock(old(readings)) && readings == old(readings) + 1
    {
      time := clock(readings);
      readings := readings + 1;
    }

    ghost function Progress(): Progress
      reads `readings, `log, `eventData, eventData
    {
      Sampling.Progress(readings, log, if eventData == null then [] else eventData.appended)
    }

    ghost predicate BufferOk()
      reads `eventData, eventData
    {
      eventData != null ==> eventData.Valid()
    }

    /** Logging one access: a clock reading, and an append if the thread has a buffer. */
    method LogAccess(fd: int, access: Access)
      requires BufferOk()
      modifies this`readings, this`log, eventData
      ensures BufferOk()
      ensures Progress() == Logged(clock, old(Progress()), fd, [access], eventData != null)
    {
      LoggedOne(clock, Progress(), fd, access, eventData != null);
      var time := Now();
      var event := AccessEvent(time, access);
      log := log + [Entry(fd, event)];
      if eventData != null {
        eventData.Append(event);
      }
    }

    /** The switch of the drain loop on one record. */
    method ProcessRecord(fd: int, r: Record)
      requires WellFormed(r) && BufferOk()
      modifies this`readings, this`log, eventData
      ensures BufferOk()
      ensures Progress() == Logged(clock, old(Progress()), fd, Accesses(cfg, [r]), eventData != null)
    {
      AccessesSnoc(cfg, [], r);
      assert [] + [r] == [r];
      LoggedAppend(clock, Progress(), fd, [], [], eventData != null);
      var kind := HeaderType(r);
      if kind == PERF_RECORD_SAMPLE {
        var address := LittleEndian(r[16..24]);
        if address != 0 {
          var source := LittleEndian(r[24..32]);
          var ip := LittleEndian(r[8..16]);
          LogAccess(fd, Access(address, ip, cfg.accessOf(MemOp(source)), cfg.levelOf(MemLevel(source))));
        }
      }
      // Throttle, unthrottle and unknown records only produce messages.
    }

    /** In the drain loop: n records of `all` have been processed; `event` points at the next
        one, or is null and nothing is left. */
    ghost predicate Draining(ring: PerfRingBuffer, all: seq<Record>, n: nat, event: Option<Ref>)
      reads ring, ring.page, ring.page.data, ring.eventCopy
    {
      && ring.Valid() && ring.st.ring.pc.Idle?
      && ring.st.hist.committed == all && AllWellFormed(all) && AllCopySafe(ring.page.k, all)
      && n <= |all| && ring.st.hist.delivered <= all
      && (event.Some? ==>
        n < |all| && |ring.st.hist.delivered| == n + 1 && ring.Show(event.value) == all[n])
      && (event.None? ==> n == |all| && ring.st.hist == History(all, all, n, []))
    }

    /** One `read` while the kernel is stopped: the next unread record, or null when there is
        none. */
    method NextEvent(fd: int, ring: PerfRingBuffer) returns (event: Option<Ref>)
      requires fd !in enabled
      requires ring.Valid() && ring.st.ring.pc.Idle? && AllCopySafe(ring.page.k, ring.st.hist.committed)
      modifies ring, ring.page, ring.page.data, ring.eventCopy
      ensures Draining(ring, old(ring.st.hist.committed), |old(ring.st.hist.delivered)|, event)
      ensures ring.page.dataHead == old(ring.page.dataHead) && old(ring.trace) <= ring.trace
    {
      DisabledStops();
      CommittedOk(ring.page.k, ring.st0, ring.trace, ring.st);
      event := ring.Read(DISABLED);
      CommittedOk(ring.page.k, ring.st0, ring.trace, ring.st);
    }

    /** Since `p0`, the accesses of records start..n have been logged. */
    ghost predicate LoggedUpTo(p0: Progress, fd: int, all: seq<Record>, start: nat, n: nat)
      reads `readings, `log, `eventData, eventData
    {
      && AllWellFormed(all) && start <= n <= |all| && BufferOk()
      && Progress() == Logged(clock, p0, fd, Between(cfg, all, start, n), eventData != null)
    }

    /** The body of the drain loop: one more record is logged. */
    method LogOne(ghost p0: Progress, ghost all: seq<Record>, ghost start: nat, ghost n: nat, ghost n': nat,
                  fd: int, r: Record)
      requires LoggedUpTo(p0, fd, all, start, n) && n < |all| && r == all[n] && n' == n + 1
      modifies this`readings, this`log, eventData
      ensures LoggedUpTo(p0, fd, all, start, n')
    {
      BetweenNext(cfg, all, start, n, n');
      LoggedAppend(clock, p0, fd, Between(cfg, all, start, n), Accesses(cfg, [all[n]]), eventData != null);
      ProcessRecord(fd, r);
    }

    /** One round of the drain loop. */
    method DrainOne(ghost p0: Progress, ghost all: seq<Record>, ghost start: nat, ghost n: nat,
                    fd: int, ring: PerfRingBuffer, event: Ref) returns (event': Option<Ref>, ghost n': nat)
      requires Draining(ring, all, n, Some(event)) && LoggedUpTo(p0, fd, all, start, n) && fd !in enabled
      modifies ring, ring.page, ring.page.data, ring.eventCopy, this`readings, this`log, eventData
      ensures n' == n + 1 && Draining(ring, all, n', event') && LoggedUpTo(p0, fd, all, start, n')
      ensures ring.page.dataHead == old(ring.page.dataHead) && old(ring.trace) <= ring.trace
    {
      n' := |ring.st.hist.delivered|;
      LogOne(p0, all, start, n, n', fd, ring.Show(event));
      event' := NextEvent(fd, ring);
    }

    /** `process_events`: reads until null, with the kernel stopped. */
    method ProcessEvents(fd: int, ring: PerfRingBuffer)
      requires ring.Valid() && ring.st.ring.pc.Idle? && BufferOk()
      requires AllCopySafe(ring.page.k, ring.st.hist.committed) && fd !in enabled
      modifies ring, ring.page, ring.page.data, ring.eventCopy, this`readings, this`log, eventData
      ensures ring.Valid() && ring.st.ring.pc.Idle? && old(ring.trace) <= ring.trace
      ensures var all := old(ring.st.hist.committed); ring.st.hist == History(all, all, |all|, [])
      ensures ring.page.dataTail == ring.prev == ring.page.dataHead == old(ring.page.dataHead)
      ensures ChannelOk(old(ChannelOf(ring)))
      ensures var c := old(ChannelOf(ring)); LoggedUpTo(old(Progress()), fd, c.committed, c.taken, |c.committed|)
    {
      ghost var all, start, p0 := ring.st.hist.committed, |ring.st.hist.delivered|, Progress();
      ghost var n := start;
      var event := NextEvent(fd, ring);
      LoggedAppend(clock, p0, fd, [], [], eventData != null);
      while event.Some?
        invariant Draining(ring, all, n, event)
        invariant LoggedUpTo(p0, fd, all, start, n)
        invariant ring.page.dataHead == old(ring.page.dataHead) && old(ring.trace) <= ring.trace
        decreases |all| - n
      {
        event, n := DrainOne(p0, all, start, n, fd, ring, event.value);
      }
      DrainedMeets(ring, all, n);
    }

    /** Once drained, read position, published tail and head are the same word. */
    lemma DrainedMeets(ring: PerfRingBuffer, all: seq<Record>, n: nat)
      requires Draining(ring, all, n, None)
      ensures ring.page.dataTail == ring.prev == ring.page.dataHead
      ensures ring.st.hist == History(all, all, |all|, [])
    {
      EmptyMeets(ring.page.k, ring.st0, ring.trace, ring.st);
    }

    // ---- the thread's descriptors ----

    ghost predicate RingOk(fd: int)
      requires fd in ringBuffers
      reads `ringBuffers, `channels, Footprint(ringBuffers[fd])
    {
      && ringBuffers[fd].Valid() && ringBuffers[fd].st.ring.pc.Idle?
      && fd in channels && channels[fd] == ChannelOf(ringBuffers[fd]) && ChannelOk(channels[fd])
    }

    /** Every ring is in order between calls, and no two share memory. */
    ghost predicate RingsOk()
      reads `ringBuffers, `channels, `eventData, `repr, repr, eventData
    {
      && channels.Keys == ringBuffers.Keys
      && this !in repr
      && (forall fd :: fd in ringBuffers ==> Footprint(ringBuffers[fd]) <= repr && RingOk(fd))
      && (forall f, g {:trigger Apart(ringBuffers[f], ringBuffers[g])} ::
            f in ringBuffers && g in ringBuffers && f != g ==> Apart(ringBuffers[f], ringBuffers[g]))
      && BufferOk()
    }

    /** The thread's sampling as values. */
    ghost function View(): Sampler
      reads `channels, `readings, `log
    {
      Sampler(channels, readings, log)
    }

    /** The object has come to where it is by openings, commits and handler runs. */
    ghost predicate Valid()
      reads `ringBuffers, `channels, `eventData, `readings, `log, `run, `repr, repr, eventData
    {
      RingsOk() && View() == ThreadRun(cfg, clock, FRESH, run)
    }

    lemma ChannelsInOrder()
      requires RingsOk()
      ensures ChannelsOk(View())
    {
      forall fd | fd in channels
        ensures ChannelOk(channels[fd])
      {
        assert RingOk(fd);
      }
    }

    /** So at every moment the log is an interleaving of the filtered streams of the rings, and
        its events carry the clock's readings in order. */
    lemma LogInterleaves()
      requires Valid()
      ensures ChannelsOk(View()) && Interleaved(cfg, View()) && Stamped(clock, log)
    {
      HistoryInterleaves(cfg, clock, run);
    }

    /** No record in the descriptor's ring reaches the ring end and is too long for the copy
        buffer. By `OverrunIff` this is exactly when draining the ring stays inside the buffer. */
    ghost predicate DrainSafe(fd: int)
      reads `ringBuffers, `channels
    {
      fd in ringBuffers && fd in channels ==> AllCopySafe(ringBuffers[fd].page.k, channels[fd].committed)
    }

    /** `process_events` on a descriptor of the thread: its ring is drained, the others keep
        their memory, their records and their read positions. */
    method DrainFd(fd: int)
      requires RingsOk() && fd in ringBuffers && DrainSafe(fd) && fd !in enabled
      modifies Footprint(ringBuffers[fd]), this`readings, this`log, this`channels, eventData
      ensures RingsOk() && fd in old(channels) && ChannelOk(old(channels[fd]))
      ensures channels == old(channels)[fd := old(channels[fd]).(taken := |old(channels[fd]).committed|)]
      ensures var c := old(channels[fd]);
        LoggedUpTo(old(Progress()), fd, c.committed, c.taken, |c.committed|)
    {
      assert RingOk(fd);
      ghost var c := channels[fd];
      ProcessEvents(fd, ringBuffers[fd]);
      channels := channels[fd := c.(taken := |c.committed|)];
      forall g | g in ringBuffers
        ensures RingOk(g)
      {
        assert g != fd ==> old(RingOk(g)) && Apart(ringBuffers[fd], ringBuffers[g]);
      }
    }

    /** `enable (fd)` and `disable (fd)`. */
    method EnableFd(fd: int)
      modifies this`enabled
      ensures enabled == old(enabled) + {fd}
    {
      enabled := enabled + {fd};
    }

    method DisableFd(fd: int)
      modifies this`enabled
      ensures enabled == old(enabled) - {fd}
    {
      enabled := enabled - {fd};
    }

    /** `enable ()`: every descriptor of the thread, not only the newest. */
    method Enable()
      modifies this`enabled
      ensures enabled == old(enabled) + ringBuffers.Keys
    {
      var todo := ringBuffers.Keys;
      while todo != {}
        invariant todo <= ringBuffers.Keys
        invariant enabled == old(enabled) + (ringBuffers.Keys - todo)
      {
        Inhabited(todo);
        var fd :| fd in todo;
        EnableFd(fd);
        todo := todo - {fd};
      }
    }

    /** The thread has moved on by one handler run for fd, and what the run logged is what it
        appended to the event buffer, if there is one. */
    ghost predicate HandledSince(before: Sampler, appended0: seq<AccessEvent>, fd: int)
      reads `channels, `readings, `log, `eventData, eventData
    {
      && ChannelsOk(before) && View() == Handle(cfg, clock, before, fd)
      && |before.log| <= |log|
      && (eventData != null ==> eventData.appended == appended0 + Events(log[|before.log|..]))
    }

    /** The part of the handler between disabling and enabling. */
    method HandleFd(fd: int)
      requires RingsOk() && DrainSafe(fd) && fd !in enabled
      modifies this`readings, this`log, this`channels, repr, eventData
      ensures RingsOk() && HandledSince(old(View()), old(Progress()).appended, fd)
    {
      ghost var before := View();
      ChannelsInOrder();
      if fd in ringBuffers {
        EventsOfTag(log, fd, DrainEvents(cfg, clock, readings, channels[fd]));
        DrainFd(fd);
        assert View() == Handle(cfg, clock, before, fd);
      }
    }

    /** Bookkeeping of an action whose effect the caller has carried out. */
    ghost method Ran(a: ThreadAction)
      requires RingsOk() && View() == ThreadStep(cfg, clock, ThreadRun(cfg, clock, FRESH, run), a)
      modifies this`run
      ensures Valid()
    {
      ThreadRunSnoc(cfg, clock, FRESH, run, a);
      run := run + [a];
    }

    /** `signal_handler`: with the descriptor disabled, its ring is drained if it is one of the
        thread's. */
    method SignalHandler(fd: int)
      requires Valid() && DrainSafe(fd)
      modifies this`readings, this`log, this`channels, this`run, this`enabled, repr, eventData
      ensures Valid() && HandledSince(old(View()), old(Progress()).appended, fd)
      ensures enabled == old(enabled) + {fd}
    {
      DisableFd(fd);
      HandleFd(fd);
      Ran(Signal(fd));
      EnableFd(fd);
    }

    method SetEventBuffer(buffer: EventRingBuffer)
      requires Valid() && buffer.Valid()
      modifies this`eventData
      ensures Valid() && eventData == buffer
    {
      eventData := buffer;
    }

    /** The kernel's steps on one ring: records are added, what has been read stays. */
    method KernelFd(fd: int, acts: seq<Action>) returns (ghost more: seq<Record>)
      requires RingsOk() && fd in ringBuffers && KernelOnly(acts)
      modifies Footprint(ringBuffers[fd]), this`channels
      ensures RingsOk() && fd in old(channels) && AllWellFormed(more)
      ensures ringBuffers[fd].st == Run(Unbounded, ringBuffers[fd].page.k, old(ringBuffers[fd].st), acts)
      ensures var c := old(channels[fd]); channels == old(channels)[fd := c.(committed := c.committed + more)]
    {
      assert RingOk(fd);
      ghost var ring, c := ringBuffers[fd], channels[fd];
      ringBuffers[fd].Interference(acts);
      CommittedOk(ring.page.k, ring.st0, ring.trace, ring.st);
      more := ring.st.hist.committed[|c.committed|..];
      assert ChannelOf(ring) == c.(committed := c.committed + more);
      channels := channels[fd := c.(committed := c.committed + more)];
      forall g | g in ringBuffers
        ensures RingOk(g)
      {
        assert g != fd ==> old(RingOk(g)) && Apart(ringBuffers[fd], ringBuffers[g]);
      }
    }

    /** While a descriptor is enabled the kernel may run: it only adds records, to that
        descriptor's ring. */
    method KernelRuns(fd: int, acts: seq<Action>) returns (ghost more: seq<Record>)
      requires Valid() && fd in ringBuffers && fd in enabled && KernelOnly(acts)
      modifies Footprint(ringBuffers[fd]), this`channels, this`run
      ensures Valid() && fd in old(channels)
      ensures ringBuffers[fd].st == Run(Unbounded, ringBuffers[fd].page.k, old(ringBuffers[fd].st), acts)
      ensures var c := old(channels[fd]); channels == old(channels)[fd := c.(committed := c.committed + more)]
    {
      ghost var before := View();
      ChannelsInOrder();
      more := KernelFd(fd, acts);
      CommitsRun(cfg, clock, before, fd, more);
      ThreadRunAppend(cfg, clock, FRESH, run, Commits(fd, more));
      run := run + Commits(fd, more);
    }

    /** `event_open`, for every outcome of its system calls; false is an exception. */
    method EventOpen(result: OpenResult, pageBits: nat, pageSize: nat) returns (ok: bool)
      requires Valid() && pageBits <= 24 && pageSize == Pow2(pageBits)
      modifies this`ringBuffers, this`channels, this`run, this`repr
      ensures Valid() && ChannelsOk(old(View())) && View() == OpenStep(old(View()), result)
      ensures (result.HalfOpen? || result.Opened?) && result.fd !in old(ringBuffers) ==>
        && result.fd in ringBuffers && fresh(ringBuffers[result.fd])
        && ringBuffers == old(ringBuffers)[result.fd := ringBuffers[result.fd]]
        && ringBuffers[result.fd].mask == 64 * pageSize - 1
        && ringBuffers[result.fd].page.data.Length == 64 * pageSize
      ensures !((result.HalfOpen? || result.Opened?) && result.fd !in old(ringBuffers)) ==>
        ringBuffers == old(ringBuffers)
      ensures ok <==> result.Opened?
    {
      ChannelsInOrder();
      if (result.HalfOpen? || result.Opened?) && result.fd !in ringBuffers {
        Emplace(result.fd, pageBits, pageSize);
      }
      Ran(Open(result));
      ok := result.Opened?;
    }

    /** The new ring of `emplace`. */
    method NewRing(pageBits: nat, pageSize: nat) returns (ring: PerfRingBuffer)
      requires pageBits <= 24 && pageSize == Pow2(pageBits)
      ensures fresh(Footprint(ring)) && ring.Valid() && ring.st.ring.pc.Idle?
      ensures ChannelOf(ring) == Channel([], 0)
      ensures ring.mask == 64 * pageSize - 1 && ring.page.data.Length == 64 * pageSize
    {
      ring := new PerfRingBuffer(pageBits, pageSize);
    }

    method Emplace(fd: int, pageBits: nat, pageSize: nat)
      requires RingsOk() && fd !in ringBuffers && pageBits <= 24 && pageSize == Pow2(pageBits)
      modifies this`ringBuffers, this`channels, this`repr
      ensures RingsOk() && channels == old(channels)[fd := Channel([], 0)]
      ensures fd in ringBuffers && ringBuffers == old(ringBuffers)[fd := ringBuffers[fd]] && fresh(ringBuffers[fd])
      ensures ringBuffers[fd].mask == 64 * pageSize - 1 && ringBuffers[fd].page.data.Length == 64 * pageSize
    {
      var ring := NewRing(pageBits, pageSize);
      ringBuffers := ringBuffers[fd := ring];
      channels := channels[fd := Channel([], 0)];
      repr := repr + Footprint(ring);
      forall g | g in ringBuffers && g != fd
        ensures RingOk(g) && Apart(ringBuffers[g], ring) && Apart(ring, ringBuffers[g])
      {
        assert old(RingOk(g));
      }
      forall f, g | f in ringBuffers && g in ringBuffers && f != g && f != fd && g != fd
        ensures Apart(ringBuffers[f], ringBuffers[g])
      {
        assert old(Apart(ringBuffers[f], ringBuffers[g]));
      }
    }
  }
}
