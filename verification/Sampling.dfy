/** One thread's samples: the descriptors it drains, the events it logs, and the clock. */
module Sampling {
  import opened Records

  datatype AccessType = NA | LOAD | STORE

  /** What a sample says; the memory level stays the kernel's code. */
  datatype Access = Access(address: nat, ip: nat, accessType: AccessType, memoryLevel: nat)

  datatype AccessEvent = AccessEvent(time: int, access: Access)

  /** The parts of the program this model does not look into: `accessTypeFromPerf`,
      `memoryLevelFromPerf`, `accessTypeFromString`, the n-th reading of a thread's clock, and
      `std::this_thread::get_id`; and the configured number of events per thread. */
  datatype Config = Config(
    accessOf: nat -> AccessType,
    levelOf: nat -> nat,
    typeOf: string -> AccessType,
    clock: nat -> nat -> int,
    tidOf: nat -> nat,
    bufferSize: nat)

  function AccessOf(cfg: Config, r: Record): Access
    requires WellFormed(r) && KindOf(r).AddressSample?
  {
    var source := SampleDataSource(r);
    Access(SampleAddress(r), SampleIp(r), cfg.accessOf(MemOp(source)), cfg.levelOf(MemLevel(source)))
  }

  /** The accesses of a list of records: the samples with a non-zero address, in order. */
  function Accesses(cfg: Config, c: seq<Record>): seq<Access>
    requires AllWellFormed(c)
  {
    if c == [] then []
    else
      var last := c[|c| - 1];
      Accesses(cfg, c[..|c| - 1]) + (if KindOf(last).AddressSample? then [AccessOf(cfg, last)] else [])
  }

  lemma AccessesSnoc(cfg: Config, c: seq<Record>, r: Record)
    requires AllWellFormed(c) && WellFormed(r)
    ensures Accesses(cfg, c + [r]) == Accesses(cfg, c) + (if KindOf(r).AddressSample? then [AccessOf(cfg, r)] else [])
  {
    assert (c + [r])[..|c|] == c;
  }

  lemma {:induction false} AccessesAppend(cfg: Config, c: seq<Record>, d: seq<Record>)
    requires AllWellFormed(c) && AllWellFormed(d)
    ensures Accesses(cfg, c + d) == Accesses(cfg, c) + Accesses(cfg, d)
    decreases |d|
  {
    if d == [] {
      assert c + d == c;
    } else {
      var n := |d| - 1;
      AccessesAppend(cfg, c, d[..n]);
      assert c + d == c + d[..n] + [d[n]];
      AccessesSnoc(cfg, c + d[..n], d[n]);
    }
  }

  /** The accesses of records m..n. */
  function Between(cfg: Config, c: seq<Record>, m: nat, n: nat): seq<Access>
    requires AllWellFormed(c) && m <= n <= |c|
  {
    Accesses(cfg, c[m..n])
  }

  lemma BetweenNext(cfg: Config, c: seq<Record>, m: nat, n: nat, next: nat)
    requires AllWellFormed(c) && m <= n < |c| && next == n + 1
    ensures Between(cfg, c, m, next) == Between(cfg, c, m, n) + Accesses(cfg, [c[n]])
  {
    AccessesAppend(cfg, c[m..n], [c[n]]);
    assert c[m..n] + [c[n]] == c[m..next];
  }

  /** The events of consecutive clock readings, starting with reading `from`. */
  function Stamp(clock: nat -> int, from: nat, accesses: seq<Access>): seq<AccessEvent>
  {
    seq(|accesses|, i requires 0 <= i < |accesses| => AccessEvent(clock(from + i), accesses[i]))
  }

  lemma StampAppend(clock: nat -> int, from: nat, a: seq<Access>, b: seq<Access>)
    ensures Stamp(clock, from, a + b) == Stamp(clock, from, a) + Stamp(clock, from + |a|, b)
  {
  }

  // ---- one thread ----

  /** A descriptor as the queue its ring refines. */
  datatype Channel = Channel(committed: seq<Record>, taken: nat)

  datatype Entry = Entry(fd: int, event: AccessEvent)

  /** readings: clock readings so far; log: every event the handler built, with its descriptor. */
  datatype Sampler = Sampler(channels: map<int, Channel>, readings: nat, log: seq<Entry>)

  predicate ChannelOk(c: Channel)
  {
    c.taken <= |c.committed| && AllWellFormed(c.committed)
  }

  predicate ChannelsOk(s: Sampler)
  {
    forall fd :: fd in s.channels ==> ChannelOk(s.channels[fd])
  }

  /** The events one run of the handler builds for a descriptor. */
  function DrainEvents(cfg: Config, clock: nat -> int, readings: nat, c: Channel): seq<AccessEvent>
    requires ChannelOk(c)
  {
    Stamp(clock, readings, Between(cfg, c.committed, c.taken, |c.committed|))
  }

  function Tag(fd: int, events: seq<AccessEvent>): seq<Entry>
  {
    seq(|events|, i requires 0 <= i < |events| => Entry(fd, events[i]))
  }

  lemma TagAppend(fd: int, a: seq<AccessEvent>, b: seq<AccessEvent>)
    ensures Tag(fd, a + b) == Tag(fd, a) + Tag(fd, b)
  {
  }

  function Events(log: seq<Entry>): seq<AccessEvent>
  {
    seq(|log|, i requires 0 <= i < |log| => log[i].event)
  }

  /** How far a thread has come: clock readings, events built, events in its buffer. */
  datatype Progress = Progress(readings: nat, log: seq<Entry>, appended: seq<AccessEvent>)

  /** After logging more accesses of one descriptor; without a buffer nothing is kept. */
  function Logged(clock: nat -> int, p: Progress, fd: int, accesses: seq<Access>, kept: bool): Progress
  {
    var events := Stamp(clock, p.readings, accesses);
    Progress(p.readings + |accesses|, p.log + Tag(fd, events), if kept then p.appended + events else p.appended)
  }

  lemma LoggedAppend(clock: nat -> int, p: Progress, fd: int, a: seq<Access>, b: seq<Access>, kept: bool)
    ensures Logged(clock, Logged(clock, p, fd, a, kept), fd, b, kept) == Logged(clock, p, fd, a + b, kept)
    ensures Logged(clock, p, fd, [], kept) == p
  {
    StampAppend(clock, p.readings, a, b);
    TagAppend(fd, Stamp(clock, p.readings, a), Stamp(clock, p.readings + |a|, b));
  }

  lemma LoggedOne(clock: nat -> int, p: Progress, fd: int, a: Access, kept: bool)
    ensures var e := AccessEvent(clock(p.readings), a);
      Logged(clock, p, fd, [a], kept)
        == Progress(p.readings + 1, p.log + [Entry(fd, e)], if kept then p.appended + [e] else p.appended)
  {
    var e := AccessEvent(clock(p.readings), a);
    assert Stamp(clock, p.readings, [a]) == [e];
    assert Tag(fd, [e]) == [Entry(fd, e)];
  }

  lemma EventsAppend(log: seq<Entry>, more: seq<Entry>)
    ensures Events(log + more) == Events(log) + Events(more)
  {
  }

  lemma EventsOfTag(log: seq<Entry>, fd: int, events: seq<AccessEvent>)
    ensures Events((log + Tag(fd, events))[|log|..]) == events
  {
  }

  /** `signal_handler` on descriptor fd: with the descriptor disabled, everything unread is
      taken; a descriptor the thread does not know is left alone. */
  function Handle(cfg: Config, clock: nat -> int, s: Sampler, fd: int): (s': Sampler)
    requires ChannelsOk(s)
    ensures ChannelsOk(s')
  {
    if fd in s.channels then
      var c := s.channels[fd];
      var events := DrainEvents(cfg, clock, s.readings, c);
      Sampler(s.channels[fd := c.(taken := |c.committed|)], s.readings + |events|, s.log + Tag(fd, events))
    else s
  }

  /** What the system calls of `event_open` come to: no descriptor, no mapping, a mapping whose
      signal set-up failed, or everything in place. */
  datatype OpenResult = NoDescriptor | NoMapping | HalfOpen(fd: int) | Opened(fd: int)

  datatype ThreadAction = Open(result: OpenResult) | Commit(fd: int, record: Record) | Signal(fd: int)

  /** `event_open`: the ring is in the thread's map as soon as it is mapped. */
  function OpenStep(s: Sampler, result: OpenResult): (s': Sampler)
    requires ChannelsOk(s)
    ensures ChannelsOk(s')
  {
    if (result.HalfOpen? || result.Opened?) && result.fd !in s.channels then
      s.(channels := s.channels[result.fd := Channel([], 0)])
    else s
  }

  function ThreadStep(cfg: Config, clock: nat -> int, s: Sampler, a: ThreadAction): (s': Sampler)
    requires ChannelsOk(s)
    ensures ChannelsOk(s')
  {
    match a
    case Open(result) => OpenStep(s, result)
    case Commit(fd, record) =>
      if fd in s.channels && WellFormed(record) then
        var c := s.channels[fd];
        s.(channels := s.channels[fd := c.(committed := c.committed + [record])])
      else s
    case Signal(fd) => Handle(cfg, clock, s, fd)
  }

  function ThreadRun(cfg: Config, clock: nat -> int, s: Sampler, acts: seq<ThreadAction>): (s': Sampler)
    requires ChannelsOk(s)
    ensures ChannelsOk(s')
    decreases |acts|
  {
    if acts == [] then s else ThreadRun(cfg, clock, ThreadStep(cfg, clock, s, acts[0]), acts[1..])
  }

  lemma {:induction false} ThreadRunAppend(cfg: Config, clock: nat -> int, s: Sampler, a: seq<ThreadAction>,
      b: seq<ThreadAction>)
    requires ChannelsOk(s)
    ensures ThreadRun(cfg, clock, s, a + b) == ThreadRun(cfg, clock, ThreadRun(cfg, clock, s, a), b)
    decreases |a|
  {
    if a == [] {
      assert a + b == b;
    } else {
      assert (a + b)[1..] == a[1..] + b;
      ThreadRunAppend(cfg, clock, ThreadStep(cfg, clock, s, a[0]), a[1..], b);
    }
  }

  lemma ThreadRunSnoc(cfg: Config, clock: nat -> int, s: Sampler, acts: seq<ThreadAction>, a: ThreadAction)
    requires ChannelsOk(s)
    ensures ThreadRun(cfg, clock, s, acts + [a]) == ThreadStep(cfg, clock, ThreadRun(cfg, clock, s, acts), a)
  {
    ThreadRunAppend(cfg, clock, s, acts, [a]);
    assert [a][1..] == [];
  }

  function Commits(fd: int, records: seq<Record>): seq<ThreadAction>
  {
    seq(|records|, i requires 0 <= i < |records| => Commit(fd, records[i]))
  }

  /** Committing a list of records appends them to the descriptor's. */
  lemma {:induction false} CommitsRun(cfg: Config, clock: nat -> int, s: Sampler, fd: int, records: seq<Record>)
    requires ChannelsOk(s) && fd in s.channels && AllWellFormed(records)
    ensures var c := s.channels[fd];
      ThreadRun(cfg, clock, s, Commits(fd, records))
        == s.(channels := s.channels[fd := c.(committed := c.committed + records)])
    decreases |records|
  {
    var c := s.channels[fd];
    if records == [] {
      assert c.committed + records == c.committed;
      assert s.channels[fd := c] == s.channels;
    } else {
      var s' := ThreadStep(cfg, clock, s, Commit(fd, records[0]));
      CommitsRun(cfg, clock, s', fd, records[1..]);
      assert Commits(fd, records)[1..] == Commits(fd, records[1..]);
      assert c.committed + [records[0]] + records[1..] == c.committed + records;
      var c' := c.(committed := c.committed + records);
      assert s'.channels[fd := c'] == s.channels[fd := c'];
    }
  }

  const FRESH: Sampler := Sampler(map[], 0, [])

  /** The accesses of the log that came from one descriptor, in log order. */
  function OnFd(log: seq<Entry>, fd: int): seq<Access>
  {
    if log == [] then []
    else
      var last := log[|log| - 1];
      OnFd(log[..|log| - 1], fd) + (if last.fd == fd then [last.event.access] else [])
  }

  lemma {:induction false} OnFdTag(log: seq<Entry>, fd: int, clock: nat -> int, from: nat, accesses: seq<Access>,
      g: int)
    ensures OnFd(log + Tag(fd, Stamp(clock, from, accesses)), g)
         == OnFd(log, g) + (if g == fd then accesses else [])
    decreases |accesses|
  {
    if accesses == [] {
      assert log + Tag(fd, Stamp(clock, from, accesses)) == log;
    } else {
      var n := |accesses| - 1;
      var log' := log + Tag(fd, Stamp(clock, from, accesses[..n]));
      var all := log + Tag(fd, Stamp(clock, from, accesses));
      OnFdTag(log, fd, clock, from, accesses[..n], g);
      assert all[..|all| - 1] == log';
      assert accesses == accesses[..n] + [accesses[n]];
    }
  }

  /** Entry i carries the clock's i-th reading. */
  ghost predicate Stamped(clock: nat -> int, log: seq<Entry>)
  {
    forall i :: 0 <= i < |log| ==> log[i].event.time == clock(i)
  }

  /** The log is an interleaving of the descriptors' filtered streams: what it holds of each
      descriptor is that descriptor's accesses as far as read, in their own order. */
  ghost predicate Interleaved(cfg: Config, s: Sampler)
    requires ChannelsOk(s)
  {
    forall fd :: OnFd(s.log, fd) == Taken(cfg, s, fd)
  }

  /** The invariant of one thread's sampling. */
  ghost predicate SamplerInv(cfg: Config, clock: nat -> int, s: Sampler)
  {
    ChannelsOk(s) && s.readings == |s.log| && Stamped(clock, s.log) && Interleaved(cfg, s)
  }

  /** The filtered stream of a descriptor, as far as it has been read. */
  function Taken(cfg: Config, s: Sampler, fd: int): seq<Access>
    requires ChannelsOk(s)
  {
    if fd in s.channels then Accesses(cfg, s.channels[fd].committed[..s.channels[fd].taken]) else []
  }

  lemma StampedStep(cfg: Config, clock: nat -> int, s: Sampler, a: ThreadAction)
    requires ChannelsOk(s) && s.readings == |s.log| && Stamped(clock, s.log)
    ensures var s' := ThreadStep(cfg, clock, s, a); s'.readings == |s'.log| && Stamped(clock, s'.log)
  {
  }

  lemma ThreadStepKeeps(cfg: Config, clock: nat -> int, s: Sampler, a: ThreadAction)
    requires SamplerInv(cfg, clock, s)
    ensures SamplerInv(cfg, clock, ThreadStep(cfg, clock, s, a))
  {
    var s' := ThreadStep(cfg, clock, s, a);
    StampedStep(cfg, clock, s, a);
    forall g
      ensures OnFd(s'.log, g) == Taken(cfg, s', g)
    {
      assert OnFd(s.log, g) == Taken(cfg, s, g);
      TakenStep(cfg, clock, s, a, g);
    }
  }

  lemma OpenStepKeeps(cfg: Config, clock: nat -> int, s: Sampler, result: OpenResult)
    requires SamplerInv(cfg, clock, s)
    ensures var s' := OpenStep(s, result);
      SamplerInv(cfg, clock, s') && s'.log == s.log && s.channels.Keys <= s'.channels.Keys
  {
    ThreadStepKeeps(cfg, clock, s, Open(result));
  }

  lemma TakenStep(cfg: Config, clock: nat -> int, s: Sampler, a: ThreadAction, g: int)
    requires ChannelsOk(s)
    ensures var s' := ThreadStep(cfg, clock, s, a);
      OnFd(s.log, g) == Taken(cfg, s, g) ==> OnFd(s'.log, g) == Taken(cfg, s', g)
  {
    match a
    case Open(result) => assert Accesses(cfg, []) == [];
    case Commit(fd, record) =>
      if fd in s.channels {
        var c := s.channels[fd];
        assert (c.committed + [record])[..c.taken] == c.committed[..c.taken];
      }
    case Signal(fd) =>
      if fd in s.channels {
        var c := s.channels[fd];
        assert c.committed[c.taken..|c.committed|] == c.committed[c.taken..];
        OnFdTag(s.log, fd, clock, s.readings, Between(cfg, c.committed, c.taken, |c.committed|), g);
        AccessesAppend(cfg, c.committed[..c.taken], c.committed[c.taken..]);
        assert c.committed[..c.taken] + c.committed[c.taken..] == c.committed;
        assert c.committed[..|c.committed|] == c.committed;
      }
  }

  lemma {:induction false} ThreadRunKeeps(cfg: Config, clock: nat -> int, s: Sampler, acts: seq<ThreadAction>)
    requires SamplerInv(cfg, clock, s)
    ensures SamplerInv(cfg, clock, ThreadRun(cfg, clock, s, acts))
    decreases |acts|
  {
    if acts != [] {
      ThreadStepKeeps(cfg, clock, s, acts[0]);
      ThreadRunKeeps(cfg, clock, ThreadStep(cfg, clock, s, acts[0]), acts[1..]);
    }
  }

  /** Over any run of openings, commits and handler runs. */
  lemma HistoryInterleaves(cfg: Config, clock: nat -> int, acts: seq<ThreadAction>)
    ensures var s := ThreadRun(cfg, clock, FRESH, acts);
      && Interleaved(cfg, s) && Stamped(clock, s.log)
      && (forall fd :: OnFd(s.log, fd) ==
           if fd in s.channels then Accesses(cfg, s.channels[fd].committed[..s.channels[fd].taken]) else [])
      && (forall i :: 0 <= i < |s.log| ==> s.log[i].event.time == clock(i))
  {
    assert Interleaved(cfg, FRESH);
    ThreadRunKeeps(cfg, clock, FRESH, acts);
    var s := ThreadRun(cfg, clock, FRESH, acts);
    forall fd
      ensures OnFd(s.log, fd) == Taken(cfg, s, fd)
    {
    }
  }

  /** The log only grows, and only what a handler run adds is new. */
  lemma HandleAppends(cfg: Config, clock: nat -> int, s: Sampler, fd: int)
    requires ChannelsOk(s)
    ensures var s' := Handle(cfg, clock, s, fd);
      && s.log <= s'.log && Events(s'.log) == Events(s.log) + Events(s'.log[|s.log|..])
      && s'.channels.Keys == s.channels.Keys
  {
    var s' := Handle(cfg, clock, s, fd);
    assert s'.log == s.log + s'.log[|s.log|..];
    EventsAppend(s.log, s'.log[|s.log|..]);
  }

  predicate Concerns(a: ThreadAction, g: int)
  {
    match a
    case Open(result) => (result.HalfOpen? || result.Opened?) && result.fd == g
    case Commit(fd, _) => fd == g
    case Signal(fd) => fd == g
  }

  /** Opening, sampling and draining other descriptors, in any order, leaves a descriptor's
      records, its read position and its part of the log alone. */
  lemma {:induction false} OthersUntouched(cfg: Config, clock: nat -> int, s: Sampler, acts: seq<ThreadAction>, g: int)
    requires ChannelsOk(s) && forall i :: 0 <= i < |acts| ==> !Concerns(acts[i], g)
    ensures var s' := ThreadRun(cfg, clock, s, acts);
      && (g in s'.channels <==> g in s.channels)
      && (g in s.channels ==> s'.channels[g] == s.channels[g])
      && OnFd(s'.log, g) == OnFd(s.log, g)
    decreases |acts|
  {
    if acts != [] {
      assert !Concerns(acts[0], g);
      OtherUntouched(cfg, clock, s, acts[0], g);
      OthersUntouched(cfg, clock, ThreadStep(cfg, clock, s, acts[0]), acts[1..], g);
    }
  }

  lemma OtherUntouched(cfg: Config, clock: nat -> int, s: Sampler, a: ThreadAction, g: int)
    requires ChannelsOk(s) && !Concerns(a, g)
    ensures var s' := ThreadStep(cfg, clock, s, a);
      && (g in s'.channels <==> g in s.channels)
      && (g in s.channels ==> s'.channels[g] == s.channels[g])
      && OnFd(s'.log, g) == OnFd(s.log, g)
  {
    if a.Signal? && a.fd in s.channels {
      var c := s.channels[a.fd];
      OnFdTag(s.log, a.fd, clock, s.readings, Between(cfg, c.committed, c.taken, |c.committed|), g);
    }
  }

  // ---- conservation ----

  function Count(c: seq<Record>, kind: Kind): nat
    requires AllWellFormed(c)
  {
    if c == [] then 0
    else Count(c[..|c| - 1], kind) + (if KindOf(c[|c| - 1]) == kind then 1 else 0)
  }

  lemma {:induction false} CountAll(cfg: Config, c: seq<Record>)
    requires AllWellFormed(c)
    ensures |c| == Count(c, AddressSample) + Count(c, ZeroAddress) + Count(c, Throttle)
                   + Count(c, Unthrottle) + Count(c, Unknown)
    ensures |Accesses(cfg, c)| == Count(c, AddressSample)
  {
    if c != [] {
      CountAll(cfg, c[..|c| - 1]);
    }
  }

  /** Every record read is an event in the history, a sample without address, a throttle, an
      unthrottle or an unknown record; none is counted twice and none disappears. */
  lemma RecordsConserved(cfg: Config, clock: nat -> int, acts: seq<ThreadAction>, fd: int)
    ensures var s := ThreadRun(cfg, clock, FRESH, acts);
      fd in s.channels ==>
        var read := s.channels[fd].committed[..s.channels[fd].taken];
        s.channels[fd].taken == |OnFd(s.log, fd)| + Count(read, ZeroAddress) + Count(read, Throttle)
                                + Count(read, Unthrottle) + Count(read, Unknown)
  {
    HistoryInterleaves(cfg, clock, acts);
    var s := ThreadRun(cfg, clock, FRESH, acts);
    if fd in s.channels {
      assert OnFd(s.log, fd) == Taken(cfg, s, fd);
      CountAll(cfg, s.channels[fd].committed[..s.channels[fd].taken]);
    }
  }

  // ---- time ----

  ghost predicate Monotone(clock: nat -> int)
  {
    forall i: nat, j: nat :: i <= j ==> clock(i) <= clock(j)
  }

  predicate TimeOrdered(events: seq<AccessEvent>)
  {
    forall i, j :: 0 <= i <= j < |events| ==> events[i].time <= events[j].time
  }

  /** The n newest events: what a ring buffer of n events holds after all of `events`. */
  function Newest(events: seq<AccessEvent>, n: nat): (w: seq<AccessEvent>)
    ensures |w| == if |events| <= n then |events| else n
    ensures w == events[|events| - |w|..]
  {
    if |events| <= n then events else events[|events| - n..]
  }

  datatype Point = Point(time: int, address: nat)

  /** What `get_all_values` writes for one access type. */
  function Series(t: AccessType, events: seq<AccessEvent>): seq<Point>
  {
    if events == [] then []
    else
      var last := events[|events| - 1];
      Series(t, events[..|events| - 1])
      + (if last.access.accessType == t then [Point(last.time, last.access.address)] else [])
  }

  /** The outcome of `get_all_values`: the points written, whether the overwrite message
      appears, and the number printed; or the exception of `.at`, or the message about a thread
      without a buffer. */
  datatype Values = NoSuchThread | NoBuffer | Written(points: seq<Point>, overwritten: bool, count: nat)

  /** What the plugin's README.md:64-80 promises for a metric on a thread that appended these events. */
  function ValuesOf(cfg: Config, metric: string, appended: seq<AccessEvent>): Values
  {
    Written(Series(cfg.typeOf(metric), Newest(appended, cfg.bufferSize)), |appended| > cfg.bufferSize, |appended|)
  }

  predicate PointsOrdered(points: seq<Point>)
  {
    forall i, j :: 0 <= i <= j < |points| ==> points[i].time <= points[j].time
  }

  lemma SeriesSnoc(t: AccessType, events: seq<AccessEvent>, e: AccessEvent)
    ensures Series(t, events + [e])
         == Series(t, events) + (if e.access.accessType == t then [Point(e.time, e.access.address)] else [])
  {
    assert (events + [e])[..|events|] == events;
  }

  lemma {:induction false} SeriesLength(t: AccessType, events: seq<AccessEvent>)
    ensures |Series(t, events)| <= |events|
    ensures |Series(t, events)| == |events| <==> forall i :: 0 <= i < |events| ==> events[i].access.accessType == t
  {
    if events != [] {
      var n := |events| - 1;
      SeriesLength(t, events[..n]);
      assert forall i :: 0 <= i < n ==> events[..n][i] == events[i];
    }
  }

  predicate AllOfType(accesses: seq<Access>, t: AccessType)
  {
    forall i :: 0 <= i < |accesses| ==> accesses[i].accessType == t
  }

  /** A record is none of the samples counted, or one of type t. */
  predicate TypeIs(cfg: Config, r: Record, t: AccessType)
    requires WellFormed(r)
  {
    KindOf(r).AddressSample? ==> cfg.accessOf(MemOp(SampleDataSource(r))) == t
  }

  lemma {:induction false} AccessesOfType(cfg: Config, c: seq<Record>, t: AccessType)
    requires AllWellFormed(c)
    ensures AllOfType(Accesses(cfg, c), t) <==> forall i :: 0 <= i < |c| ==> TypeIs(cfg, c[i], t)
  {
    if c != [] {
      var n := |c| - 1;
      var last := if KindOf(c[n]).AddressSample? then [AccessOf(cfg, c[n])] else [];
      AccessesOfType(cfg, c[..n], t);
      AllOfTypeAppend(Accesses(cfg, c[..n]), last, t);
      assert TypeIs(cfg, c[n], t) <==> AllOfType(last, t) by {
        assert last != [] ==> last[0] == AccessOf(cfg, c[n]);
      }
      AllButLast(cfg, c, t);
    }
  }

  lemma AllButLast(cfg: Config, c: seq<Record>, t: AccessType)
    requires AllWellFormed(c) && c != []
    ensures var n := |c| - 1;
      (forall i :: 0 <= i < |c| ==> TypeIs(cfg, c[i], t)) <==>
        ((forall i :: 0 <= i < |c[..n]| ==> TypeIs(cfg, c[..n][i], t)) && TypeIs(cfg, c[n], t))
  {
    var n := |c| - 1;
    assert forall i :: 0 <= i < n ==> c[..n][i] == c[i];
    if forall i :: 0 <= i < |c[..n]| ==> TypeIs(cfg, c[..n][i], t) {
      assert forall i :: 0 <= i < n ==> TypeIs(cfg, c[..n][i], t);
    }
  }

  lemma AllOfTypeAppend(a: seq<Access>, b: seq<Access>, t: AccessType)
    ensures AllOfType(a + b, t) <==> AllOfType(a, t) && AllOfType(b, t)
  {
    if AllOfType(a + b, t) {
      assert forall i :: 0 <= i < |a| ==> (a + b)[i] == a[i];
      assert forall i :: 0 <= i < |b| ==> (a + b)[|a| + i] == b[i];
    }
  }

  /** The entries one descriptor has in the log are of type t. */
  predicate LoggedOfType(log: seq<Entry>, fd: int, t: AccessType)
  {
    forall i :: 0 <= i < |log| && log[i].fd == fd ==> log[i].event.access.accessType == t
  }

  lemma {:induction false} OnFdOfType(log: seq<Entry>, fd: int, t: AccessType)
    ensures AllOfType(OnFd(log, fd), t) <==> LoggedOfType(log, fd, t)
  {
    if log != [] {
      var n := |log| - 1;
      var last := if log[n].fd == fd then [log[n].event.access] else [];
      OnFdOfType(log[..n], fd, t);
      AllOfTypeAppend(OnFd(log[..n], fd), last, t);
      assert AllOfType(last, t) <==> log[n].fd == fd ==> log[n].event.access.accessType == t by {
        assert last != [] ==> last[0] == log[n].event.access;
      }
      assert forall i :: 0 <= i < n ==> log[..n][i] == log[i];
    }
  }

  /** Every sample with an address read so far, on any descriptor of the thread, is of type t. */
  ghost predicate OnlyType(cfg: Config, s: Sampler, t: AccessType)
    requires ChannelsOk(s)
  {
    forall fd :: fd in s.channels ==> OnlyTypeOn(cfg, s.channels[fd], t)
  }

  predicate OnlyTypeOn(cfg: Config, c: Channel, t: AccessType)
    requires ChannelOk(c)
  {
    forall i :: 0 <= i < c.taken ==> TypeIs(cfg, c.committed[i], t)
  }

  lemma ReadOfType(cfg: Config, c: Channel, t: AccessType)
    requires ChannelOk(c)
    ensures AllOfType(Accesses(cfg, c.committed[..c.taken]), t) <==> OnlyTypeOn(cfg, c, t)
  {
    var read := c.committed[..c.taken];
    AccessesOfType(cfg, read, t);
    assert forall i :: 0 <= i < c.taken ==> read[i] == c.committed[i];
    if forall i :: 0 <= i < |read| ==> TypeIs(cfg, read[i], t) {
      assert forall i :: 0 <= i < c.taken ==> TypeIs(cfg, read[i], t);
    }
  }

  lemma LoggedAsRead(cfg: Config, s: Sampler, fd: int, t: AccessType)
    requires ChannelsOk(s) && Interleaved(cfg, s)
    ensures LoggedOfType(s.log, fd, t) <==> fd in s.channels ==> OnlyTypeOn(cfg, s.channels[fd], t)
  {
    OnFdOfType(s.log, fd, t);
    assert OnFd(s.log, fd) == Taken(cfg, s, fd);
    if fd in s.channels {
      ReadOfType(cfg, s.channels[fd], t);
    }
  }

  lemma LengthOfType(log: seq<Entry>, t: AccessType)
    ensures |Series(t, Events(log))| == |log| <==> forall fd :: LoggedOfType(log, fd, t)
  {
    SeriesLength(t, Events(log));
    assert forall i :: 0 <= i < |log| ==> Events(log)[i] == log[i].event;
    if forall fd :: LoggedOfType(log, fd, t) {
      forall i | 0 <= i < |log|
        ensures Events(log)[i].access.accessType == t
      {
        assert LoggedOfType(log, log[i].fd, t);
      }
    }
  }

  /** What a thread has logged is all of one type exactly if what it has read is. */
  lemma LogOfType(cfg: Config, s: Sampler, t: AccessType)
    requires ChannelsOk(s) && Interleaved(cfg, s)
    ensures |Series(t, Events(s.log))| == |s.log| <==> OnlyType(cfg, s, t)
  {
    LengthOfType(s.log, t);
    forall fd
      ensures LoggedOfType(s.log, fd, t) <==> fd in s.channels ==> OnlyTypeOn(cfg, s.channels[fd], t)
    {
      LoggedAsRead(cfg, s, fd, t);
    }
  }

  // ---- one descriptor among several ----

  predicate AllOn(log: seq<Entry>, fd: int)
  {
    forall i :: 0 <= i < |log| ==> log[i].fd == fd
  }

  predicate NoneOn(log: seq<Entry>, fd: int)
  {
    forall i :: 0 <= i < |log| ==> log[i].fd != fd
  }

  lemma {:induction false} OnFdLength(log: seq<Entry>, fd: int)
    ensures |OnFd(log, fd)| <= |log|
    ensures |OnFd(log, fd)| == |log| <==> AllOn(log, fd)
    ensures OnFd(log, fd) == [] <==> NoneOn(log, fd)
  {
    if log != [] {
      var n := |log| - 1;
      OnFdLength(log[..n], fd);
      assert forall i :: 0 <= i < n ==> log[..n][i] == log[i];
    }
  }

  /** No sample with an address has been read from this descriptor. */
  predicate NoSamples(c: Channel)
    requires ChannelOk(c)
  {
    forall i :: 0 <= i < c.taken ==> !KindOf(c.committed[i]).AddressSample?
  }

  lemma {:induction false} NoAccesses(cfg: Config, c: seq<Record>)
    requires AllWellFormed(c)
    ensures Accesses(cfg, c) == [] <==> forall i :: 0 <= i < |c| ==> !KindOf(c[i]).AddressSample?
  {
    if c != [] {
      var n := |c| - 1;
      NoAccesses(cfg, c[..n]);
      assert forall i :: 0 <= i < n ==> c[..n][i] == c[i];
    }
  }

  lemma TakenNone(cfg: Config, s: Sampler, fd: int)
    requires ChannelsOk(s) && fd in s.channels
    ensures Taken(cfg, s, fd) == [] <==> NoSamples(s.channels[fd])
  {
    var c := s.channels[fd];
    NoAccesses(cfg, c.committed[..c.taken]);
    assert forall i :: 0 <= i < c.taken ==> c.committed[..c.taken][i] == c.committed[i];
  }

  /** No descriptor but this one has delivered a sample with an address. */
  ghost predicate OnlyDescriptor(s: Sampler, fd: int)
    requires ChannelsOk(s)
  {
    forall g :: g in s.channels && g != fd ==> NoSamples(s.channels[g])
  }

  lemma LogOnOne(cfg: Config, s: Sampler, fd: int)
    requires ChannelsOk(s) && Interleaved(cfg, s)
    ensures AllOn(s.log, fd) <==> forall g :: g != fd ==> Taken(cfg, s, g) == []
  {
    forall g
      ensures Taken(cfg, s, g) == [] <==> NoneOn(s.log, g)
    {
      OnFdLength(s.log, g);
      assert OnFd(s.log, g) == Taken(cfg, s, g);
    }
    if !AllOn(s.log, fd) {
      var i :| 0 <= i < |s.log| && s.log[i].fd != fd;
      assert !NoneOn(s.log, s.log[i].fd);
    } else {
      forall g | g != fd
        ensures NoneOn(s.log, g)
      {
      }
    }
  }

  /** A thread's log is as long as one descriptor's filtered stream exactly if no other
      descriptor has delivered a sample. */
  lemma LogOfDescriptor(cfg: Config, s: Sampler, fd: int)
    requires ChannelsOk(s) && Interleaved(cfg, s)
    ensures |s.log| == |Taken(cfg, s, fd)| <==> OnlyDescriptor(s, fd)
  {
    OnFdLength(s.log, fd);
    assert OnFd(s.log, fd) == Taken(cfg, s, fd);
    LogOnOne(cfg, s, fd);
    forall g
      ensures Taken(cfg, s, g) == [] <==> g in s.channels ==> NoSamples(s.channels[g])
    {
      if g in s.channels {
        TakenNone(cfg, s, g);
      }
    }
    if OnlyDescriptor(s, fd) {
      forall g | g != fd
        ensures Taken(cfg, s, g) == []
      {
      }
    }
  }

  predicate Before(points: seq<Point>, time: int)
  {
    forall i :: 0 <= i < |points| ==> points[i].time <= time
  }

  lemma OrderedSnoc(points: seq<Point>, p: Point)
    requires PointsOrdered(points) && Before(points, p.time)
    ensures PointsOrdered(points + [p]) && Before(points + [p], p.time)
  {
  }

  lemma {:induction false} SeriesOrdered(t: AccessType, events: seq<AccessEvent>)
    requires TimeOrdered(events)
    ensures PointsOrdered(Series(t, events))
    ensures events != [] ==> Before(Series(t, events), events[|events| - 1].time)
  {
    if events != [] {
      var n := |events| - 1;
      var front, last := Series(t, events[..n]), events[n];
      SeriesOrdered(t, events[..n]);
      assert Before(front, last.time) by {
        if n > 0 {
          assert events[..n][n - 1].time <= last.time;
        } else {
          assert front == [];
        }
      }
      OrderedSnoc(front, Point(last.time, last.access.address));
    }
  }

  lemma StampedOrdered(clock: nat -> int, log: seq<Entry>)
    requires Monotone(clock) && Stamped(clock, log)
    ensures TimeOrdered(Events(log))
  {
  }

  lemma NewestOrdered(events: seq<AccessEvent>, n: nat)
    requires TimeOrdered(events)
    ensures TimeOrdered(Newest(events, n))
  {
  }

  /** With a clock that never runs backwards, the series of any access type taken from the
      newest n events of a thread's history, at any moment of any run, is ordered in time. */
  lemma SeriesIsTimeSeries(cfg: Config, clock: nat -> int, acts: seq<ThreadAction>, n: nat, t: AccessType)
    requires Monotone(clock)
    ensures var points := Series(t, Newest(Events(ThreadRun(cfg, clock, FRESH, acts).log), n));
      forall i, j :: 0 <= i <= j < |points| ==> points[i].time <= points[j].time
  {
    HistoryInterleaves(cfg, clock, acts);
    var log := ThreadRun(cfg, clock, FRESH, acts).log;
    StampedOrdered(clock, log);
    NewestOrdered(Events(log), n);
    SeriesOrdered(t, Newest(Events(log), n));
  }
}
