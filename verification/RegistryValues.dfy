/** What `get_all_values` writes, for every id and every run. */
module RegistryValues {
  import opened Wrappers
  import opened Records
  import opened RecordBytes
  import opened Sampling
  import opened Registry
  import opened RegistrySafety
  import opened RegistryTheorems
  import opened RegistryRuns

  /** `get_all_values` for an id of the table, on buffers that keep the newest events. */
  function GetAllValues(cfg: Config, s: Sys, id: nat): Values
    requires id < |s.events|
  {
    var (tid, metric) := s.events[id];
    if tid !in s.buffers then NoSuchThread
    else if s.buffers[tid] >= |s.store| then NoBuffer
    else ValuesOf(cfg, metric, s.store[s.buffers[tid]])
  }

  /** The thread whose history an id's values come from: the one that inserted the buffer of the
      caller's thread id. */
  ghost predicate ReadsFrom(cfg: Config, s: Sys, id: nat, f: nat)
  {
    && id in s.returned && id < |s.events| && f in s.threads
    && cfg.tidOf(s.returned[id].0) in s.owner && s.owner[cfg.tidOf(s.returned[id].0)] == f
  }

  lemma Source(cfg: Config, s: Sys, id: nat) returns (f: nat)
    requires SysInv(cfg, s) && id in s.returned
    ensures ReadsFrom(cfg, s, id, f) && cfg.tidOf(f) == cfg.tidOf(s.returned[id].0)
    ensures First(cfg, s, s.returned[id].0) <==> f == s.returned[id].0
    ensures GetAllValues(cfg, s, id) == ValuesOf(cfg, s.returned[id].1, Events(s.threads[f].sampler.log))
  {
    assert ReturnedOk(cfg, s.events, id, s.returned[id]);
    assert s.events[id].0 in s.buffers;
    f := s.owner[cfg.tidOf(s.returned[id].0)];
  }

  /** End to end: for every id that `add_metric` returned, in every run, `get_all_values` writes,
      in order, exactly the events of the metric's access type among the newest `bufferSize`
      events that one thread logged: the thread that was first with the caller's thread id. The
      message appears exactly if some logged event is no longer held. And that thread's log is an
      interleaving of its descriptors' filtered record streams, event i stamped with the clock's
      i-th reading. */
  lemma EndToEnd(cfg: Config, threads: set<nat>, acts: seq<SysAction>, id: nat)
    ensures var s := SysRun(cfg, NoMetrics(threads), acts);
      id in s.returned ==>
        exists f :: ReadsFrom(cfg, s, id, f)
          && cfg.tidOf(f) == cfg.tidOf(s.returned[id].0)
          && (First(cfg, s, s.returned[id].0) <==> f == s.returned[id].0)
          && ChannelsOk(s.threads[f].sampler)
          && Interleaved(cfg, s.threads[f].sampler) && Stamped(cfg.clock(f), s.threads[f].sampler.log)
          && var logged := Events(s.threads[f].sampler.log);
             GetAllValues(cfg, s, id) ==
               Written(Series(cfg.typeOf(s.returned[id].1), Newest(logged, cfg.bufferSize)),
                       |logged| > cfg.bufferSize, |logged|)
  {
    var s := Reached(cfg, threads, acts);
    if id in s.returned {
      var f := Source(cfg, s, id);
      assert SamplerInv(cfg, cfg.clock(f), s.threads[f].sampler);
    }
  }

  /** The series a caller gets is ordered in time if the clock of that thread never runs
      backwards. */
  lemma EmittedInOrder(cfg: Config, threads: set<nat>, acts: seq<SysAction>, id: nat, f: nat)
    ensures var s := SysRun(cfg, NoMetrics(threads), acts);
      ReadsFrom(cfg, s, id, f) && Monotone(cfg.clock(f)) ==>
        && GetAllValues(cfg, s, id).Written?
        && var points := GetAllValues(cfg, s, id).points;
           forall i, j :: 0 <= i <= j < |points| ==> points[i].time <= points[j].time
  {
    var s := Reached(cfg, threads, acts);
    if ReadsFrom(cfg, s, id, f) && Monotone(cfg.clock(f)) {
      var g := Source(cfg, s, id);
      assert SamplerInv(cfg, cfg.clock(f), s.threads[f].sampler);
      var logged := Events(s.threads[f].sampler.log);
      StampedOrdered(cfg.clock(f), s.threads[f].sampler.log);
      NewestOrdered(logged, cfg.bufferSize);
      SeriesOrdered(cfg.typeOf(s.returned[id].1), Newest(logged, cfg.bufferSize));
    }
  }

  // ---- whose values they are ----

  /** The values are those of the thread that asked for the id. */
  ghost predicate OwnValues(cfg: Config, s: Sys, id: nat)
  {
    && id in s.returned && id < |s.events| && s.returned[id].0 in s.threads
    && GetAllValues(cfg, s, id)
       == ValuesOf(cfg, s.returned[id].1, Events(s.threads[s.returned[id].0].sampler.log))
  }

  /** A thread with an answer has an open descriptor whose counter runs. */
  predicate HasOpen(thread: Thread, fd: int)
  {
    fd in thread.enabled && fd in thread.sampler.channels
  }

  ghost predicate ReturnedOpen(s: Sys)
  {
    forall id :: id in s.returned && s.returned[id].0 in s.threads ==>
      exists fd :: HasOpen(s.threads[s.returned[id].0], fd)
  }

  lemma StepOpens(cfg: Config, s: Sys, a: SysAction, u: nat, fd: int)
    requires SamplersOk(s) && u in s.threads && HasOpen(s.threads[u], fd)
    ensures var s' := SysStep(cfg, s, a); u in s'.threads && HasOpen(s'.threads[u], fd)
  {
    if a.Advance? && a.t in s.threads {
      AdvanceOpens(cfg, s, a.t, u, fd);
    } else {
      OtherOpens(cfg, s, a, u, fd);
    }
  }

  lemma AdvanceOpens(cfg: Config, s: Sys, t: nat, u: nat, fd: int)
    requires t in s.threads && u in s.threads && HasOpen(s.threads[u], fd)
    ensures var s' := AdvanceStep(cfg, s, t); u in s'.threads && HasOpen(s'.threads[u], fd)
  {
    AdvanceFrame(cfg, s, t, u);
  }

  lemma AdvanceFrame(cfg: Config, s: Sys, t: nat, u: nat)
    requires t in s.threads && u in s.threads
    ensures var s' := AdvanceStep(cfg, s, t);
      && u in s'.threads && s'.threads[u].sampler == s.threads[u].sampler
      && s.threads[u].enabled <= s'.threads[u].enabled
  {
    if u == t {
      AdvanceThread(cfg, s, t);
    } else {
      assert AdvanceStep(cfg, s, t).threads[u] == s.threads[u];
    }
  }

  lemma AdvanceThread(cfg: Config, s: Sys, t: nat)
    requires t in s.threads
    ensures var s' := AdvanceStep(cfg, s, t);
      && t in s'.threads && s'.threads[t].sampler == s.threads[t].sampler
      && s.threads[t].enabled <= s'.threads[t].enabled
  {
    var s' := AdvanceStep(cfg, s, t);
    if !s.threads[t].pc.Opened? {
      assert s'.threads[t].enabled == s.threads[t].enabled;
    }
  }

  lemma OtherOpens(cfg: Config, s: Sys, a: SysAction, u: nat, fd: int)
    requires SamplersOk(s) && u in s.threads && HasOpen(s.threads[u], fd) && (a.Advance? ==> a.t !in s.threads)
    ensures var s' := SysStep(cfg, s, a); u in s'.threads && HasOpen(s'.threads[u], fd)
  {
  }

  lemma NewAnswer(cfg: Config, s: Sys, a: SysAction, id: nat)
    requires SysInv(cfg, s) && SamplersOk(s)
    ensures var s' := SysStep(cfg, s, a);
      id in s'.returned && id !in s.returned ==>
        var t := s'.returned[id].0;
        t in s'.threads && exists fd :: HasOpen(s'.threads[t], fd)
  {
    if a.Advance? && a.t in s.threads {
      if s.threads[a.t].pc.Opened? {
        var t := a.t;
        assert ThreadOk(cfg, s.buffers, s.owner, t, s.threads[t]);
        SomeKey(s.threads[t].sampler.channels);
        var fd :| fd in s.threads[t].sampler.channels;
        assert HasOpen(AdvanceStep(cfg, s, t).threads[t], fd);
      } else {
        NoAnswer(cfg, s, a.t);
      }
    } else {
      RegistryUntouched(cfg, s, a);
    }
  }

  lemma NoAnswer(cfg: Config, s: Sys, t: nat)
    requires t in s.threads && !s.threads[t].pc.Opened?
    ensures AdvanceStep(cfg, s, t).returned == s.returned
  {
  }

  lemma SomeKey(channels: map<int, Channel>)
    ensures channels == map[] || exists fd :: fd in channels
  {
    if forall fd :: fd !in channels {
      assert channels == map[];
    }
  }

  lemma StepReturnedOpen(cfg: Config, s: Sys, a: SysAction)
    requires SysInv(cfg, s) && SamplersOk(s) && ReturnedOpen(s)
    ensures ReturnedOpen(SysStep(cfg, s, a))
  {
    var s' := SysStep(cfg, s, a);
    StepExtends(cfg, s, a);
    StepThreads(cfg, s, a);
    forall id | id in s'.returned && s'.returned[id].0 in s'.threads
      ensures exists fd :: HasOpen(s'.threads[s'.returned[id].0], fd)
    {
      if id in s.returned {
        var fd :| HasOpen(s.threads[s.returned[id].0], fd);
        StepOpens(cfg, s, a, s.returned[id].0, fd);
      } else {
        NewAnswer(cfg, s, a, id);
      }
    }
  }

  lemma {:induction false} RunReturnedOpen(cfg: Config, s: Sys, acts: seq<SysAction>)
    requires SysInv(cfg, s) && SamplersOk(s) && ReturnedOpen(s)
    ensures ReturnedOpen(SysRun(cfg, s, acts))
    decreases |acts|
  {
    if acts != [] {
      StepReturnedOpen(cfg, s, acts[0]);
      SysStepKeeps(cfg, s, acts[0]);
      RunReturnedOpen(cfg, SysStep(cfg, s, acts[0]), acts[1..]);
    }
  }

  /** A thread that was first stays it, and its ids give its own values for ever. */
  lemma FirstKeepsValues(cfg: Config, s: Sys, id: nat, more: seq<SysAction>)
    requires SysInv(cfg, s) && SamplersOk(s) && id in s.returned && First(cfg, s, s.returned[id].0)
    ensures OwnValues(cfg, SysRun(cfg, s, more), id)
  {
    RunExtends(cfg, s, more);
    SysRunKeeps(cfg, s, more);
    var f := Source(cfg, SysRun(cfg, s, more), id);
  }

  /** On a thread that was not first the next sample parts its history from the values. */
  lemma SampleParts(cfg: Config, s: Sys, id: nat, fd: int, r: Record)
    requires SysInv(cfg, s) && SamplersOk(s) && id in s.returned && !First(cfg, s, s.returned[id].0)
    requires s.returned[id].0 in s.threads && HasOpen(s.threads[s.returned[id].0], fd)
    requires WellFormed(r) && KindOf(r).AddressSample? && OwnValues(cfg, s, id)
    ensures !OwnValues(cfg, SysRun(cfg, s, Sampled(s.returned[id].0, fd, r)), id)
  {
    var t := s.returned[id].0;
    var f := Source(cfg, s, id);
    assert ThreadOk(cfg, s.buffers, s.owner, t, s.threads[t]);
    SampleAlone(cfg, s, t, fd, r);
    var s' := AfterSample(cfg, s, t, fd, r);
    SysRunKeeps(cfg, s, Sampled(t, fd, r));
    var g := Source(cfg, s', id);
    assert |s'.threads[t].sampler.log| > |s.threads[t].sampler.log|;
  }

  /** They are its own now and in every continuation of the run. */
  ghost predicate AlwaysOwn(cfg: Config, s: Sys, id: nat)
    requires SamplersOk(s)
  {
    forall more :: OwnAfter(cfg, s, more, id)
  }

  ghost predicate OwnAfter(cfg: Config, s: Sys, more: seq<SysAction>, id: nat)
    requires SamplersOk(s)
  {
    OwnValues(cfg, SysRun(cfg, s, more), id)
  }

  lemma SomeSample() returns (r: Record)
    ensures WellFormed(r) && KindOf(r).AddressSample?
  {
    r := SampleOf(0);
    SampleOfIs(0);
  }

  lemma SampledBy(t: nat, fd: int, r: Record)
    ensures AllBy(Sampled(t, fd, r), t)
  {
  }

  /** A thread that was not first is at once, or one sample away from, not seeing its own. */
  lemma NotOwnSoon(cfg: Config, s: Sys, id: nat) returns (more: seq<SysAction>)
    requires SysInv(cfg, s) && SamplersOk(s) && ReturnedOpen(s)
    requires id in s.returned && s.returned[id].0 in s.threads && !First(cfg, s, s.returned[id].0)
    ensures AllBy(more, s.returned[id].0) && !OwnAfter(cfg, s, more, id)
  {
    if OwnValues(cfg, s, id) {
      var fd :| HasOpen(s.threads[s.returned[id].0], fd);
      var r := SomeSample();
      SampleParts(cfg, s, id, fd, r);
      SampledBy(s.returned[id].0, fd, r);
      more := Sampled(s.returned[id].0, fd, r);
    } else {
      more := [];
    }
  }

  lemma AnswersReached(cfg: Config, threads: set<nat>, acts: seq<SysAction>) returns (s: Sys)
    ensures s == SysRun(cfg, NoMetrics(threads), acts) && SysInv(cfg, s) && ReturnedOpen(s)
    ensures forall id :: id in s.returned ==> s.returned[id].0 in s.threads
  {
    s := Reached(cfg, threads, acts);
    NoMetricsInv(cfg, threads);
    RunReturnedOpen(cfg, NoMetrics(threads), acts);
  }

  /** The values of an id are its own thread's in every continuation of the run if and only if
      the thread was the first with its thread id. */
  lemma OwnValuesIff(cfg: Config, threads: set<nat>, acts: seq<SysAction>, id: nat)
    ensures var s := SysRun(cfg, NoMetrics(threads), acts);
      id in s.returned ==> (First(cfg, s, s.returned[id].0) <==> AlwaysOwn(cfg, s, id))
  {
    var s := AnswersReached(cfg, threads, acts);
    if id in s.returned {
      if First(cfg, s, s.returned[id].0) {
        forall more
          ensures OwnAfter(cfg, s, more, id)
        {
          FirstKeepsValues(cfg, s, id, more);
        }
      } else {
        var more := NotOwnSoon(cfg, s, id);
      }
    }
  }

  /** The same over the continuations that are possible, as long as the thread has not ended: no
      other thread of its id has acted after it. */
  lemma OwnValuesIffPossible(cfg: Config, threads: set<nat>, acts: seq<SysAction>, id: nat)
    ensures var s := SysRun(cfg, NoMetrics(threads), acts);
      id in s.returned && Possible(cfg, acts + [Advance(s.returned[id].0)]) ==>
        (First(cfg, s, s.returned[id].0) <==> PossiblyOwn(cfg, acts, s, id))
  {
    var s := AnswersReached(cfg, threads, acts);
    OwnValuesIff(cfg, threads, acts, id);
    if id in s.returned && Possible(cfg, acts + [Advance(s.returned[id].0)]) && !First(cfg, s, s.returned[id].0) {
      var more := NotOwnSoon(cfg, s, id);
      MoreBy(cfg, acts, more, s.returned[id].0);
    }
  }

  ghost predicate PossiblyOwn(cfg: Config, acts: seq<SysAction>, s: Sys, id: nat)
    requires SamplersOk(s)
  {
    forall more {:trigger OwnAfter(cfg, s, more, id)} :: Possible(cfg, acts + more) ==> OwnAfter(cfg, s, more, id)
  }

  /** A thread that may act once may act on. */
  lemma MoreBy(cfg: Config, acts: seq<SysAction>, more: seq<SysAction>, t: nat)
    requires Possible(cfg, acts + [Advance(t)]) && AllBy(more, t)
    ensures Possible(cfg, acts + more)
  {
    var all, one := acts + more, acts + [Advance(t)];
    forall i, j, k | 0 <= i < j < k < |all| && all[k].t == all[i].t && cfg.tidOf(all[j].t) == cfg.tidOf(all[i].t)
      ensures all[j].t == all[i].t
    {
      var k' := if k < |acts| then k else |acts|;
      if j < |acts| {
        assert one[i].t == all[i].t && one[j].t == all[j].t && one[k'].t == all[k].t;
      }
    }
  }

  /** The first thread registers and samples, and ends; the second one of its thread id
      registers. */
  function FirstThenSecond(event: string, r: Record): seq<SysAction>
  {
    (WholeCall(0, event, OpenResult.Opened(3)) + Sampled(0, 3, r)) + WholeCall(1, event, OpenResult.Opened(4))
  }

  /** The second thread's id then reports the first thread's event; the second has none. */
  lemma SecondReportsFirst(cfg: Config, event: string, r: Record)
    requires cfg.tidOf(0) == cfg.tidOf(1) && WellFormed(r) && KindOf(r).AddressSample?
    ensures Possible(cfg, FirstThenSecond(event, r))
    ensures var s := SysRun(cfg, NoMetrics({0, 1}), FirstThenSecond(event, r));
      && s.returned == map[0 := (0, event), 1 := (1, event)] && |s.events| == 2 && s.threads.Keys == {0, 1}
      && s.threads[1].sampler.log == [] && |s.threads[0].sampler.log| == 1
      && GetAllValues(cfg, s, 1) == ValuesOf(cfg, event, Events(s.threads[0].sampler.log))
      && GetAllValues(cfg, s, 1).count == 1
  {
    var first, second := WholeCall(0, event, OpenResult.Opened(3)), WholeCall(1, event, OpenResult.Opened(4));
    WholeCallBy(0, event, OpenResult.Opened(3));
    WholeCallBy(1, event, OpenResult.Opened(4));
    AllByAppend(first, Sampled(0, 3, r), 0);
    OneAfterAnother(cfg, first + Sampled(0, 3, r), second, 0, 1);
    var s0 := NoMetrics({0, 1});
    var s2 := AfterFirst(cfg, event, r);
    CallAlone(cfg, s2, 1, event, OpenResult.Opened(4));
    AfterAddIs(cfg, s2, 1, event, OpenResult.Opened(4));
    SysRunAppend(cfg, s0, first + Sampled(0, 3, r), second);
  }

  lemma AfterOneCall(cfg: Config, event: string) returns (s: Sys)
    ensures s == SysRun(cfg, NoMetrics({0, 1}), WholeCall(0, event, OpenResult.Opened(3))) && SamplersOk(s)
    ensures s.threads == map[0 := Thread(Outside, Some(0), {3}, Sampler(map[3 := Channel([], 0)], 0, [])),
                             1 := Thread(Outside, None, {}, FRESH)]
    ensures s.holder.None? && s.returned == map[0 := (0, event)] && s.events == [(cfg.tidOf(0), event)]
    ensures s.buffers == map[cfg.tidOf(0) := 0] && s.store == [[]]
  {
    var s0 := NoMetrics({0, 1});
    CallAlone(cfg, s0, 0, event, OpenResult.Opened(3));
    s := AfterAdd(cfg, s0, 0, event, OpenResult.Opened(3));
    AfterAddIs(cfg, s0, 0, event, OpenResult.Opened(3));
    assert s.threads[0] == Thread(Outside, Some(0), {3}, Sampler(map[3 := Channel([], 0)], 0, []));
  }

  lemma AfterFirst(cfg: Config, event: string, r: Record) returns (s: Sys)
    requires WellFormed(r) && KindOf(r).AddressSample?
    ensures s == SysRun(cfg, NoMetrics({0, 1}), WholeCall(0, event, OpenResult.Opened(3)) + Sampled(0, 3, r))
    ensures SamplersOk(s) && s.threads.Keys == {0, 1} && s.holder.None?
    ensures s.threads[1] == Thread(Outside, None, {}, FRESH)
    ensures s.returned == map[0 := (0, event)] && s.events == [(cfg.tidOf(0), event)]
    ensures s.buffers == map[cfg.tidOf(0) := 0] && |s.threads[0].sampler.log| == 1
    ensures s.threads[0].sampler.log == [Entry(3, AccessEvent(cfg.clock(0)(0), AccessOf(cfg, r)))]
    ensures s.store == [Events(s.threads[0].sampler.log)]
  {
    var s1 := AfterOneCall(cfg, event);
    var e := FirstSample(cfg, s1, 0, 3, r);
    OnlyBuffer([], e);
    SysRunAppend(cfg, NoMetrics({0, 1}), WholeCall(0, event, OpenResult.Opened(3)), Sampled(0, 3, r));
    s := SetThread(s1, 0, WithSample(s1.threads[0], 3, r, e)).(store := [[e]]);
    OneEvent(3, e);
  }

  /** One call, one sample: what `get_all_values` writes is the address the kernel put into the
      record, at the clock's first reading, if the operation is of the metric's type. */
  lemma OneSampleIsWritten(cfg: Config, event: string, misc: nat, ip: nat, address: nat,
                           op: nat, level: nat, above: nat)
    requires ip < 0x1_0000_0000_0000_0000 && 0 < address < 0x1_0000_0000_0000_0000
    requires op < 32 && level < 16384 && DataSource(op, level, above) < 0x1_0000_0000_0000_0000
    ensures var r := SampleWith(misc, ip, address, DataSource(op, level, above));
      var s := SysRun(cfg, NoMetrics({0, 1}), WholeCall(0, event, OpenResult.Opened(3)) + Sampled(0, 3, r));
      var fits := cfg.bufferSize >= 1 && cfg.typeOf(event) == cfg.accessOf(op);
      && s.returned == map[0 := (0, event)] && |s.events| == 1
      && GetAllValues(cfg, s, 0)
         == Written(if fits then [Point(cfg.clock(0)(0), address)] else [], cfg.bufferSize == 0, 1)
  {
    var r := SampleWith(misc, ip, address, DataSource(op, level, above));
    SampleRoundTrip(cfg, misc, ip, address, op, level, above);
    FirstIsWritten(cfg, event, r);
  }

  lemma FirstIsWritten(cfg: Config, event: string, r: Record)
    requires WellFormed(r) && KindOf(r).AddressSample?
    ensures var s := SysRun(cfg, NoMetrics({0, 1}), WholeCall(0, event, OpenResult.Opened(3)) + Sampled(0, 3, r));
      && s.returned == map[0 := (0, event)] && |s.events| == 1
      && GetAllValues(cfg, s, 0) == OnlyValue(cfg, event, AccessEvent(cfg.clock(0)(0), AccessOf(cfg, r)))
  {
    var s := AfterFirst(cfg, event, r);
    var e := AccessEvent(cfg.clock(0)(0), AccessOf(cfg, r));
    assert Events([Entry(3, e)]) == [e];
    OnlyEvent(cfg, event, e);
  }

  /** What is written for a buffer that has seen one event. */
  function OnlyValue(cfg: Config, metric: string, e: AccessEvent): Values
  {
    var points := if cfg.bufferSize >= 1 && cfg.typeOf(metric) == e.access.accessType
                  then [Point(e.time, e.access.address)] else [];
    Written(points, cfg.bufferSize == 0, 1)
  }

  lemma OnlyEvent(cfg: Config, metric: string, e: AccessEvent)
    ensures ValuesOf(cfg, metric, [e]) == OnlyValue(cfg, metric, e)
  {
    SeriesOfOne(cfg.typeOf(metric), e);
    NewestOfOne(e, cfg.bufferSize);
  }

  lemma SeriesOfOne(t: AccessType, e: AccessEvent)
    ensures Series(t, [e]) == if e.access.accessType == t then [Point(e.time, e.access.address)] else []
    ensures Series(t, []) == []
  {
    SeriesSnoc(t, [], e);
    assert [] + [e] == [e];
  }

  lemma NewestOfOne(e: AccessEvent, n: nat)
    ensures Newest([e], n) == if n >= 1 then [e] else []
  {
  }

  lemma OneEvent(fd: int, e: AccessEvent)
    ensures Events([] + [Entry(fd, e)]) == [e]
  {
  }
}
