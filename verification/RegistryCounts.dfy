/** The number `get_all_values` reports, and which events it counts. */
module RegistryCounts {
  import opened Wrappers
  import opened Records
  import opened Sampling
  import opened Registry
  import opened RegistryTheorems
  import opened RegistryRuns
  import opened RegistryDescriptors
  import opened RegistryValues

  /** The plugin's README.md:64-73 announces the number of events of one counter. In every
      reachable state, for an id of a thread that was first with its thread id: a descriptor was
      opened for it, and the number reported is that of the samples with an address read from
      this descriptor if and only if no other descriptor of the thread has delivered one. */
  lemma CountIsOfOneCounterIff(cfg: Config, threads: set<nat>, acts: seq<SysAction>, id: nat)
    ensures var s := SysRun(cfg, NoMetrics(threads), acts);
      id in s.returned && First(cfg, s, s.returned[id].0) ==>
        var t := s.returned[id].0;
        && t in s.threads && ChannelsOk(s.threads[t].sampler) && id < |s.events|
        && id in s.openings && s.openings[id].0 == t && s.openings[id].1.Opened?
        && var fd := s.openings[id].1.fd;
           && fd in s.threads[t].sampler.channels && GetAllValues(cfg, s, id).Written?
           && (GetAllValues(cfg, s, id).count == |Taken(cfg, s.threads[t].sampler, fd)|
               <==> OnlyDescriptor(s.threads[t].sampler, fd))
  {
    var s := Reached(cfg, threads, acts);
    if id in s.returned && First(cfg, s, s.returned[id].0) {
      var t := Source(cfg, s, id);
      OpeningsReached(cfg, threads, acts);
      assert AnswerOk(s, id);
      assert OpeningOk(s, id);
      assert SamplerInv(cfg, cfg.clock(t), s.threads[t].sampler);
      LogOfDescriptor(cfg, s.threads[t].sampler, s.openings[id].1.fd);
    }
  }

  /** The same by access type: the number is that of the events of the metric's type if and only
      if the thread the values come from has read no sample of another type. */
  lemma CountIsOfOneTypeIff(cfg: Config, threads: set<nat>, acts: seq<SysAction>, id: nat, f: nat)
    ensures var s := SysRun(cfg, NoMetrics(threads), acts);
      ReadsFrom(cfg, s, id, f) ==>
        && ChannelsOk(s.threads[f].sampler) && GetAllValues(cfg, s, id).Written?
        && var t := cfg.typeOf(s.returned[id].1);
           GetAllValues(cfg, s, id).count == |Series(t, Events(s.threads[f].sampler.log))|
           <==> OnlyType(cfg, s.threads[f].sampler, t)
  {
    var s := Reached(cfg, threads, acts);
    if ReadsFrom(cfg, s, id, f) {
      var g := Source(cfg, s, id);
      assert SamplerInv(cfg, cfg.clock(f), s.threads[f].sampler);
      LogOfType(cfg, s.threads[f].sampler, cfg.typeOf(s.returned[id].1));
    }
  }

  function TwoMetricCalls(a: string, b: string): seq<SysAction>
  {
    WholeCall(0, a, OpenResult.Opened(3)) + WholeCall(0, b, OpenResult.Opened(4))
  }

  /** One thread with two metrics and one sample of each. */
  function TwoMetrics(a: string, b: string, p: nat, q: nat): seq<SysAction>
    requires p < 32 && q < 32
  {
    TwoMetricCalls(a, b) + (Sampled(0, 3, SampleOf(p)) + Sampled(0, 4, SampleOf(q)))
  }

  /** Two calls on one thread. */
  lemma AfterTwoMetrics(cfg: Config, a: string, b: string) returns (s: Sys)
    ensures s == SysRun(cfg, NoMetrics({0}), TwoMetricCalls(a, b))
    ensures SamplersOk(s) && s.threads.Keys == {0} && s.returned == map[0 := (0, a), 1 := (0, b)]
    ensures s.events == [(cfg.tidOf(0), a), (cfg.tidOf(0), b)]
    ensures s.buffers == map[cfg.tidOf(0) := 0] && s.store == [[]]
    ensures s.openings == map[0 := (0, OpenResult.Opened(3)), 1 := (0, OpenResult.Opened(4))]
    ensures s.threads[0] == BOTH_OPEN
  {
    var s0 := NoMetrics({0});
    CallAlone(cfg, s0, 0, a, OpenResult.Opened(3));
    var s1 := AfterAdd(cfg, s0, 0, a, OpenResult.Opened(3));
    assert s1.threads[0] == Thread(Outside, Some(0), {3}, Sampler(map[3 := Channel([], 0)], 0, []));
    CallAlone(cfg, s1, 0, b, OpenResult.Opened(4));
    SysRunAppend(cfg, s0, WholeCall(0, a, OpenResult.Opened(3)), WholeCall(0, b, OpenResult.Opened(4)));
    s := AfterAdd(cfg, s1, 0, b, OpenResult.Opened(4));
  }

  lemma OneOfTwo(t: AccessType, e1: AccessEvent, e2: AccessEvent)
    requires e1.access.accessType == t != e2.access.accessType
    ensures |Series(t, [e1, e2])| == 1
  {
    SeriesSnoc(t, [], e1);
    SeriesSnoc(t, [e1], e2);
    assert [] + [e1] == [e1] && [e1] + [e2] == [e1, e2];
  }

  /** On this run the number reported for each of the two counters is two, and each has taken one
      sample, whatever the types. */
  lemma CountExceedsCounter(cfg: Config, a: string, b: string, p: nat, q: nat)
    requires p < 32 && q < 32
    ensures var s := SysRun(cfg, NoMetrics({0}), TwoMetrics(a, b, p, q));
      && s.returned == map[0 := (0, a), 1 := (0, b)] && |s.events| == 2 && s.threads.Keys == {0}
      && s.openings == map[0 := (0, OpenResult.Opened(3)), 1 := (0, OpenResult.Opened(4))]
      && GetAllValues(cfg, s, 0).Written? && GetAllValues(cfg, s, 0).count == 2
      && GetAllValues(cfg, s, 1).Written? && GetAllValues(cfg, s, 1).count == 2
      && ChannelsOk(s.threads[0].sampler)
      && |Taken(cfg, s.threads[0].sampler, 3)| == |Taken(cfg, s.threads[0].sampler, 4)| == 1
  {
    var s := AfterTwoSamples(cfg, a, b, p, q);
    OneSample(cfg, SampleOf(p));
    OneSample(cfg, SampleOf(q));
    SampleOfIs(p);
    SampleOfIs(q);
  }

  lemma OneSample(cfg: Config, r: Record)
    requires WellFormed(r)
    ensures |Accesses(cfg, [r])| == if KindOf(r).AddressSample? then 1 else 0
    ensures [r][..1] == [r]
  {
    AccessesSnoc(cfg, [], r);
    assert [] + [r] == [r];
  }

  /** Two counters of one type, like Load@1800 and Load@2000: the thread has read nothing but
      samples of that type, so that the number is right for the type, and it is still twice the
      number of the counter's. */
  lemma SameTypeExceedsCounter(cfg: Config, a: string, b: string, p: nat)
    requires p < 32 && cfg.typeOf(a) == cfg.accessOf(p) == cfg.typeOf(b)
    ensures var s := SysRun(cfg, NoMetrics({0}), TwoMetrics(a, b, p, p));
      && |s.events| == 2 && s.threads.Keys == {0} && ChannelsOk(s.threads[0].sampler)
      && OnlyType(cfg, s.threads[0].sampler, cfg.typeOf(a))
      && GetAllValues(cfg, s, 0).Written? && GetAllValues(cfg, s, 0).count == 2
      && |Taken(cfg, s.threads[0].sampler, 3)| == 1
  {
    var s := AfterTwoSamples(cfg, a, b, p, p);
    CountExceedsCounter(cfg, a, b, p, p);
    SampleOfIs(p);
  }

  /** With two types, only one of the two events is of the metric's. */
  lemma CountExceedsType(cfg: Config, a: string, b: string, p: nat, q: nat)
    requires p < 32 && q < 32 && cfg.typeOf(a) == cfg.accessOf(p) != cfg.accessOf(q) == cfg.typeOf(b)
    ensures var s := SysRun(cfg, NoMetrics({0}), TwoMetrics(a, b, p, q));
      && s.returned == map[0 := (0, a), 1 := (0, b)] && |s.events| == 2 && s.threads.Keys == {0}
      && GetAllValues(cfg, s, 0).Written? && GetAllValues(cfg, s, 0).count == 2
      && |Series(cfg.typeOf(a), Events(s.threads[0].sampler.log))| == 1
  {
    var s := AfterTwoSamples(cfg, a, b, p, q);
    var log := s.threads[0].sampler.log;
    assert Events(log) == [log[0].event, log[1].event];
    OneOfTwo(cfg.typeOf(a), log[0].event, log[1].event);
  }

  /** The thread with the two descriptors, before and after a sample on each. */
  const BOTH_OPEN: Thread :=
    Thread(Outside, Some(0), {3, 4}, Sampler(map[3 := Channel([], 0), 4 := Channel([], 0)], 0, []))

  function BothSampled(r1: Record, r2: Record, e1: AccessEvent, e2: AccessEvent): Thread
  {
    Thread(Outside, Some(0), {3, 4},
           Sampler(map[3 := Channel([r1], 1), 4 := Channel([r2], 1)], 2, [Entry(3, e1), Entry(4, e2)]))
  }

  lemma SampleEach(r1: Record, r2: Record, e1: AccessEvent, e2: AccessEvent)
    ensures WithSample(WithSample(BOTH_OPEN, 3, r1, e1), 4, r2, e2) == BothSampled(r1, r2, e1, e2)
    ensures WithSample(BOTH_OPEN, 3, r1, e1).sampler.channels
         == map[3 := Channel([r1], 1), 4 := Channel([], 0)]
  {
    assert BOTH_OPEN.sampler.channels[3 := Channel([r1], 1)] == map[3 := Channel([r1], 1), 4 := Channel([], 0)];
    assert map[3 := Channel([r1], 1), 4 := Channel([], 0)][4 := Channel([r2], 1)]
        == map[3 := Channel([r1], 1), 4 := Channel([r2], 1)];
    assert [] + [Entry(3, e1)] + [Entry(4, e2)] == [Entry(3, e1), Entry(4, e2)];
  }

  /** The two samples, one after the other. */
  lemma SampleBoth(cfg: Config, s: Sys, r1: Record, r2: Record) returns (e1: AccessEvent, e2: AccessEvent)
    requires SamplersOk(s) && s.store == [[]] && 0 in s.threads && s.threads[0] == BOTH_OPEN
    requires WellFormed(r1) && KindOf(r1).AddressSample? && WellFormed(r2) && KindOf(r2).AddressSample?
    ensures e1.access == AccessOf(cfg, r1) && e2.access == AccessOf(cfg, r2)
    ensures SysRun(cfg, s, Sampled(0, 3, r1) + Sampled(0, 4, r2))
         == SetThread(s, 0, BothSampled(r1, r2, e1, e2)).(store := [[e1, e2]])
  {
    e1 := FirstSample(cfg, s, 0, 3, r1);
    OnlyBuffer([], e1);
    var s1 := SetThread(s, 0, WithSample(BOTH_OPEN, 3, r1, e1)).(store := [[e1]]);
    assert SysRun(cfg, s, Sampled(0, 3, r1)) == s1;
    SampleEach(r1, r2, e1, e1);
    e2 := FirstSample(cfg, s1, 0, 4, r2);
    SampleEach(r1, r2, e1, e2);
    OnlyBuffer([e1], e2);
    assert [e1] + [e2] == [e1, e2];
    SysRunAppend(cfg, s, Sampled(0, 3, r1), Sampled(0, 4, r2));
  }

  lemma AfterTwoSamples(cfg: Config, a: string, b: string, p: nat, q: nat) returns (s2: Sys)
    requires p < 32 && q < 32
    ensures s2 == SysRun(cfg, NoMetrics({0}), TwoMetrics(a, b, p, q))
    ensures s2.threads.Keys == {0} && s2.returned == map[0 := (0, a), 1 := (0, b)]
    ensures s2.events == [(cfg.tidOf(0), a), (cfg.tidOf(0), b)] && s2.buffers == map[cfg.tidOf(0) := 0]
    ensures |s2.store| == 1 && |s2.store[0]| == 2
    ensures s2.openings == map[0 := (0, OpenResult.Opened(3)), 1 := (0, OpenResult.Opened(4))]
    ensures SamplersOk(s2)
    ensures var sampler := s2.threads[0].sampler;
      && sampler.channels == map[3 := Channel([SampleOf(p)], 1), 4 := Channel([SampleOf(q)], 1)]
      && |sampler.log| == 2 && sampler.log[0].event.access.accessType == cfg.accessOf(p)
      && sampler.log[1].event.access.accessType == cfg.accessOf(q)
  {
    var s := AfterTwoMetrics(cfg, a, b);
    SampleOfIs(p);
    SampleOfIs(q);
    var e1, e2 := SampleBoth(cfg, s, SampleOf(p), SampleOf(q));
    SysRunAppend(cfg, NoMetrics({0}), TwoMetricCalls(a, b),
                 Sampled(0, 3, SampleOf(p)) + Sampled(0, 4, SampleOf(q)));
    s2 := SetThread(s, 0, BothSampled(SampleOf(p), SampleOf(q), e1, e2)).(store := [[e1, e2]]);
  }
}
