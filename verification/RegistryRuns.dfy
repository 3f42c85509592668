/** Whole calls and samples that nothing interrupts, and the runs put together from them. */
module RegistryRuns {
  import opened Wrappers
  import opened Records
  import opened Sampling
  import opened Registry
  import opened RegistryTheorems

  function Advances(t: nat, n: nat): (acts: seq<SysAction>)
    ensures |acts| == n
  {
    seq(n, _ => Advance(t))
  }

  /** All statements of one `add_metric` on thread t; the last one is not reached if opening
      fails. */
  function WholeCall(t: nat, event: string, result: OpenResult): seq<SysAction>
  {
    [Call(t, event)] + (Advances(t, 5) + ([OpenEvent(t, result)] + Advances(t, 1)))
  }

  /** The first half of a call under the lock: the buffer if its thread id has none, and the
      thread-local pointer. */
  function AfterBuffer(cfg: Config, s: Sys, t: nat, event: string): Sys
    requires t in s.threads
  {
    var tid := cfg.tidOf(t);
    var thread := Moved(s.threads[t], Ready(event));
    if tid !in s.buffers then InsertStep(s, t, tid, thread.(eventData := Some(|s.store|)))
    else SetThread(s, t, thread)
  }

  /** The second half: the table entry and the unlocking. */
  function AfterEntry(cfg: Config, s: Sys, t: nat, event: string): Sys
    requires t in s.threads
  {
    SetThread(s, t, Moved(s.threads[t], Unlocked(event, |s.events|))).(
      holder := None, events := s.events + [(cfg.tidOf(t), event)])
  }

  /** The state such a call leaves: with the id returned and everything the thread has enabled,
      or, if `event_open` failed, with an id and an entry nobody has asked for. */
  function AfterAdd(cfg: Config, s: Sys, t: nat, event: string, result: OpenResult): Sys
    requires t in s.threads && SamplersOk(s)
  {
    var r := AfterEntry(cfg, AfterBuffer(cfg, s, t, event), t, event);
    var thread := OpenThread(r.threads[t], result);
    var r' := r.(openings := s.openings[|s.events| := (t, result)]);
    if result.Opened? then Registry.ReturnStep(r', t, EnableAll(Moved(thread, Outside)), event, |s.events|)
    else SetThread(r', t, thread).(failed := s.failed + {|s.events|})
  }

  lemma RunCons(cfg: Config, s: Sys, a: SysAction, rest: seq<SysAction>)
    requires SamplersOk(s)
    ensures SysRun(cfg, s, [a] + rest) == SysRun(cfg, SysStep(cfg, s, a), rest)
  {
    assert ([a] + rest)[1..] == rest;
  }

  lemma RunAdvance(cfg: Config, s: Sys, t: nat, n: nat)
    requires SamplersOk(s) && t in s.threads && n >= 1
    ensures SysRun(cfg, s, Advances(t, n)) == SysRun(cfg, SysStep(cfg, s, Advance(t)), Advances(t, n - 1))
    ensures SysStep(cfg, s, Advance(t)) == AdvanceStep(cfg, s, t)
  {
    assert Advances(t, n)[1..] == Advances(t, n - 1);
  }

  lemma BufferSteps(cfg: Config, s: Sys, t: nat, event: string)
    requires SamplersOk(s) && t in s.threads && s.threads[t].pc == Locked(event)
    ensures var s1 := AdvanceStep(cfg, s, t);
      t in s1.threads && SamplersOk(s1) && AdvanceStep(cfg, s1, t) == AfterBuffer(cfg, s, t, event)
  {
    var s1 := AdvanceStep(cfg, s, t);
    assert AdvanceStep(cfg, s1, t).threads == AfterBuffer(cfg, s, t, event).threads;
  }

  lemma BufferAlone(cfg: Config, s: Sys, t: nat, event: string)
    requires SamplersOk(s) && t in s.threads && s.threads[t].pc == Locked(event)
    ensures SysRun(cfg, s, Advances(t, 2)) == AfterBuffer(cfg, s, t, event)
  {
    BufferSteps(cfg, s, t, event);
    RunAdvance(cfg, s, t, 2);
    RunAdvance(cfg, AdvanceStep(cfg, s, t), t, 1);
  }

  lemma EntryAlone(cfg: Config, s: Sys, t: nat, event: string)
    requires SamplersOk(s) && t in s.threads && s.threads[t].pc == Ready(event)
    ensures SysRun(cfg, s, Advances(t, 3)) == AfterEntry(cfg, s, t, event)
  {
    RunAdvance(cfg, s, t, 3);
    var s1 := AdvanceStep(cfg, s, t);
    RunAdvance(cfg, s1, t, 2);
    RunAdvance(cfg, AdvanceStep(cfg, s1, t), t, 1);
  }

  lemma RegisterAlone(cfg: Config, s: Sys, t: nat, event: string)
    requires SamplersOk(s) && t in s.threads && s.threads[t].pc == Locked(event)
    ensures SamplersOk(AfterBuffer(cfg, s, t, event))
    ensures SysRun(cfg, s, Advances(t, 5)) == AfterEntry(cfg, AfterBuffer(cfg, s, t, event), t, event)
  {
    BufferAlone(cfg, s, t, event);
    EntryAlone(cfg, AfterBuffer(cfg, s, t, event), t, event);
    assert Advances(t, 5) == Advances(t, 2) + Advances(t, 3);
    SysRunAppend(cfg, s, Advances(t, 2), Advances(t, 3));
  }

  /** `event_open` and the end of the call. */
  lemma OpenAlone(cfg: Config, s: Sys, t: nat, result: OpenResult)
    requires SamplersOk(s) && t in s.threads && s.threads[t].pc.Unlocked?
    ensures var pc := s.threads[t].pc;
      var thread := OpenThread(s.threads[t], result);
      var s' := s.(openings := s.openings[pc.id := (t, result)]);
      SysRun(cfg, s, [OpenEvent(t, result)] + Advances(t, 1)) ==
        if result.Opened? then Registry.ReturnStep(s', t, EnableAll(Moved(thread, Outside)), pc.event, pc.id)
        else SetThread(s', t, thread).(failed := s.failed + {pc.id})
  {
    RunCons(cfg, s, OpenEvent(t, result), Advances(t, 1));
    RunAdvance(cfg, SysStep(cfg, s, OpenEvent(t, result)), t, 1);
  }

  /** Once the mutex is released, taking it has left nothing behind. */
  lemma LockLeavesNoTrace(cfg: Config, s: Sys, t: nat, event: string)
    requires SamplersOk(s) && t in s.threads && s.threads[t].pc.Outside? && s.holder.None?
    ensures var s1 := SysStep(cfg, s, Call(t, event));
      var r := AfterEntry(cfg, AfterBuffer(cfg, s, t, event), t, event);
      && t in s1.threads && s1.threads[t].pc == Locked(event) && SamplersOk(s1)
      && AfterEntry(cfg, AfterBuffer(cfg, s1, t, event), t, event) == r
      && t in r.threads && r.threads[t].pc == Unlocked(event, |s.events|)
      && r.threads[t].sampler == s.threads[t].sampler && SamplersOk(r)
  {
    var s1 := SysStep(cfg, s, Call(t, event));
    var r := AfterEntry(cfg, AfterBuffer(cfg, s, t, event), t, event);
    var r1 := AfterEntry(cfg, AfterBuffer(cfg, s1, t, event), t, event);
    assert r1.threads == r.threads;
  }

  /** The whole effect of a call that no other thread interrupts, for every outcome of the
      system calls in `event_open`. */
  lemma CallAlone(cfg: Config, s: Sys, t: nat, event: string, result: OpenResult)
    requires SamplersOk(s) && t in s.threads && s.threads[t].pc.Outside? && s.holder.None?
    ensures SysRun(cfg, s, WholeCall(t, event, result)) == AfterAdd(cfg, s, t, event, result)
  {
    var tail := [OpenEvent(t, result)] + Advances(t, 1);
    var s1 := SysStep(cfg, s, Call(t, event));
    RunCons(cfg, s, Call(t, event), Advances(t, 5) + tail);
    SysRunAppend(cfg, s1, Advances(t, 5), tail);
    RegisterAlone(cfg, s1, t, event);
    LockLeavesNoTrace(cfg, s, t, event);
    OpenAlone(cfg, AfterEntry(cfg, AfterBuffer(cfg, s, t, event), t, event), t, result);
  }

  /** That state, field by field. */
  lemma AfterAddIs(cfg: Config, s: Sys, t: nat, event: string, result: OpenResult)
    requires t in s.threads && SamplersOk(s)
    ensures var s', tid, thread := AfterAdd(cfg, s, t, event, result), cfg.tidOf(t), s.threads[t];
      var known := tid in s.buffers;
      && SamplersOk(s') && s'.holder.None? && s'.events == s.events + [(tid, event)]
      && s'.buffers == (if known then s.buffers else s.buffers[tid := |s.store|])
      && s'.owner == (if known then s.owner else s.owner[tid := t])
      && s'.store == (if known then s.store else s.store + [[]])
      && s'.returned == (if result.Opened? then s.returned[|s.events| := (t, event)] else s.returned)
      && s'.failed == (if result.Opened? then s.failed else s.failed + {|s.events|})
      && s'.openings == s.openings[|s.events| := (t, result)]
      && s'.threads == s.threads[t := s'.threads[t]]
      && s'.threads[t].pc.Outside? && s'.threads[t].sampler == OpenStep(thread.sampler, result)
      && s'.threads[t].eventData == (if known then thread.eventData else Some(|s.store|))
      && s'.threads[t].enabled
         == thread.enabled + (if result.Opened? then s'.threads[t].sampler.channels.Keys else {})
  {
  }

  /** A failing `event_open` uses its id up: this run leaves an entry in the table, no answer,
      and no call in progress. */
  lemma FailedCallKeepsId(cfg: Config, event: string, result: OpenResult)
    requires !result.Opened?
    ensures var s := SysRun(cfg, NoMetrics({0}), WholeCall(0, event, result));
      && s.events == [(cfg.tidOf(0), event)] && s.failed == {0} && s.returned == map[]
      && forall t :: t in s.threads ==> s.threads[t].pc.Outside?
  {
    CallAlone(cfg, NoMetrics({0}), 0, event, result);
  }

  // ---- one sample ----

  /** The kernel adds a record to a ring of the thread exactly while its descriptor is enabled. */
  lemma CommitsIffEnabled(cfg: Config, s: Sys, t: nat, fd: int, r: Record)
    requires SamplersOk(s) && t in s.threads && fd in s.threads[t].sampler.channels && WellFormed(r)
    ensures var s' := SysStep(cfg, s, KernelCommit(t, fd, r));
      if fd in s.threads[t].enabled then
        && t in s'.threads && fd in s'.threads[t].sampler.channels
        && s'.threads[t].sampler.channels[fd].committed == s.threads[t].sampler.channels[fd].committed + [r]
      else s' == s
  {
  }

  /** The kernel commits a record and the handler runs. */
  function Sampled(t: nat, fd: int, r: Record): seq<SysAction>
  {
    [KernelCommit(t, fd, r), HandleSignal(t, fd)]
  }

  /** The accesses such a handler run finds: what was unread, and the new record's. */
  function Accessed(cfg: Config, s: Sampler, fd: int, r: Record): seq<Access>
    requires ChannelsOk(s) && fd in s.channels && WellFormed(r) && KindOf(r).AddressSample?
  {
    var c := s.channels[fd];
    Between(cfg, c.committed, c.taken, |c.committed|) + [AccessOf(cfg, r)]
  }

  function AfterSample(cfg: Config, s: Sys, t: nat, fd: int, r: Record): Sys
    requires SamplersOk(s) && t in s.threads && fd in s.threads[t].sampler.channels
    requires WellFormed(r) && KindOf(r).AddressSample?
  {
    var thread, old_ := s.threads[t], s.threads[t].sampler;
    var committed := old_.channels[fd].committed + [r];
    var events := Stamp(cfg.clock(t), old_.readings, Accessed(cfg, old_, fd, r));
    var sampler := Sampler(old_.channels[fd := Channel(committed, |committed|)],
                           old_.readings + |events|, old_.log + Tag(fd, events));
    var s' := SetThread(s, t, thread.(sampler := sampler));
    if thread.eventData.Some? && thread.eventData.value < |s.store| then
      var b := thread.eventData.value;
      s'.(store := s.store[b := s.store[b] + events])
    else s'
  }

  lemma CommitThenHandle(cfg: Config, clock: nat -> int, s: Sampler, fd: int, r: Record)
    requires ChannelsOk(s) && fd in s.channels && WellFormed(r) && KindOf(r).AddressSample?
    ensures var c := s.channels[fd];
      var committed := c.committed + [r];
      var s1 := ThreadStep(cfg, clock, s, Commit(fd, r));
      var events := Stamp(clock, s.readings, Accessed(cfg, s, fd, r));
      Handle(cfg, clock, s1, fd) == Sampler(s.channels[fd := Channel(committed, |committed|)],
                                            s.readings + |events|, s.log + Tag(fd, events))
  {
    var c := s.channels[fd];
    var committed := c.committed + [r];
    assert committed[c.taken..|committed|] == c.committed[c.taken..|c.committed|] + [r];
    AccessesSnoc(cfg, c.committed[c.taken..|c.committed|], r);
    var s1 := ThreadStep(cfg, clock, s, Commit(fd, r));
    assert s1.channels[fd := Channel(committed, |committed|)] == s.channels[fd := Channel(committed, |committed|)];
  }

  lemma SampleAlone(cfg: Config, s: Sys, t: nat, fd: int, r: Record)
    requires SamplersOk(s) && t in s.threads && fd in s.threads[t].sampler.channels
    requires fd in s.threads[t].enabled && WellFormed(r) && KindOf(r).AddressSample?
    ensures SysRun(cfg, s, Sampled(t, fd, r)) == AfterSample(cfg, s, t, fd, r)
  {
    var s1 := SysStep(cfg, s, KernelCommit(t, fd, r));
    assert Sampled(t, fd, r) == [KernelCommit(t, fd, r)] + [HandleSignal(t, fd)];
    RunCons(cfg, s, KernelCommit(t, fd, r), [HandleSignal(t, fd)]);
    assert [HandleSignal(t, fd)] == [HandleSignal(t, fd)] + [];
    RunCons(cfg, s1, HandleSignal(t, fd), []);
    SampleSteps(cfg, s, t, fd, r);
  }

  lemma SampleSteps(cfg: Config, s: Sys, t: nat, fd: int, r: Record)
    requires SamplersOk(s) && t in s.threads && fd in s.threads[t].sampler.channels
    requires fd in s.threads[t].enabled && WellFormed(r) && KindOf(r).AddressSample?
    ensures SysStep(cfg, SysStep(cfg, s, KernelCommit(t, fd, r)), HandleSignal(t, fd)) == AfterSample(cfg, s, t, fd, r)
  {
    var thread := s.threads[t];
    CommitThenHandle(cfg, cfg.clock(t), thread.sampler, fd, r);
    var accesses := Accessed(cfg, thread.sampler, fd, r);
    EventsOfTag(thread.sampler.log, fd, Stamp(cfg.clock(t), thread.sampler.readings, accesses));
    assert thread.enabled + {fd} == thread.enabled;
  }

  /** The thread after the first sample on a descriptor. */
  function WithSample(thread: Thread, fd: int, r: Record, e: AccessEvent): Thread
  {
    var old_ := thread.sampler;
    thread.(sampler := Sampler(old_.channels[fd := Channel([r], 1)], old_.readings + 1, old_.log + [Entry(fd, e)]))
  }

  /** One event more in the only buffer. */
  lemma OnlyBuffer(held: seq<AccessEvent>, e: AccessEvent)
    ensures [held][0 := held + [e]] == [held + [e]]
    ensures [] + [e] == [e]
  {
  }

  /** The first sample on a descriptor of a thread with a buffer, as a run. */
  lemma FirstSample(cfg: Config, s: Sys, t: nat, fd: int, r: Record) returns (e: AccessEvent)
    requires SamplersOk(s) && t in s.threads && fd in s.threads[t].sampler.channels
    requires s.threads[t].sampler.channels[fd] == Channel([], 0) && fd in s.threads[t].enabled
    requires s.threads[t].eventData.Some? && s.threads[t].eventData.value < |s.store|
    requires WellFormed(r) && KindOf(r).AddressSample?
    ensures e == AccessEvent(cfg.clock(t)(s.threads[t].sampler.readings), AccessOf(cfg, r))
    ensures var b := s.threads[t].eventData.value;
      SysRun(cfg, s, Sampled(t, fd, r))
        == SetThread(s, t, WithSample(s.threads[t], fd, r, e)).(store := s.store[b := s.store[b] + [e]])
  {
    SampleAlone(cfg, s, t, fd, r);
    var sampler := s.threads[t].sampler;
    e := AccessEvent(cfg.clock(t)(sampler.readings), AccessOf(cfg, r));
    assert Accessed(cfg, sampler, fd, r) == [AccessOf(cfg, r)];
    assert Stamp(cfg.clock(t), sampler.readings, [AccessOf(cfg, r)]) == [e];
    assert Tag(fd, [e]) == [Entry(fd, e)];
    assert [] + [r] == [r];
  }

  // ---- thread ids that are used again ----

  /** A thread id is given to another thread only after the thread that had it has ended: no
      thread acts before and after another one of its id. */
  predicate Possible(cfg: Config, acts: seq<SysAction>)
  {
    forall i, j, k ::
      0 <= i < j < k < |acts| && acts[k].t == acts[i].t && cfg.tidOf(acts[j].t) == cfg.tidOf(acts[i].t) ==>
        acts[j].t == acts[i].t
  }

  /** Two threads of one id that alternate are not possible. */
  lemma AlternatingIsImpossible(cfg: Config, before: seq<SysAction>, t: nat, u: nat, after: seq<SysAction>)
    requires t != u && cfg.tidOf(t) == cfg.tidOf(u)
    ensures !Possible(cfg, before + [Advance(t), Advance(u), Advance(t)] + after)
  {
    var acts := before + [Advance(t), Advance(u), Advance(t)] + after;
    var n := |before|;
    assert acts[n] == Advance(t) && acts[n + 1] == Advance(u) && acts[n + 2] == Advance(t);
  }

  predicate AllBy(acts: seq<SysAction>, t: nat)
  {
    forall i :: 0 <= i < |acts| ==> acts[i].t == t
  }

  lemma AllByAppend(a: seq<SysAction>, b: seq<SysAction>, t: nat)
    requires AllBy(a, t) && AllBy(b, t)
    ensures AllBy(a + b, t)
  {
  }

  lemma WholeCallBy(t: nat, event: string, result: OpenResult)
    ensures AllBy(WholeCall(t, event, result), t)
  {
    assert AllBy(Advances(t, 5), t) && AllBy(Advances(t, 1), t);
    AllByAppend([OpenEvent(t, result)], Advances(t, 1), t);
    AllByAppend(Advances(t, 5), [OpenEvent(t, result)] + Advances(t, 1), t);
    AllByAppend([Call(t, event)], Advances(t, 5) + ([OpenEvent(t, result)] + Advances(t, 1)), t);
  }

  /** First one thread, then another: that is always possible. */
  lemma OneAfterAnother(cfg: Config, a: seq<SysAction>, b: seq<SysAction>, t: nat, u: nat)
    requires AllBy(a, t) && AllBy(b, u)
    ensures Possible(cfg, a + b)
  {
    var acts := a + b;
    forall i, j, k | 0 <= i < j < k < |acts| && acts[k].t == acts[i].t && cfg.tidOf(acts[j].t) == cfg.tidOf(acts[i].t)
      ensures acts[j].t == acts[i].t
    {
      if i < |a| <= k {
        assert acts[k] == b[k - |a|];
      }
    }
  }

  /** Two threads of the same thread id register a metric each, one after the other. */
  function TwoCalls(event: string): seq<SysAction>
  {
    WholeCall(0, event, OpenResult.Opened(3)) + WholeCall(1, event, OpenResult.Opened(4))
  }

  /** What they leave when the system has given both the same id. */
  lemma AfterTwoCalls(cfg: Config, event: string) returns (s: Sys)
    requires cfg.tidOf(0) == cfg.tidOf(1)
    ensures s == SysRun(cfg, NoMetrics({0, 1}), TwoCalls(event)) && SamplersOk(s)
    ensures s.threads.Keys == {0, 1} && s.returned == map[0 := (0, event), 1 := (1, event)]
    ensures s.events == [(cfg.tidOf(0), event), (cfg.tidOf(0), event)]
    ensures s.buffers == map[cfg.tidOf(0) := 0] && s.store == [[]]
    ensures s.threads[0] == Thread(Outside, Some(0), {3}, Sampler(map[3 := Channel([], 0)], 0, []))
    ensures s.threads[1] == Thread(Outside, None, {4}, Sampler(map[4 := Channel([], 0)], 0, []))
  {
    var s0 := NoMetrics({0, 1});
    CallAlone(cfg, s0, 0, event, OpenResult.Opened(3));
    var s1 := AfterAdd(cfg, s0, 0, event, OpenResult.Opened(3));
    assert s1.threads[0] == Thread(Outside, Some(0), {3}, Sampler(map[3 := Channel([], 0)], 0, []));
    CallAlone(cfg, s1, 1, event, OpenResult.Opened(4));
    SysRunAppend(cfg, s0, WholeCall(0, event, OpenResult.Opened(3)), WholeCall(1, event, OpenResult.Opened(4)));
    s := AfterAdd(cfg, s1, 1, event, OpenResult.Opened(4));
  }

  /** The second thread then takes a sample: its handler builds the event, and no buffer gets
      it. */
  lemma ReuseLosesSamples(cfg: Config, event: string, r: Record)
    requires cfg.tidOf(0) == cfg.tidOf(1) && WellFormed(r) && KindOf(r).AddressSample?
    ensures Possible(cfg, TwoCalls(event) + Sampled(1, 4, r))
    ensures var s := SysRun(cfg, NoMetrics({0, 1}), TwoCalls(event) + Sampled(1, 4, r));
      && 1 in s.threads && |s.threads[1].sampler.log| == 1
      && s.store == [[]]
  {
    var s := AfterTwoCalls(cfg, event);
    SampleAlone(cfg, s, 1, 4, r);
    SysRunAppend(cfg, NoMetrics({0, 1}), TwoCalls(event), Sampled(1, 4, r));
    var a, b := WholeCall(0, event, OpenResult.Opened(3)), WholeCall(1, event, OpenResult.Opened(4));
    WholeCallBy(0, event, OpenResult.Opened(3));
    WholeCallBy(1, event, OpenResult.Opened(4));
    AllByAppend(b, Sampled(1, 4, r), 1);
    OneAfterAnother(cfg, a, b + Sampled(1, 4, r), 0, 1);
    assert TwoCalls(event) + Sampled(1, 4, r) == a + (b + Sampled(1, 4, r));
  }
}
