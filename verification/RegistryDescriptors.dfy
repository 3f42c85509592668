/** Which call each descriptor belongs to, and which counters run. */
module RegistryDescriptors {
  import opened Sampling
  import opened Registry
  import opened RegistrySafety
  import opened RegistryTheorems
  import opened RegistryRuns

  predicate HasFd(result: OpenResult)
  {
    result.HalfOpen? || result.Opened?
  }

  /** What `event_open` came to for an id is that of a call on a thread of the system; its ring is
      there; and the call is over unless it is the one the thread is about to return from. */
  predicate OpeningOk(s: Sys, id: nat)
    requires id in s.openings
  {
    var (t, result) := s.openings[id];
    && id < |s.events| && t in s.threads
    && (HasFd(result) ==> result.fd in s.threads[t].sampler.channels)
    && (HasId(s.threads[t].pc) ==> id < s.threads[t].pc.id || InHand(s.threads[t].pc, id))
    && (result.Opened? ==> id in s.returned || InHand(s.threads[t].pc, id))
    && (!result.Opened? ==> id in s.failed)
  }

  predicate InHand(pc: Pc, id: nat)
  {
    pc.Opened? && pc.id == id
  }

  /** An id was returned by a call that had opened its descriptor. */
  predicate AnswerOk(s: Sys, id: nat)
    requires id in s.returned
  {
    id in s.openings && s.openings[id].0 == s.returned[id].0 && s.openings[id].1.Opened?
  }

  predicate InCallOk(s: Sys, t: nat)
    requires t in s.threads
  {
    var pc := s.threads[t].pc;
    pc.Opened? ==> pc.id in s.openings && s.openings[pc.id].0 == t && s.openings[pc.id].1.Opened?
  }

  /** The call with this id opened the descriptor, completely or half. */
  predicate OpenedBy(s: Sys, t: nat, fd: int, id: nat)
  {
    id in s.openings && s.openings[id].0 == t && HasFd(s.openings[id].1) && s.openings[id].1.fd == fd
  }

  ghost predicate ChannelOpened(s: Sys, t: nat, fd: int)
  {
    exists id :: OpenedBy(s, t, fd, id)
  }

  ghost predicate OpeningsOk(s: Sys)
  {
    && (forall id {:trigger OpeningOk(s, id)} :: id in s.openings ==> OpeningOk(s, id))
    && (forall id {:trigger AnswerOk(s, id)} :: id in s.returned ==> AnswerOk(s, id))
    && (forall t {:trigger InCallOk(s, t)} :: t in s.threads ==> InCallOk(s, t))
    && (forall t, fd {:trigger ChannelOpened(s, t, fd)} ::
          t in s.threads && fd in s.threads[t].sampler.channels ==> ChannelOpened(s, t, fd))
  }

  // ---- every step keeps that ----

  /** Steps other than the end of `event_open` and the return: a thread's place changes, keeping
      its id, or it takes the next one. */
  predicate PlaceKept(before: Pc, after: Pc, n: nat)
  {
    && (HasId(after) ==> after.id == if HasId(before) then before.id else n)
    && (before.Opened? <==> after.Opened?)
  }

  predicate IsReturn(s: Sys, a: SysAction)
  {
    a.Advance? && a.t in s.threads && s.threads[a.t].pc.Opened?
  }

  predicate IsOpening(s: Sys, a: SysAction)
  {
    a.OpenEvent? && a.t in s.threads && s.threads[a.t].pc.Unlocked?
  }

  lemma PlainAdvance(cfg: Config, s: Sys, t: nat)
    requires t in s.threads && !s.threads[t].pc.Opened?
    ensures var s' := AdvanceStep(cfg, s, t);
      && s'.openings == s.openings && s'.returned == s.returned && s'.failed == s.failed && |s.events| <= |s'.events|
      && t in s'.threads
      && s'.threads[t].sampler == s.threads[t].sampler && s'.threads[t].enabled == s.threads[t].enabled
  {
  }

  lemma AdvancePlace(cfg: Config, s: Sys, t: nat)
    requires t in s.threads && !s.threads[t].pc.Opened?
    requires s.threads[t].pc.Numbered? ==> s.threads[t].pc.id == |s.events|
    ensures PlaceKept(s.threads[t].pc, AdvanceStep(cfg, s, t).threads[t].pc, |s.events|)
  {
    var after := AdvanceStep(cfg, s, t).threads[t].pc;
    match s.threads[t].pc
    case Numbered(event, id) => assert after == Pushed(event, id);
    case Pushed(event, id) => assert after == Unlocked(event, id);
    case Unlocked(event, id) => assert after == Unlocked(event, id);
    case _ =>
  }

  lemma AdvanceOthers(cfg: Config, s: Sys, t: nat)
    requires t in s.threads
    ensures var s' := AdvanceStep(cfg, s, t); s'.threads == s.threads[t := s'.threads[t]]
  {
    assert s.threads[t := s.threads[t]] == s.threads;
  }

  lemma PlainOther(cfg: Config, s: Sys, a: SysAction)
    requires SamplersOk(s) && !a.Advance? && !IsOpening(s, a) && a.t in s.threads
    ensures var s' := SysStep(cfg, s, a);
      && s'.openings == s.openings && s'.returned == s.returned && s'.failed == s.failed && s'.events == s.events
      && s'.threads == s.threads[a.t := s'.threads[a.t]]
      && PlaceKept(s.threads[a.t].pc, s'.threads[a.t].pc, |s.events|)
  {
    assert s.threads[a.t := s.threads[a.t]] == s.threads;
  }

  lemma OtherThread(cfg: Config, s: Sys, a: SysAction)
    requires SamplersOk(s) && !a.Advance? && !IsOpening(s, a) && a.t in s.threads
    ensures var s' := SysStep(cfg, s, a);
      && a.t in s'.threads
      && s'.threads[a.t].sampler.channels.Keys == s.threads[a.t].sampler.channels.Keys
      && s'.threads[a.t].enabled
         == (if a.HandleSignal? then s.threads[a.t].enabled + {a.fd} else s.threads[a.t].enabled)
  {
    if a.HandleSignal? {
      HandleAppends(cfg, cfg.clock(a.t), s.threads[a.t].sampler, a.fd);
    } else if a.KernelCommit? {
      CommitKeys(cfg, s.threads[a.t].sampler, cfg.clock(a.t), a);
    }
  }

  lemma CommitKeys(cfg: Config, s: Sampler, clock: nat -> int, a: SysAction)
    requires ChannelsOk(s) && a.KernelCommit?
    ensures ThreadStep(cfg, clock, s, Commit(a.fd, a.record)).channels.Keys == s.channels.Keys
  {
    if a.fd in s.channels {
      assert s.channels.Keys + {a.fd} == s.channels.Keys;
    }
  }

  /** The invariant depends on little of the state. */
  lemma PlaceKeeps(s: Sys, s': Sys, t: nat)
    requires OpeningsOk(s) && t in s.threads
    requires s'.openings == s.openings && s'.returned == s.returned && s'.failed == s.failed
    requires |s.events| <= |s'.events|
    requires t in s'.threads && s'.threads == s.threads[t := s'.threads[t]]
    requires s'.threads[t].sampler.channels.Keys == s.threads[t].sampler.channels.Keys
    requires PlaceKept(s.threads[t].pc, s'.threads[t].pc, |s.events|)
    ensures OpeningsOk(s')
  {
    forall id | id in s'.openings
      ensures OpeningOk(s', id)
    {
      assert OpeningOk(s, id);
    }
    forall id | id in s'.returned
      ensures AnswerOk(s', id)
    {
      assert AnswerOk(s, id);
    }
    forall u | u in s'.threads
      ensures InCallOk(s', u)
    {
      assert InCallOk(s, u);
    }
    forall u, fd | u in s'.threads && fd in s'.threads[u].sampler.channels
      ensures ChannelOpened(s', u, fd)
    {
      assert ChannelOpened(s, u, fd);
      var id :| OpenedBy(s, u, fd, id);
      assert OpenedBy(s', u, fd, id);
    }
  }

  /** No call has the id of another one. */
  lemma OpenedElsewhere(cfg: Config, s: Sys, t: nat, id: nat)
    requires SysInv(cfg, s) && OpeningsOk(s) && t in s.threads && s.threads[t].pc.Unlocked? && id in s.openings
    ensures id != s.threads[t].pc.id
  {
    var u, pc := s.openings[id].0, s.threads[t].pc;
    assert OpeningOk(s, id);
    assert IdOk(cfg, s.events, s.returned, t, pc);
    assert InFlight(s.threads, pc.id) by {
      assert t in s.threads && HasId(s.threads[t].pc) && s.threads[t].pc.id == pc.id;
    }
    assert u != t ==> IdsDiffer(s.threads[u].pc, pc);
  }

  lemma OpeningItem(cfg: Config, s: Sys, t: nat, result: OpenResult, id: nat)
    requires SysInv(cfg, s) && SamplersOk(s) && OpeningsOk(s) && t in s.threads && s.threads[t].pc.Unlocked?
    requires id in s.openings || id == s.threads[t].pc.id
    ensures OpeningOk(OpenEventStep(s, t, result), id)
  {
    assert IdOk(cfg, s.events, s.returned, t, s.threads[t].pc);
    if id in s.openings {
      OpenedElsewhere(cfg, s, t, id);
      assert OpeningOk(s, id);
    }
  }

  lemma OpeningAnswer(cfg: Config, s: Sys, t: nat, result: OpenResult, id: nat)
    requires SysInv(cfg, s) && SamplersOk(s) && OpeningsOk(s) && t in s.threads && s.threads[t].pc.Unlocked?
    requires id in s.returned
    ensures AnswerOk(OpenEventStep(s, t, result), id)
  {
    assert AnswerOk(s, id);
    OpenedElsewhere(cfg, s, t, id);
  }

  lemma OpeningCall(cfg: Config, s: Sys, t: nat, result: OpenResult, u: nat)
    requires SysInv(cfg, s) && SamplersOk(s) && OpeningsOk(s) && t in s.threads && s.threads[t].pc.Unlocked?
    requires u in s.threads
    ensures InCallOk(OpenEventStep(s, t, result), u)
  {
    assert InCallOk(s, u);
    if u != t && s.threads[u].pc.Opened? {
      OpenedElsewhere(cfg, s, t, s.threads[u].pc.id);
    }
  }

  lemma OpeningChannel(cfg: Config, s: Sys, t: nat, result: OpenResult, u: nat, fd: int)
    requires SysInv(cfg, s) && SamplersOk(s) && OpeningsOk(s) && t in s.threads && s.threads[t].pc.Unlocked?
    requires var s' := OpenEventStep(s, t, result); u in s'.threads && fd in s'.threads[u].sampler.channels
    ensures ChannelOpened(OpenEventStep(s, t, result), u, fd)
  {
    var s' := OpenEventStep(s, t, result);
    if fd in s.threads[u].sampler.channels {
      assert ChannelOpened(s, u, fd);
      var id :| OpenedBy(s, u, fd, id);
      OpenedElsewhere(cfg, s, t, id);
      assert OpenedBy(s', u, fd, id);
    } else {
      assert OpenedBy(s', u, fd, s.threads[t].pc.id);
    }
  }

  /** The end of `event_open`. */
  lemma OpeningKeeps(cfg: Config, s: Sys, t: nat, result: OpenResult)
    requires SysInv(cfg, s) && SamplersOk(s) && OpeningsOk(s) && t in s.threads && s.threads[t].pc.Unlocked?
    ensures OpeningsOk(OpenEventStep(s, t, result))
  {
    var s' := OpenEventStep(s, t, result);
    forall id | id in s'.openings
      ensures OpeningOk(s', id)
    {
      OpeningItem(cfg, s, t, result, id);
    }
    forall id | id in s'.returned
      ensures AnswerOk(s', id)
    {
      OpeningAnswer(cfg, s, t, result, id);
    }
    forall u | u in s'.threads
      ensures InCallOk(s', u)
    {
      OpeningCall(cfg, s, t, result, u);
    }
    forall u, fd | u in s'.threads && fd in s'.threads[u].sampler.channels
      ensures ChannelOpened(s', u, fd)
    {
      OpeningChannel(cfg, s, t, result, u, fd);
    }
  }

  lemma ReturnKeepsOpenings(cfg: Config, s: Sys, t: nat)
    requires SysInv(cfg, s) && OpeningsOk(s) && t in s.threads && s.threads[t].pc.Opened?
    ensures OpeningsOk(AdvanceStep(cfg, s, t))
  {
    var s' := AdvanceStep(cfg, s, t);
    assert InCallOk(s, t);
    forall id | id in s'.openings
      ensures OpeningOk(s', id)
    {
      assert OpeningOk(s, id);
    }
    forall id | id in s'.returned
      ensures AnswerOk(s', id)
    {
      if id in s.returned {
        assert AnswerOk(s, id);
      }
    }
    forall u | u in s'.threads
      ensures InCallOk(s', u)
    {
      assert InCallOk(s, u);
    }
    forall u, fd | u in s'.threads && fd in s'.threads[u].sampler.channels
      ensures ChannelOpened(s', u, fd)
    {
      assert ChannelOpened(s, u, fd);
      var id :| OpenedBy(s, u, fd, id);
      assert OpenedBy(s', u, fd, id);
    }
  }

  lemma StepKeepsOpenings(cfg: Config, s: Sys, a: SysAction)
    requires SysInv(cfg, s) && SamplersOk(s) && OpeningsOk(s)
    ensures OpeningsOk(SysStep(cfg, s, a))
  {
    if a.t !in s.threads {
    } else if IsOpening(s, a) {
      OpeningKeeps(cfg, s, a.t, a.result);
    } else if IsReturn(s, a) {
      ReturnKeepsOpenings(cfg, s, a.t);
    } else if a.Advance? {
      assert IdOk(cfg, s.events, s.returned, a.t, s.threads[a.t].pc);
      PlainAdvance(cfg, s, a.t);
      AdvancePlace(cfg, s, a.t);
      AdvanceOthers(cfg, s, a.t);
      PlaceKeeps(s, AdvanceStep(cfg, s, a.t), a.t);
    } else {
      PlainOther(cfg, s, a);
      OtherThread(cfg, s, a);
      PlaceKeeps(s, SysStep(cfg, s, a), a.t);
    }
  }

  lemma {:induction false} RunKeepsOpenings(cfg: Config, s: Sys, acts: seq<SysAction>)
    requires SysInv(cfg, s) && SamplersOk(s) && OpeningsOk(s)
    ensures OpeningsOk(SysRun(cfg, s, acts))
    decreases |acts|
  {
    if acts != [] {
      StepKeepsOpenings(cfg, s, acts[0]);
      SysStepKeeps(cfg, s, acts[0]);
      RunKeepsOpenings(cfg, SysStep(cfg, s, acts[0]), acts[1..]);
    }
  }

  /** In every run. */
  lemma OpeningsReached(cfg: Config, threads: set<nat>, acts: seq<SysAction>)
    ensures OpeningsOk(SysRun(cfg, NoMetrics(threads), acts))
  {
    NoMetricsInv(cfg, threads);
    RunKeepsOpenings(cfg, NoMetrics(threads), acts);
  }

  // ---- the counters that run ----

  /** The descriptor is that of a call of the thread that has returned. */
  predicate AnsweredBy(s: Sys, t: nat, fd: int, id: nat)
  {
    id in s.returned && s.returned[id].0 == t && OpenedBy(s, t, fd, id) && s.openings[id].1.Opened?
  }

  ghost predicate Answered(s: Sys, t: nat, fd: int)
  {
    exists id :: AnsweredBy(s, t, fd, id)
  }

  /** The descriptor was left behind by a call that failed after mapping it, and a later call of
      the same thread has returned. */
  predicate LeftBy(s: Sys, t: nat, fd: int, i: nat, j: nat)
  {
    i in s.openings && s.openings[i] == (t, HalfOpen(fd)) && j in s.returned && s.returned[j].0 == t && i < j
  }

  ghost predicate LeftBehind(s: Sys, t: nat, fd: int)
  {
    exists i, j :: LeftBy(s, t, fd, i, j)
  }

  ghost predicate LeftEnabled(s: Sys)
  {
    forall t, fd, i, j {:trigger LeftBy(s, t, fd, i, j)} ::
      t in s.threads && LeftBy(s, t, fd, i, j) ==> fd in s.threads[t].enabled
  }

  predicate Known(s: Sys, t: nat, fd: int)
  {
    t in s.threads && fd in s.threads[t].enabled
  }

  ghost predicate EnabledKnown(s: Sys)
  {
    forall t, fd {:trigger Known(s, t, fd)} :: Known(s, t, fd) ==> Answered(s, t, fd) || LeftBehind(s, t, fd)
  }

  /** A descriptor sends signals only after its counter has been enabled. */
  predicate GenuineStep(s: Sys, a: SysAction)
  {
    a.HandleSignal? && a.t in s.threads ==> a.fd in s.threads[a.t].enabled
  }

  predicate Genuine(cfg: Config, s: Sys, acts: seq<SysAction>)
    requires SamplersOk(s)
    decreases |acts|
  {
    acts == [] || (GenuineStep(s, acts[0]) && Genuine(cfg, SysStep(cfg, s, acts[0]), acts[1..]))
  }

  /** Where openings and answers stay, so does all of that. */
  lemma SameDescriptors(s: Sys, s': Sys)
    requires LeftEnabled(s) && EnabledKnown(s)
    requires s'.openings == s.openings && s'.returned == s.returned && s'.threads.Keys == s.threads.Keys
    requires forall t :: t in s.threads ==> s'.threads[t].enabled == s.threads[t].enabled
    ensures LeftEnabled(s') && EnabledKnown(s')
  {
    forall t, fd, i, j | t in s'.threads && LeftBy(s', t, fd, i, j)
      ensures fd in s'.threads[t].enabled
    {
      assert LeftBy(s, t, fd, i, j);
    }
    forall t, fd | Known(s', t, fd)
      ensures Answered(s', t, fd) || LeftBehind(s', t, fd)
    {
      assert Known(s, t, fd);
      Grows(s, s', t, fd);
    }
  }

  /** Openings and answers are never taken back. */
  lemma Grows(s: Sys, s': Sys, t: nat, fd: int)
    requires Answered(s, t, fd) || LeftBehind(s, t, fd)
    requires forall id :: id in s.openings ==> id in s'.openings && s'.openings[id] == s.openings[id]
    requires forall id :: id in s.returned ==> id in s'.returned && s'.returned[id] == s.returned[id]
    ensures Answered(s', t, fd) || LeftBehind(s', t, fd)
  {
    if Answered(s, t, fd) {
      var id :| AnsweredBy(s, t, fd, id);
      assert AnsweredBy(s', t, fd, id);
    } else {
      var i, j :| LeftBy(s, t, fd, i, j);
      assert LeftBy(s', t, fd, i, j);
    }
  }

  /** What the end of `event_open` leaves as it was. */
  lemma OpeningFrame(cfg: Config, s: Sys, t: nat, result: OpenResult)
    requires SysInv(cfg, s) && SamplersOk(s) && OpeningsOk(s) && t in s.threads && s.threads[t].pc.Unlocked?
    ensures var s' := OpenEventStep(s, t, result);
      && s'.openings == s.openings[s.threads[t].pc.id := (t, result)] && s'.returned == s.returned
      && s'.threads.Keys == s.threads.Keys
      && (forall u :: u in s.threads ==> s'.threads[u].enabled == s.threads[u].enabled)
      && s.threads[t].pc.id !in s.openings
  {
    if s.threads[t].pc.id in s.openings {
      OpenedElsewhere(cfg, s, t, s.threads[t].pc.id);
    }
  }

  lemma OpeningKeepsEnabled(cfg: Config, s: Sys, t: nat, result: OpenResult)
    requires SysInv(cfg, s) && SamplersOk(s) && OpeningsOk(s) && t in s.threads && s.threads[t].pc.Unlocked?
    requires LeftEnabled(s) && EnabledKnown(s)
    ensures var s' := OpenEventStep(s, t, result); LeftEnabled(s') && EnabledKnown(s')
  {
    var s', mine := OpenEventStep(s, t, result), s.threads[t].pc.id;
    OpeningFrame(cfg, s, t, result);
    forall u, fd, i, j | u in s'.threads && LeftBy(s', u, fd, i, j)
      ensures fd in s'.threads[u].enabled
    {
      assert AnswerOk(s, j);
      assert OpeningOk(s, j);
      assert LeftBy(s, u, fd, i, j);
    }
    forall u, fd | Known(s', u, fd)
      ensures Answered(s', u, fd) || LeftBehind(s', u, fd)
    {
      assert Known(s, u, fd);
      Grows(s, s', u, fd);
    }
  }

  lemma ReturnFrame(cfg: Config, s: Sys, t: nat)
    requires SysInv(cfg, s) && t in s.threads && s.threads[t].pc.Opened?
    ensures var s', pc := AdvanceStep(cfg, s, t), s.threads[t].pc;
      && s'.openings == s.openings && s'.returned == s.returned[pc.id := (t, pc.event)] && pc.id !in s.returned
      && s'.threads.Keys == s.threads.Keys
      && (forall u :: u in s.threads && u != t ==> s'.threads[u].enabled == s.threads[u].enabled)
      && s'.threads[t].enabled == s.threads[t].enabled + s.threads[t].sampler.channels.Keys
  {
    assert IdOk(cfg, s.events, s.returned, t, s.threads[t].pc);
  }

  /** The return enables everything the thread has: what its own calls have opened, and what a
      failed call before them has left. */
  lemma NowEnabled(cfg: Config, s: Sys, t: nat, fd: int)
    requires SysInv(cfg, s) && OpeningsOk(s) && t in s.threads && s.threads[t].pc.Opened?
    requires fd in s.threads[t].sampler.channels
    ensures var s' := AdvanceStep(cfg, s, t); Answered(s', t, fd) || LeftBehind(s', t, fd)
  {
    var s', pc := AdvanceStep(cfg, s, t), s.threads[t].pc;
    ReturnFrame(cfg, s, t);
    assert ChannelOpened(s, t, fd);
    var id :| OpenedBy(s, t, fd, id);
    assert OpeningOk(s, id);
    assert InCallOk(s, t);
    if s.openings[id].1.Opened? {
      if id in s.returned {
        assert AnswerOk(s, id);
      }
      assert AnsweredBy(s', t, fd, id);
    } else {
      assert LeftBy(s', t, fd, id, pc.id);
    }
  }

  lemma ReturnKeepsLeft(cfg: Config, s: Sys, t: nat)
    requires SysInv(cfg, s) && OpeningsOk(s) && t in s.threads && s.threads[t].pc.Opened? && LeftEnabled(s)
    ensures LeftEnabled(AdvanceStep(cfg, s, t))
  {
    var s' := AdvanceStep(cfg, s, t);
    ReturnFrame(cfg, s, t);
    forall u, fd, i, j | u in s'.threads && LeftBy(s', u, fd, i, j)
      ensures fd in s'.threads[u].enabled
    {
      assert OpeningOk(s, i);
      if j in s.returned {
        assert LeftBy(s, u, fd, i, j);
      }
    }
  }

  lemma ReturnKeepsKnown(cfg: Config, s: Sys, t: nat)
    requires SysInv(cfg, s) && OpeningsOk(s) && t in s.threads && s.threads[t].pc.Opened? && EnabledKnown(s)
    ensures EnabledKnown(AdvanceStep(cfg, s, t))
  {
    var s' := AdvanceStep(cfg, s, t);
    ReturnFrame(cfg, s, t);
    forall u, fd | Known(s', u, fd)
      ensures Answered(s', u, fd) || LeftBehind(s', u, fd)
    {
      if Known(s, u, fd) {
        Grows(s, s', u, fd);
      } else {
        NowEnabled(cfg, s, t, fd);
      }
    }
  }

  lemma StepKeepsEnabled(cfg: Config, s: Sys, a: SysAction)
    requires SysInv(cfg, s) && SamplersOk(s) && OpeningsOk(s) && LeftEnabled(s) && EnabledKnown(s)
    requires GenuineStep(s, a)
    ensures var s' := SysStep(cfg, s, a); LeftEnabled(s') && EnabledKnown(s')
  {
    if a.t !in s.threads {
    } else if IsOpening(s, a) {
      OpeningKeepsEnabled(cfg, s, a.t, a.result);
    } else if IsReturn(s, a) {
      ReturnKeepsLeft(cfg, s, a.t);
      ReturnKeepsKnown(cfg, s, a.t);
    } else {
      var s' := SysStep(cfg, s, a);
      if a.Advance? {
        PlainAdvance(cfg, s, a.t);
        AdvanceOthers(cfg, s, a.t);
      } else {
        PlainOther(cfg, s, a);
        OtherThread(cfg, s, a);
        assert a.HandleSignal? ==> s.threads[a.t].enabled + {a.fd} == s.threads[a.t].enabled;
      }
      StepThreads(cfg, s, a);
      SameDescriptors(s, s');
    }
  }

  lemma {:induction false} RunKeepsEnabled(cfg: Config, s: Sys, acts: seq<SysAction>)
    requires SysInv(cfg, s) && SamplersOk(s) && OpeningsOk(s) && LeftEnabled(s) && EnabledKnown(s)
    requires Genuine(cfg, s, acts)
    ensures var s' := SysRun(cfg, s, acts); LeftEnabled(s') && EnabledKnown(s')
    decreases |acts|
  {
    if acts != [] {
      StepKeepsEnabled(cfg, s, acts[0]);
      StepKeepsOpenings(cfg, s, acts[0]);
      SysStepKeeps(cfg, s, acts[0]);
      RunKeepsEnabled(cfg, SysStep(cfg, s, acts[0]), acts[1..]);
    }
  }

  /** Every running counter of a thread belongs to a call that returned if and only if no call of
      that thread left a half-opened descriptor of its own behind and was followed by a call that
      returned. */
  lemma EnabledAnsweredIff(cfg: Config, threads: set<nat>, acts: seq<SysAction>, t: nat)
    requires Genuine(cfg, NoMetrics(threads), acts)
    ensures var s := SysRun(cfg, NoMetrics(threads), acts);
      t in s.threads ==>
        ((forall fd :: Known(s, t, fd) ==> Answered(s, t, fd)) <==>
         (forall fd :: LeftBehind(s, t, fd) ==> Answered(s, t, fd)))
  {
    NoMetricsInv(cfg, threads);
    RunKeepsEnabled(cfg, NoMetrics(threads), acts);
    var s := SysRun(cfg, NoMetrics(threads), acts);
    if t in s.threads {
      forall fd | LeftBehind(s, t, fd)
        ensures Known(s, t, fd)
      {
        var i, j :| LeftBy(s, t, fd, i, j);
      }
    }
  }

  /** Without signals there is nothing to ask of a schedule. */
  lemma {:induction false} SilentIsGenuine(cfg: Config, s: Sys, acts: seq<SysAction>)
    requires SamplersOk(s) && forall i :: 0 <= i < |acts| ==> !acts[i].HandleSignal?
    ensures Genuine(cfg, s, acts)
    decreases |acts|
  {
    if acts != [] {
      SilentIsGenuine(cfg, SysStep(cfg, s, acts[0]), acts[1..]);
    }
  }

  /** A run in which the counter of a call that threw is started by the next call. */
  lemma FailedCallIsEnabled(cfg: Config, a: string, b: string)
    ensures Genuine(cfg, NoMetrics({0}), WholeCall(0, a, HalfOpen(3)) + WholeCall(0, b, OpenResult.Opened(4)))
    ensures var s := SysRun(cfg, NoMetrics({0}), WholeCall(0, a, HalfOpen(3)) + WholeCall(0, b, OpenResult.Opened(4)));
      && s.threads.Keys == {0} && s.threads[0].enabled == {3, 4}
      && s.failed == {0} && s.returned == map[1 := (0, b)]
      && LeftBehind(s, 0, 3) && !Answered(s, 0, 3)
  {
    var s0 := NoMetrics({0});
    CallAlone(cfg, s0, 0, a, HalfOpen(3));
    var s1 := AfterAdd(cfg, s0, 0, a, HalfOpen(3));
    AfterAddIs(cfg, s0, 0, a, HalfOpen(3));
    CallAlone(cfg, s1, 0, b, OpenResult.Opened(4));
    AfterAddIs(cfg, s1, 0, b, OpenResult.Opened(4));
    SysRunAppend(cfg, s0, WholeCall(0, a, HalfOpen(3)), WholeCall(0, b, OpenResult.Opened(4)));
    var s := AfterAdd(cfg, s1, 0, b, OpenResult.Opened(4));
    assert LeftBy(s, 0, 3, 0, 1);
    WholeCallSilent(0, a, HalfOpen(3));
    WholeCallSilent(0, b, OpenResult.Opened(4));
    SilentIsGenuine(cfg, s0, WholeCall(0, a, HalfOpen(3)) + WholeCall(0, b, OpenResult.Opened(4)));
  }

  lemma WholeCallSilent(t: nat, event: string, result: OpenResult)
    ensures forall i :: 0 <= i < |WholeCall(t, event, result)| ==> !WholeCall(t, event, result)[i].HandleSignal?
  {
  }
}
