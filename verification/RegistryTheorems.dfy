/** The registry's promises, for every interleaving of calls, openings, commits and signals. */
module RegistryTheorems {
  import opened Wrappers
  import opened Sampling
  import opened Registry
  import opened RegistrySafety

  lemma Reached(cfg: Config, threads: set<nat>, acts: seq<SysAction>) returns (s: Sys)
    ensures s == SysRun(cfg, NoMetrics(threads), acts) && SysInv(cfg, s)
  {
    NoMetricsInv(cfg, threads);
    SysRunKeeps(cfg, NoMetrics(threads), acts);
    s := SysRun(cfg, NoMetrics(threads), acts);
  }

  // ---- ids ----

  /** Every id handed out names the thread that asked and the event it asked for, and the
      thread id it names has a buffer: `.at (tid)` does not fail. */
  lemma IdsAreMeaningful(cfg: Config, threads: set<nat>, acts: seq<SysAction>)
    ensures var s := SysRun(cfg, NoMetrics(threads), acts);
      && (forall id :: id in s.returned ==>
            ReturnedOk(cfg, s.events, id, s.returned[id]) && cfg.tidOf(s.returned[id].0) in s.buffers)
      && (forall i :: 0 <= i < |s.events| ==> s.events[i].0 in s.buffers)
  {
    var s := Reached(cfg, threads, acts);
    forall id | id in s.returned
      ensures ReturnedOk(cfg, s.events, id, s.returned[id]) && cfg.tidOf(s.returned[id].0) in s.buffers
    {
      assert ReturnedOk(cfg, s.events, id, s.returned[id]);
      assert s.events[id].0 in s.buffers;
    }
  }

  /** Ids are dense: every number below the table's length is the id of exactly one call, which
      has returned it, was left by an exception of `event_open`, or is still in progress. */
  lemma IdsAreDense(cfg: Config, threads: set<nat>, acts: seq<SysAction>, id: nat)
    ensures var s := SysRun(cfg, NoMetrics(threads), acts);
      && (id < |s.events| <==> id in s.returned || id in s.failed || InFlight(s.threads, id))
      && !(id in s.returned && id in s.failed)
      && !(InFlight(s.threads, id) && (id in s.returned || id in s.failed))
      && (forall t, u :: t in s.threads && u in s.threads && t != u ==>
            IdsDiffer(s.threads[t].pc, s.threads[u].pc))
  {
    var s := Reached(cfg, threads, acts);
    if id in s.returned {
      assert ReturnedOk(cfg, s.events, id, s.returned[id]);
    }
    forall t | t in s.threads && HasId(s.threads[t].pc)
      ensures s.threads[t].pc.id < |s.events| && s.threads[t].pc.id !in s.returned
    {
      assert IdOk(cfg, s.events, s.returned, t, s.threads[t].pc);
    }
  }

  /** Once every call has ended, the ids handed out are exactly the numbers below the table's
      length if and only if no call has failed. */
  lemma QuietIdsAreDense(cfg: Config, threads: set<nat>, acts: seq<SysAction>)
    ensures var s := SysRun(cfg, NoMetrics(threads), acts);
      (forall t :: t in s.threads ==> s.threads[t].pc.Outside?) ==>
        (s.failed == {} <==> forall id: nat :: id in s.returned <==> id < |s.events|)
  {
    var s := SysRun(cfg, NoMetrics(threads), acts);
    forall id: nat
      ensures id < |s.events| <==> id in s.returned || id in s.failed || InFlight(s.threads, id)
      ensures !(id in s.returned && id in s.failed)
    {
      IdsAreDense(cfg, threads, acts, id);
    }
    assert s.failed == {} || exists id :: id in s.failed;
  }

  /** The registry only grows: no entry, no buffer and no answer is ever replaced. */
  ghost predicate Extends(s: Sys, s': Sys)
  {
    && s.events <= s'.events
    && s.buffers.Keys <= s'.buffers.Keys && (forall tid :: tid in s.buffers ==> s'.buffers[tid] == s.buffers[tid])
    && s.owner.Keys <= s'.owner.Keys && (forall tid :: tid in s.owner ==> s'.owner[tid] == s.owner[tid])
    && s.returned.Keys <= s'.returned.Keys && (forall id :: id in s.returned ==> s'.returned[id] == s.returned[id])
  }

  lemma InsertExtends(s: Sys, t: nat, tid: nat, thread: Thread)
    requires tid !in s.buffers && tid !in s.owner
    ensures Extends(s, InsertStep(s, t, tid, thread))
  {
  }

  lemma ReturnExtends(s: Sys, t: nat, thread: Thread, event: string, id: nat)
    requires id !in s.returned
    ensures Extends(s, Registry.ReturnStep(s, t, thread, event, id))
  {
  }

  lemma PushExtends(s: Sys, t: nat, tid: nat, thread: Thread)
    requires thread.pc.Pushed?
    ensures Extends(s, PushStep(s, t, tid, thread))
  {
  }

  lemma SameExtends(s: Sys, s': Sys)
    requires s'.events == s.events && s'.buffers == s.buffers && s'.owner == s.owner && s'.returned == s.returned
    ensures Extends(s, s')
  {
  }

  lemma AdvanceExtends(cfg: Config, s: Sys, t: nat)
    requires SysInv(cfg, s) && t in s.threads
    ensures Extends(s, AdvanceStep(cfg, s, t))
  {
    var thread := s.threads[t];
    match thread.pc
    case Locked(event) =>
      if cfg.tidOf(t) !in s.buffers {
        InsertExtends(s, t, cfg.tidOf(t), Moved(thread, Found(event, true)));
      } else {
        SameExtends(s, AdvanceStep(cfg, s, t));
      }
    case Numbered(event, id) => PushExtends(s, t, cfg.tidOf(t), Moved(thread, Pushed(event, id)));
    case Opened(event, id) =>
      assert IdOk(cfg, s.events, s.returned, t, thread.pc);
      ReturnExtends(s, t, EnableAll(Moved(thread, Outside)), event, id);
    case _ => SameExtends(s, AdvanceStep(cfg, s, t));
  }

  /** Only the statements of `add_metric` write to the registry. */
  lemma RegistryUntouched(cfg: Config, s: Sys, a: SysAction)
    requires SamplersOk(s) && (!a.Advance? || a.t !in s.threads)
    ensures var s' := SysStep(cfg, s, a);
      s'.events == s.events && s'.buffers == s.buffers && s'.owner == s.owner && s'.returned == s.returned
  {
  }

  lemma StepExtends(cfg: Config, s: Sys, a: SysAction)
    requires SysInv(cfg, s) && SamplersOk(s)
    ensures Extends(s, SysStep(cfg, s, a))
  {
    if a.t in s.threads && a.Advance? {
      AdvanceExtends(cfg, s, a.t);
    } else {
      RegistryUntouched(cfg, s, a);
    }
  }

  lemma {:induction false} RunExtends(cfg: Config, s: Sys, acts: seq<SysAction>)
    requires SysInv(cfg, s) && SamplersOk(s)
    ensures Extends(s, SysRun(cfg, s, acts))
    decreases |acts|
  {
    if acts != [] {
      StepExtends(cfg, s, acts[0]);
      SysStepKeeps(cfg, s, acts[0]);
      RunExtends(cfg, SysStep(cfg, s, acts[0]), acts[1..]);
    }
  }

  lemma {:induction false} SysRunAppend(cfg: Config, s: Sys, a: seq<SysAction>, b: seq<SysAction>)
    requires SamplersOk(s)
    ensures SysRun(cfg, s, a + b) == SysRun(cfg, SysRun(cfg, s, a), b)
    decreases |a|
  {
    if a == [] {
      assert a + b == b;
    } else {
      assert (a + b)[1..] == a[1..] + b;
      SysRunAppend(cfg, SysStep(cfg, s, a[0]), a[1..], b);
    }
  }

  /** What an id means, which buffer a thread id has, and which thread inserted it, never
      changes again. */
  lemma RegistryStable(cfg: Config, threads: set<nat>, acts: seq<SysAction>, more: seq<SysAction>)
    ensures Extends(SysRun(cfg, NoMetrics(threads), acts), SysRun(cfg, NoMetrics(threads), acts + more))
  {
    var s := Reached(cfg, threads, acts);
    InvSamplers(cfg, s);
    RunExtends(cfg, s, more);
    SysRunAppend(cfg, NoMetrics(threads), acts, more);
  }

  /** At most one thread at a time is between locking and unlocking, and no call gets past the
      lock while one is. */
  lemma MutualExclusion(cfg: Config, threads: set<nat>, acts: seq<SysAction>, t: nat, u: nat, event: string)
    ensures var s := SysRun(cfg, NoMetrics(threads), acts);
      t in s.threads && u in s.threads && t != u && InCritical(s.threads[t].pc) ==>
        !InCritical(s.threads[u].pc) && SysStep(cfg, s, Call(u, event)) == s
  {
    var s := Reached(cfg, threads, acts);
  }

  /** No id is returned twice. */
  lemma IdsAreFresh(cfg: Config, threads: set<nat>, acts: seq<SysAction>, t: nat)
    ensures var s := SysRun(cfg, NoMetrics(threads), acts);
      t in s.threads && s.threads[t].pc.Opened? ==>
        && s.threads[t].pc.id !in s.returned
        && SysStep(cfg, s, Advance(t)).returned == s.returned[s.threads[t].pc.id := (t, s.threads[t].pc.event)]
  {
    var s := Reached(cfg, threads, acts);
    if t in s.threads && s.threads[t].pc.Opened? {
      assert IdOk(cfg, s.events, s.returned, t, s.threads[t].pc);
    }
  }

  // ---- the thread-local buffer ----

  /** The thread whose call inserted the buffer of its own thread id. */
  ghost predicate First(cfg: Config, s: Sys, t: nat)
  {
    cfg.tidOf(t) in s.owner && s.owner[cfg.tidOf(t)] == t
  }

  /** On a thread with descriptors the thread-local pointer is set, and is the buffer the
      registry has for its thread id, exactly if the thread was the first with that id. Every
      handler run that drains a ring meets such a thread. */
  lemma BufferIffFirst(cfg: Config, threads: set<nat>, acts: seq<SysAction>, t: nat)
    ensures var s := SysRun(cfg, NoMetrics(threads), acts);
      t in s.threads && s.threads[t].sampler.channels != map[] ==>
        && cfg.tidOf(t) in s.buffers
        && (First(cfg, s, t) <==> s.threads[t].eventData.Some?)
        && (s.threads[t].eventData.Some? ==> s.threads[t].eventData.value == s.buffers[cfg.tidOf(t)])
  {
    var s := Reached(cfg, threads, acts);
    if t in s.threads {
      assert ThreadOk(cfg, s.buffers, s.owner, t, s.threads[t]);
    }
  }

  /** What a handler run builds, and whether it is kept, in every reachable state: it reaches the
      store, at the buffer of the thread's id, if and only if the thread was the first with that
      id. */
  lemma HandlerReachesStoreIff(cfg: Config, threads: set<nat>, acts: seq<SysAction>, t: nat, fd: int)
    ensures var s := SysRun(cfg, NoMetrics(threads), acts);
      var s' := SysStep(cfg, s, HandleSignal(t, fd));
      t in s.threads ==>
        && t in s'.threads && |s.threads[t].sampler.log| <= |s'.threads[t].sampler.log|
        && var built := Events(s'.threads[t].sampler.log[|s.threads[t].sampler.log|..]);
           && (built != [] ==> (First(cfg, s, t) <==> s'.store != s.store))
           && (First(cfg, s, t) ==>
                 && cfg.tidOf(t) in s.buffers && s.buffers[cfg.tidOf(t)] < |s.store|
                 && var b := s.buffers[cfg.tidOf(t)];
                    s'.store == s.store[b := s.store[b] + built])
  {
    var s := Reached(cfg, threads, acts);
    if t in s.threads {
      HandlerStores(cfg, s, t, fd);
    }
  }

  lemma HandlerStores(cfg: Config, s: Sys, t: nat, fd: int)
    requires SysInv(cfg, s) && SamplersOk(s) && t in s.threads
    ensures var log, log' := s.threads[t].sampler.log, Handle(cfg, cfg.clock(t), s.threads[t].sampler, fd).log;
      var store' := SignalStep(cfg, s, t, fd).store;
      && |log| <= |log'|
      && var built := Events(log'[|log|..]);
         && (built != [] ==> (First(cfg, s, t) <==> store' != s.store))
         && (First(cfg, s, t) ==>
               && cfg.tidOf(t) in s.buffers && s.buffers[cfg.tidOf(t)] < |s.store|
               && var b := s.buffers[cfg.tidOf(t)];
                  store' == s.store[b := s.store[b] + built])
  {
    var sampler := s.threads[t].sampler;
    assert ThreadOk(cfg, s.buffers, s.owner, t, s.threads[t]);
    HandleAppends(cfg, cfg.clock(t), sampler, fd);
    var log' := Handle(cfg, cfg.clock(t), sampler, fd).log;
    StoreChanges(s, t, Events(log'[|sampler.log|..]));
    if sampler.channels == map[] {
      assert log'[|sampler.log|..] == [];
      if First(cfg, s, t) {
        var b := s.buffers[cfg.tidOf(t)];
        assert s.store[b] + [] == s.store[b];
      }
    }
  }

  lemma StoreChanges(s: Sys, t: nat, built: seq<AccessEvent>)
    requires t in s.threads
    ensures var e := s.threads[t].eventData;
      e.Some? && e.value < |s.store| ==>
        (s.store[e.value := s.store[e.value] + built] == s.store <==> built == [])
  {
    var e := s.threads[t].eventData;
    if e.Some? && e.value < |s.store| {
      var store := s.store[e.value := s.store[e.value] + built];
      assert store[e.value] == s.store[e.value] + built;
      if built == [] {
        assert s.store[e.value] + built == s.store[e.value];
        assert store == s.store;
      } else {
        assert |store[e.value]| != |s.store[e.value]|;
      }
    }
  }

  /** Thread ids are not reused. */
  ghost predicate NoReuse(cfg: Config, threads: set<nat>)
  {
    forall t, u :: t in threads && u in threads && cfg.tidOf(t) == cfg.tidOf(u) ==> t == u
  }

  lemma AdvanceThreads(cfg: Config, s: Sys, t: nat)
    requires t in s.threads
    ensures AdvanceStep(cfg, s, t).threads.Keys == s.threads.Keys
  {
    var s' := AdvanceStep(cfg, s, t);
    forall u
      ensures u in s'.threads <==> u in s.threads
    {
    }
  }

  lemma StepThreads(cfg: Config, s: Sys, a: SysAction)
    requires SamplersOk(s)
    ensures SysStep(cfg, s, a).threads.Keys == s.threads.Keys
  {
    if a.t in s.threads && a.Advance? {
      AdvanceThreads(cfg, s, a.t);
    }
  }

  lemma {:induction false} SameThreads(cfg: Config, s: Sys, acts: seq<SysAction>)
    requires SamplersOk(s)
    ensures SysRun(cfg, s, acts).threads.Keys == s.threads.Keys
    decreases |acts|
  {
    if acts != [] {
      StepThreads(cfg, s, acts[0]);
      SameThreads(cfg, SysStep(cfg, s, acts[0]), acts[1..]);
    }
  }

  /** Without reuse of thread ids no handler run ever finds a known descriptor and no buffer:
      the buffer is set before the first descriptor is opened, on every path. */
  lemma HandlerHasBuffer(cfg: Config, threads: set<nat>, acts: seq<SysAction>, t: nat)
    requires NoReuse(cfg, threads)
    ensures var s := SysRun(cfg, NoMetrics(threads), acts);
      t in s.threads && s.threads[t].sampler.channels != map[] ==>
        && First(cfg, s, t) && cfg.tidOf(t) in s.buffers
        && s.threads[t].eventData == Some(s.buffers[cfg.tidOf(t)])
  {
    var s := Reached(cfg, threads, acts);
    SameThreads(cfg, NoMetrics(threads), acts);
    BufferIffFirst(cfg, threads, acts, t);
  }
}
