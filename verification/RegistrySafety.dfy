/** What every reachable state of the registry keeps. */
module RegistrySafety {
  import opened Wrappers
  import opened Records
  import opened Sampling
  import opened Registry

  type Threads = map<nat, Thread>

  predicate HasId(pc: Pc)
  {
    pc.Pushed? || pc.Unlocked? || pc.Opened?
  }

  /** The mutex is held by exactly the thread inside the critical section. */
  ghost predicate LockOk(threads: Threads, holder: Option<nat>)
  {
    && (forall t :: t in threads ==> (InCritical(threads[t].pc) <==> holder == Some(t)))
    && (holder.Some? ==> holder.value in threads)
  }

  /** An id a call has taken names that call's own entry and has not been returned yet. */
  predicate IdOk(cfg: Config, events: seq<(nat, string)>, returned: map<nat, (nat, string)>, t: nat, pc: Pc)
  {
    && (pc.Numbered? ==> pc.id == |events|)
    && (HasId(pc) ==> pc.id < |events| && events[pc.id] == (cfg.tidOf(t), pc.event) && pc.id !in returned)
  }

  predicate IdsDiffer(a: Pc, b: Pc)
  {
    HasId(a) && HasId(b) ==> a.id != b.id
  }

  /** An id handed out names the thread that asked and the event it asked for. */
  predicate ReturnedOk(cfg: Config, events: seq<(nat, string)>, id: nat, call: (nat, string))
  {
    id < |events| && events[id] == (cfg.tidOf(call.0), call.1)
  }

  ghost predicate IdsOk(cfg: Config, threads: Threads, events: seq<(nat, string)>, returned: map<nat, (nat, string)>)
  {
    && (forall t {:trigger IdOk(cfg, events, returned, t, threads[t].pc)} ::
          t in threads ==> IdOk(cfg, events, returned, t, threads[t].pc))
    && (forall t, u {:trigger IdsDiffer(threads[t].pc, threads[u].pc)} ::
          t in threads && u in threads && t != u ==> IdsDiffer(threads[t].pc, threads[u].pc))
    && (forall id :: id in returned ==> ReturnedOk(cfg, events, id, returned[id]) && returned[id].0 in threads)
  }

  /** Some call in progress holds this id. */
  ghost predicate InFlight(threads: Threads, id: nat)
  {
    exists t :: t in threads && HasId(threads[t].pc) && threads[t].pc.id == id
  }

  /** Every entry of the table is the id of exactly one call: one that has returned it, one that
      has failed, or one that is in progress. */
  ghost predicate DenseOk(threads: Threads, n: nat, returned: set<nat>, failed: set<nat>)
  {
    && (forall id: nat :: id < n ==> id in returned || id in failed || InFlight(threads, id))
    && (forall id :: id in failed ==> id < n && id !in returned && !InFlight(threads, id))
  }

  /** One buffer for each inserted thread id, inserted by one of its threads; no two share. */
  ghost predicate BuffersOk(cfg: Config, threads: Threads, buffers: map<nat, nat>, owner: map<nat, nat>, n: nat)
  {
    && owner.Keys == buffers.Keys
    && (forall tid :: tid in buffers ==>
          buffers[tid] < n && owner[tid] in threads && cfg.tidOf(owner[tid]) == tid)
    && (forall a, b :: a in buffers && b in buffers && a != b ==> buffers[a] != buffers[b])
  }

  ghost predicate EventsOk(events: seq<(nat, string)>, buffers: map<nat, nat>)
  {
    forall i :: 0 <= i < |events| ==> events[i].0 in buffers
  }

  /** The thread-local pointer is set exactly on the thread that inserted the buffer, from the
      statement after the insertion on; descriptors exist only after that. */
  predicate ThreadOk(cfg: Config, buffers: map<nat, nat>, owner: map<nat, nat>, t: nat, thread: Thread)
  {
    var tid := cfg.tidOf(t);
    var mine := tid in owner && owner[tid] == t;
    var known := thread.sampler.channels != map[];
    && owner.Keys == buffers.Keys
    && (!known ==> thread.sampler.log == [])
    && (thread.pc.Opened? ==> known)
    && (known || (!thread.pc.Outside? && !thread.pc.Locked?) ==> tid in buffers)
    && (thread.pc.Found? && thread.pc.inserted ==> mine && !known)
    && (thread.eventData.Some? ==> mine && thread.eventData.value == buffers[tid])
    && (mine && thread.eventData.None? ==> thread.pc.Found? && thread.pc.inserted)
  }

  ghost predicate ThreadsOk(cfg: Config, threads: Threads, buffers: map<nat, nat>, owner: map<nat, nat>)
  {
    forall t {:trigger ThreadOk(cfg, buffers, owner, t, threads[t])} ::
      t in threads ==> ThreadOk(cfg, buffers, owner, t, threads[t])
  }

  ghost predicate SamplersInv(cfg: Config, threads: Threads)
  {
    forall t :: t in threads ==> SamplerInv(cfg, cfg.clock(t), threads[t].sampler)
  }

  /** The buffer of a thread id holds the history of the thread that inserted it. */
  ghost predicate StoreOk(threads: Threads, buffers: map<nat, nat>, owner: map<nat, nat>, store: seq<seq<AccessEvent>>)
  {
    forall tid :: tid in buffers && tid in owner && owner[tid] in threads && buffers[tid] < |store| ==>
      store[buffers[tid]] == Events(threads[owner[tid]].sampler.log)
  }

  ghost predicate SysInv(cfg: Config, s: Sys)
  {
    && LockOk(s.threads, s.holder)
    && IdsOk(cfg, s.threads, s.events, s.returned)
    && BuffersOk(cfg, s.threads, s.buffers, s.owner, |s.store|)
    && DenseOk(s.threads, |s.events|, s.returned.Keys, s.failed)
    && EventsOk(s.events, s.buffers)
    && ThreadsOk(cfg, s.threads, s.buffers, s.owner)
    && SamplersInv(cfg, s.threads)
    && StoreOk(s.threads, s.buffers, s.owner, s.store)
  }

  lemma InvSamplers(cfg: Config, s: Sys)
    requires SysInv(cfg, s)
    ensures SamplersOk(s)
  {
  }

  lemma NoMetricsInv(cfg: Config, threads: set<nat>)
    ensures SysInv(cfg, NoMetrics(threads))
  {
    forall t | t in threads
      ensures SamplerInv(cfg, cfg.clock(t), FRESH)
    {
      assert Interleaved(cfg, FRESH);
    }
  }

  // ---- one thread at a time ----

  lemma SetSamplers(cfg: Config, threads: Threads, t: nat, thread: Thread)
    requires SamplersInv(cfg, threads) && SamplerInv(cfg, cfg.clock(t), thread.sampler)
    ensures SamplersInv(cfg, threads[t := thread])
  {
  }

  lemma SetIds(cfg: Config, threads: Threads, events: seq<(nat, string)>, returned: map<nat, (nat, string)>,
      t: nat, thread: Thread)
    requires IdsOk(cfg, threads, events, returned) && t in threads
    requires IdOk(cfg, events, returned, t, thread.pc)
    requires HasId(thread.pc) ==> HasId(threads[t].pc) && threads[t].pc.id == thread.pc.id
    ensures IdsOk(cfg, threads[t := thread], events, returned)
  {
    forall u, v | u in threads && v in threads && u != v
      ensures IdsDiffer(threads[t := thread][u].pc, threads[t := thread][v].pc)
    {
      assert IdsDiffer(threads[u].pc, threads[v].pc);
    }
  }

  /** A thread that keeps its id, or has none before and after. */
  lemma SetDense(threads: Threads, n: nat, returned: set<nat>, failed: set<nat>, t: nat, thread: Thread)
    requires DenseOk(threads, n, returned, failed) && t in threads
    requires HasId(thread.pc) <==> HasId(threads[t].pc)
    requires HasId(thread.pc) ==> thread.pc.id == threads[t].pc.id
    ensures DenseOk(threads[t := thread], n, returned, failed)
  {
    var threads' := threads[t := thread];
    forall id
      ensures InFlight(threads, id) <==> InFlight(threads', id)
    {
      if InFlight(threads, id) {
        var u :| u in threads && HasId(threads[u].pc) && threads[u].pc.id == id;
        assert u in threads' && HasId(threads'[u].pc) && threads'[u].pc.id == id;
      }
      if InFlight(threads', id) {
        var u :| u in threads' && HasId(threads'[u].pc) && threads'[u].pc.id == id;
        assert u in threads && HasId(threads[u].pc) && threads[u].pc.id == id;
      }
    }
  }

  /** A thread that takes an id nobody has had. */
  lemma PushDense(threads: Threads, n: nat, returned: set<nat>, failed: set<nat>, t: nat, thread: Thread)
    requires DenseOk(threads, n, returned, failed) && t in threads && !HasId(threads[t].pc)
    requires HasId(thread.pc) && thread.pc.id == n
    ensures DenseOk(threads[t := thread], n + 1, returned, failed)
  {
    var threads' := threads[t := thread];
    assert t in threads' && HasId(threads'[t].pc) && threads'[t].pc.id == n;
    forall id | id != n
      ensures InFlight(threads, id) <==> InFlight(threads', id)
    {
      if InFlight(threads, id) {
        var u :| u in threads && HasId(threads[u].pc) && threads[u].pc.id == id;
        assert u in threads' && HasId(threads'[u].pc) && threads'[u].pc.id == id;
      }
      if InFlight(threads', id) {
        var u :| u in threads' && HasId(threads'[u].pc) && threads'[u].pc.id == id;
        assert u in threads && HasId(threads[u].pc) && threads[u].pc.id == id;
      }
    }
  }

  /** A thread that gives up its id, returned or failed. */
  lemma DropDense(threads: Threads, n: nat, returned: set<nat>, failed: set<nat>, t: nat, thread: Thread, ok: bool)
    requires DenseOk(threads, n, returned, failed) && t in threads && HasId(threads[t].pc) && !HasId(thread.pc)
    requires threads[t].pc.id < n && threads[t].pc.id !in returned
    requires forall u :: u in threads && u != t ==> IdsDiffer(threads[u].pc, threads[t].pc)
    ensures var id := threads[t].pc.id;
      DenseOk(threads[t := thread], n, if ok then returned + {id} else returned, if ok then failed else failed + {id})
  {
    var threads', mine := threads[t := thread], threads[t].pc.id;
    assert InFlight(threads, mine);
    forall id
      ensures InFlight(threads', id) <==> InFlight(threads, id) && id != mine
    {
      if InFlight(threads, id) && id != mine {
        var u :| u in threads && HasId(threads[u].pc) && threads[u].pc.id == id;
        assert u in threads' && HasId(threads'[u].pc) && threads'[u].pc.id == id;
      }
      if InFlight(threads', id) {
        var u :| u in threads' && HasId(threads'[u].pc) && threads'[u].pc.id == id;
        assert u in threads && HasId(threads[u].pc) && threads[u].pc.id == id;
        assert IdsDiffer(threads[u].pc, threads[t].pc);
      }
    }
  }

  lemma SetBuffers(cfg: Config, threads: Threads, buffers: map<nat, nat>, owner: map<nat, nat>, n: nat, t: nat,
      thread: Thread)
    requires BuffersOk(cfg, threads, buffers, owner, n) && ThreadsOk(cfg, threads, buffers, owner) && t in threads
    requires ThreadOk(cfg, buffers, owner, t, thread)
    ensures BuffersOk(cfg, threads[t := thread], buffers, owner, n)
    ensures ThreadsOk(cfg, threads[t := thread], buffers, owner)
  {
  }

  lemma SetStore(threads: Threads, buffers: map<nat, nat>, owner: map<nat, nat>, store: seq<seq<AccessEvent>>,
      t: nat, thread: Thread)
    requires StoreOk(threads, buffers, owner, store) && t in threads
    requires thread.sampler.log == threads[t].sampler.log
    ensures StoreOk(threads[t := thread], buffers, owner, store)
  {
  }

  /** Away from the insertion only the place in `add_metric` changes, and perhaps what is
      enabled. */
  lemma MovedOk(cfg: Config, buffers: map<nat, nat>, owner: map<nat, nat>, t: nat, thread: Thread, thread': Thread)
    requires ThreadOk(cfg, buffers, owner, t, thread)
    requires thread' == thread.(pc := thread'.pc, enabled := thread'.enabled)
    requires !(thread.pc.Found? && thread.pc.inserted) && !(thread'.pc.Found? && thread'.pc.inserted)
    requires !thread'.pc.Opened?
    requires thread'.pc.Outside? || thread'.pc.Locked? || cfg.tidOf(t) in buffers
    ensures ThreadOk(cfg, buffers, owner, t, thread')
  {
  }

  /** A thread past the first statements of `add_metric` has its thread id in the map. */
  lemma HasBuffer(cfg: Config, s: Sys, t: nat)
    requires SysInv(cfg, s) && t in s.threads && !s.threads[t].pc.Outside? && !s.threads[t].pc.Locked?
    ensures cfg.tidOf(t) in s.buffers
  {
    assert ThreadOk(cfg, s.buffers, s.owner, t, s.threads[t]);
  }

  /** A thread that moves, keeping its history, with no new id. */
  lemma Moves(cfg: Config, s: Sys, t: nat, thread: Thread)
    requires SysInv(cfg, s) && t in s.threads
    requires SamplerInv(cfg, cfg.clock(t), thread.sampler)
    requires ThreadOk(cfg, s.buffers, s.owner, t, thread)
    requires thread.sampler.log == s.threads[t].sampler.log
    ensures var threads := s.threads[t := thread];
      && BuffersOk(cfg, threads, s.buffers, s.owner, |s.store|) && ThreadsOk(cfg, threads, s.buffers, s.owner)
      && SamplersInv(cfg, threads) && StoreOk(threads, s.buffers, s.owner, s.store)
  {
    SetSamplers(cfg, s.threads, t, thread);
    SetBuffers(cfg, s.threads, s.buffers, s.owner, |s.store|, t, thread);
    SetStore(s.threads, s.buffers, s.owner, s.store, t, thread);
  }

  /** The same for a thread whose history and pointer stay as they are. */
  lemma OnlyMoves(cfg: Config, s: Sys, t: nat, thread: Thread)
    requires SysInv(cfg, s) && t in s.threads
    requires thread == s.threads[t].(pc := thread.pc, enabled := thread.enabled)
    requires !(s.threads[t].pc.Found? && s.threads[t].pc.inserted) && !(thread.pc.Found? && thread.pc.inserted)
    requires !thread.pc.Opened?
    requires thread.pc.Outside? || thread.pc.Locked? || (!s.threads[t].pc.Outside? && !s.threads[t].pc.Locked?)
    ensures var threads := s.threads[t := thread];
      && BuffersOk(cfg, threads, s.buffers, s.owner, |s.store|) && ThreadsOk(cfg, threads, s.buffers, s.owner)
      && SamplersInv(cfg, threads) && StoreOk(threads, s.buffers, s.owner, s.store)
  {
    var old_ := s.threads[t];
    if !old_.pc.Outside? && !old_.pc.Locked? {
      HasBuffer(cfg, s, t);
    }
    MovedOk(cfg, s.buffers, s.owner, t, old_, thread);
    Moves(cfg, s, t, thread);
  }

  lemma MoveKeeps(cfg: Config, s: Sys, t: nat, thread: Thread)
    requires SysInv(cfg, s) && t in s.threads
    requires SamplerInv(cfg, cfg.clock(t), thread.sampler)
    requires ThreadOk(cfg, s.buffers, s.owner, t, thread)
    requires thread.sampler.log == s.threads[t].sampler.log
    requires IdOk(cfg, s.events, s.returned, t, thread.pc)
    requires HasId(thread.pc) <==> HasId(s.threads[t].pc)
    requires HasId(thread.pc) ==> s.threads[t].pc.id == thread.pc.id
    requires InCritical(thread.pc) <==> InCritical(s.threads[t].pc)
    ensures SysInv(cfg, SetThread(s, t, thread))
  {
    SetDense(s.threads, |s.events|, s.returned.Keys, s.failed, t, thread);
    Moves(cfg, s, t, thread);
    SetIds(cfg, s.threads, s.events, s.returned, t, thread);
    SameLock(s.threads, s.holder, t, thread);
  }

  // ---- the steps that touch the registry or the mutex ----

  lemma CallKeeps(cfg: Config, s: Sys, t: nat, event: string)
    requires SysInv(cfg, s) && t in s.threads && s.threads[t].pc.Outside? && s.holder.None?
    ensures SysInv(cfg, LockStep(s, t, Moved(s.threads[t], Locked(event)), Some(t)))
  {
    var thread := Moved(s.threads[t], Locked(event));
    OnlyMoves(cfg, s, t, thread);
    SetIds(cfg, s.threads, s.events, s.returned, t, thread);
    EnterLock(s.threads, t, thread);
    SetDense(s.threads, |s.events|, s.returned.Keys, s.failed, t, thread);
  }

  /** Between push and return only the place changes, the id and its event stay. */
  lemma IdStays(cfg: Config, s: Sys, t: nat, pc: Pc)
    requires SysInv(cfg, s) && t in s.threads && HasId(s.threads[t].pc)
    requires HasId(pc) ==> pc.event == s.threads[t].pc.event && pc.id == s.threads[t].pc.id
    requires !pc.Numbered?
    ensures IdOk(cfg, s.events, s.returned, t, pc)
  {
    assert IdOk(cfg, s.events, s.returned, t, s.threads[t].pc);
  }

  lemma UnlockKeeps(cfg: Config, s: Sys, t: nat, thread: Thread)
    requires SysInv(cfg, s) && t in s.threads && s.threads[t].pc.Pushed?
    requires thread == Moved(s.threads[t], Unlocked(s.threads[t].pc.event, s.threads[t].pc.id))
    ensures SysInv(cfg, LockStep(s, t, thread, None))
  {
    OnlyMoves(cfg, s, t, thread);
    IdStays(cfg, s, t, thread.pc);
    SetIds(cfg, s.threads, s.events, s.returned, t, thread);
    UnlockLock(s.threads, s.holder, t, thread);
    SetDense(s.threads, |s.events|, s.returned.Keys, s.failed, t, thread);
  }

  lemma SameLock(threads: Threads, holder: Option<nat>, t: nat, thread: Thread)
    requires LockOk(threads, holder) && t in threads
    requires InCritical(threads[t].pc) <==> InCritical(thread.pc)
    ensures LockOk(threads[t := thread], holder)
  {
  }

  lemma EnterLock(threads: Threads, t: nat, thread: Thread)
    requires LockOk(threads, None) && t in threads && InCritical(thread.pc)
    ensures LockOk(threads[t := thread], Some(t))
  {
  }

  lemma UnlockLock(threads: Threads, holder: Option<nat>, t: nat, thread: Thread)
    requires LockOk(threads, holder) && t in threads && InCritical(threads[t].pc) && !InCritical(thread.pc)
    ensures LockOk(threads[t := thread], None)
  {
    assert InCritical(threads[t].pc) <==> holder == Some(t);
  }

  /** Inserting a thread id disturbs no thread. */
  lemma InsertThreads(cfg: Config, threads: Threads, buffers: map<nat, nat>, owner: map<nat, nat>, n: nat, t: nat,
      thread: Thread)
    requires ThreadsOk(cfg, threads, buffers, owner) && owner.Keys == buffers.Keys
    requires t in threads && threads[t].pc.Locked? && cfg.tidOf(t) !in buffers
    requires thread == threads[t].(pc := Found(threads[t].pc.event, true))
    ensures ThreadsOk(cfg, threads[t := thread], buffers[cfg.tidOf(t) := n], owner[cfg.tidOf(t) := t])
    ensures threads[t].sampler.log == []
  {
    var tid := cfg.tidOf(t);
    assert ThreadOk(cfg, buffers, owner, t, threads[t]);
    forall u | u in threads && u != t
      ensures ThreadOk(cfg, buffers[tid := n], owner[tid := t], u, threads[u])
    {
      assert ThreadOk(cfg, buffers, owner, u, threads[u]);
    }
  }

  lemma InsertBuffers(cfg: Config, threads: Threads, buffers: map<nat, nat>, owner: map<nat, nat>, n: nat, t: nat,
      thread: Thread)
    requires BuffersOk(cfg, threads, buffers, owner, n)
    requires t in threads && cfg.tidOf(t) !in buffers
    ensures BuffersOk(cfg, threads[t := thread], buffers[cfg.tidOf(t) := n], owner[cfg.tidOf(t) := t], n + 1)
  {
  }

  lemma InsertStore(cfg: Config, threads: Threads, buffers: map<nat, nat>, owner: map<nat, nat>,
      store: seq<seq<AccessEvent>>, t: nat, thread: Thread)
    requires BuffersOk(cfg, threads, buffers, owner, |store|) && StoreOk(threads, buffers, owner, store)
    requires t in threads && cfg.tidOf(t) !in buffers
    requires thread.sampler.log == threads[t].sampler.log == []
    ensures StoreOk(threads[t := thread], buffers[cfg.tidOf(t) := |store|], owner[cfg.tidOf(t) := t], store + [[]])
  {
    assert Events([]) == [];
  }

  lemma InsertKeeps(cfg: Config, s: Sys, t: nat, thread: Thread)
    requires SysInv(cfg, s) && t in s.threads && s.threads[t].pc.Locked? && cfg.tidOf(t) !in s.buffers
    requires thread == Moved(s.threads[t], Found(s.threads[t].pc.event, true))
    ensures SysInv(cfg, InsertStep(s, t, cfg.tidOf(t), thread))
  {
    SetSamplers(cfg, s.threads, t, thread);
    SetIds(cfg, s.threads, s.events, s.returned, t, thread);
    InsertThreads(cfg, s.threads, s.buffers, s.owner, |s.store|, t, thread);
    InsertBuffers(cfg, s.threads, s.buffers, s.owner, |s.store|, t, thread);
    InsertStore(cfg, s.threads, s.buffers, s.owner, s.store, t, thread);
    SetDense(s.threads, |s.events|, s.returned.Keys, s.failed, t, thread);
    SameLock(s.threads, s.holder, t, thread);
  }

  /** With the mutex held, the number taken is still the length of the table. */
  lemma PushIds(cfg: Config, s: Sys, t: nat, thread: Thread)
    requires LockOk(s.threads, s.holder) && IdsOk(cfg, s.threads, s.events, s.returned)
    requires t in s.threads && s.threads[t].pc.Numbered?
    requires thread.pc == Pushed(s.threads[t].pc.event, s.threads[t].pc.id)
    ensures IdsOk(cfg, s.threads[t := thread], s.events + [(cfg.tidOf(t), thread.pc.event)], s.returned)
  {
    var threads, events := s.threads[t := thread], s.events + [(cfg.tidOf(t), thread.pc.event)];
    assert IdOk(cfg, s.events, s.returned, t, s.threads[t].pc);
    forall id | id in s.returned
      ensures ReturnedOk(cfg, events, id, s.returned[id]) && id != |s.events|
    {
      assert ReturnedOk(cfg, s.events, id, s.returned[id]);
    }
    forall u | u in threads
      ensures IdOk(cfg, events, s.returned, u, threads[u].pc)
      ensures u != t ==> IdsDiffer(threads[u].pc, thread.pc)
    {
      assert IdOk(cfg, s.events, s.returned, u, s.threads[u].pc);
      assert InCritical(s.threads[u].pc) <==> s.holder == Some(u);
      assert InCritical(s.threads[t].pc) <==> s.holder == Some(t);
    }
    forall u, v | u in threads && v in threads && u != v
      ensures IdsDiffer(threads[u].pc, threads[v].pc)
    {
      assert IdsDiffer(s.threads[u].pc, s.threads[v].pc);
    }
  }

  lemma PushTable(cfg: Config, s: Sys, t: nat, thread: Thread)
    requires SysInv(cfg, s) && t in s.threads && s.threads[t].pc.Numbered?
    requires thread.pc == Pushed(s.threads[t].pc.event, s.threads[t].pc.id)
    ensures var events := s.events + [(cfg.tidOf(t), thread.pc.event)];
      && IdsOk(cfg, s.threads[t := thread], events, s.returned)
      && DenseOk(s.threads[t := thread], |events|, s.returned.Keys, s.failed)
  {
    assert IdOk(cfg, s.events, s.returned, t, s.threads[t].pc);
    PushIds(cfg, s, t, thread);
    PushDense(s.threads, |s.events|, s.returned.Keys, s.failed, t, thread);
  }

  lemma PushKeeps(cfg: Config, s: Sys, t: nat, thread: Thread)
    requires SysInv(cfg, s) && t in s.threads && s.threads[t].pc.Numbered?
    requires thread == Moved(s.threads[t], Pushed(s.threads[t].pc.event, s.threads[t].pc.id))
    ensures SysInv(cfg, PushStep(s, t, cfg.tidOf(t), thread))
  {
    OnlyMoves(cfg, s, t, thread);
    HasBuffer(cfg, s, t);
    PushTable(cfg, s, t, thread);
    SameLock(s.threads, s.holder, t, thread);
  }

  /** Returning an id: it is the call's own, and nobody else's. */
  lemma ReturnIds(cfg: Config, threads: Threads, events: seq<(nat, string)>, returned: map<nat, (nat, string)>,
      t: nat, thread: Thread)
    requires IdsOk(cfg, threads, events, returned) && t in threads && threads[t].pc.Opened? && thread.pc.Outside?
    ensures threads[t].pc.id !in returned
    ensures IdsOk(cfg, threads[t := thread], events, returned[threads[t].pc.id := (t, threads[t].pc.event)])
  {
    var pc := threads[t].pc;
    var threads', returned' := threads[t := thread], returned[pc.id := (t, pc.event)];
    assert IdOk(cfg, events, returned, t, pc);
    forall u | u in threads'
      ensures IdOk(cfg, events, returned', u, threads'[u].pc)
    {
      assert IdOk(cfg, events, returned, u, threads[u].pc);
      assert u != t ==> IdsDiffer(threads[u].pc, pc);
    }
    forall u, v | u in threads' && v in threads' && u != v
      ensures IdsDiffer(threads'[u].pc, threads'[v].pc)
    {
      assert IdsDiffer(threads[u].pc, threads[v].pc);
    }
  }

  /** The id of a call that ends goes where it belongs. */
  lemma GivesUp(cfg: Config, s: Sys, t: nat, thread: Thread, ok: bool)
    requires SysInv(cfg, s) && t in s.threads && HasId(s.threads[t].pc) && !HasId(thread.pc)
    ensures var id := s.threads[t].pc.id;
      DenseOk(s.threads[t := thread], |s.events|,
              if ok then s.returned.Keys + {id} else s.returned.Keys, if ok then s.failed else s.failed + {id})
  {
    assert IdOk(cfg, s.events, s.returned, t, s.threads[t].pc);
    forall u | u in s.threads && u != t
      ensures IdsDiffer(s.threads[u].pc, s.threads[t].pc)
    {
    }
    DropDense(s.threads, |s.events|, s.returned.Keys, s.failed, t, thread, ok);
  }

  lemma ReturnTable(cfg: Config, s: Sys, t: nat, thread: Thread)
    requires SysInv(cfg, s) && t in s.threads && s.threads[t].pc.Opened? && thread.pc.Outside?
    ensures var pc := s.threads[t].pc;
      var returned := s.returned[pc.id := (t, pc.event)];
      && IdsOk(cfg, s.threads[t := thread], s.events, returned)
      && DenseOk(s.threads[t := thread], |s.events|, returned.Keys, s.failed)
  {
    var pc := s.threads[t].pc;
    ReturnIds(cfg, s.threads, s.events, s.returned, t, thread);
    GivesUp(cfg, s, t, thread, true);
    assert s.returned[pc.id := (t, pc.event)].Keys == s.returned.Keys + {pc.id};
  }

  lemma ReturnKeeps(cfg: Config, s: Sys, t: nat, thread: Thread)
    requires SysInv(cfg, s) && t in s.threads && s.threads[t].pc.Opened?
    requires thread == EnableAll(Moved(s.threads[t], Outside))
    ensures SysInv(cfg, ReturnStep(s, t, thread, s.threads[t].pc.event, s.threads[t].pc.id))
  {
    ReturnTable(cfg, s, t, thread);
    OnlyMoves(cfg, s, t, thread);
    SameLock(s.threads, s.holder, t, thread);
  }

  lemma FoundKeeps(cfg: Config, s: Sys, t: nat)
    requires SysInv(cfg, s) && t in s.threads && s.threads[t].pc.Found?
    ensures SysInv(cfg, AdvanceStep(cfg, s, t))
  {
    var thread := s.threads[t];
    var ready := Moved(thread, Ready(thread.pc.event));
    assert ThreadOk(cfg, s.buffers, s.owner, t, thread);
    MoveKeeps(cfg, s, t, if thread.pc.inserted then ready.(eventData := Some(s.buffers[cfg.tidOf(t)])) else ready);
  }

  /** The statements that only move the thread. */
  lemma PlainKeeps(cfg: Config, s: Sys, t: nat, thread: Thread)
    requires SysInv(cfg, s) && t in s.threads && InCritical(s.threads[t].pc) && InCritical(thread.pc)
    requires !(s.threads[t].pc.Found? && s.threads[t].pc.inserted) && cfg.tidOf(t) in s.buffers
    requires thread == Moved(s.threads[t], thread.pc) && !(thread.pc.Found? && thread.pc.inserted)
    requires !HasId(s.threads[t].pc) && !HasId(thread.pc) && (thread.pc.Numbered? ==> thread.pc.id == |s.events|)
    ensures SysInv(cfg, SetThread(s, t, thread))
  {
    assert ThreadOk(cfg, s.buffers, s.owner, t, s.threads[t]);
    MovedOk(cfg, s.buffers, s.owner, t, s.threads[t], thread);
    MoveKeeps(cfg, s, t, thread);
  }

  lemma LockedKeeps(cfg: Config, s: Sys, t: nat)
    requires SysInv(cfg, s) && t in s.threads && s.threads[t].pc.Locked?
    ensures SysInv(cfg, AdvanceStep(cfg, s, t))
  {
    var thread := s.threads[t];
    if cfg.tidOf(t) !in s.buffers {
      InsertKeeps(cfg, s, t, Moved(thread, Found(thread.pc.event, true)));
    } else {
      PlainKeeps(cfg, s, t, Moved(thread, Found(thread.pc.event, false)));
    }
  }

  lemma AdvanceKeeps(cfg: Config, s: Sys, t: nat)
    requires SysInv(cfg, s) && t in s.threads
    ensures SysInv(cfg, AdvanceStep(cfg, s, t))
  {
    var thread := s.threads[t];
    match thread.pc
    case Outside =>
    case Locked(event) => LockedKeeps(cfg, s, t);
    case Found(_, _) => FoundKeeps(cfg, s, t);
    case Ready(event) =>
      HasBuffer(cfg, s, t);
      PlainKeeps(cfg, s, t, Moved(thread, Numbered(event, |s.events|)));
    case Numbered(event, id) => PushKeeps(cfg, s, t, Moved(thread, Pushed(event, id)));
    case Pushed(event, id) => UnlockKeeps(cfg, s, t, Moved(thread, Unlocked(event, id)));
    case Unlocked(_, _) =>
    case Opened(_, _) => ReturnKeeps(cfg, s, t, EnableAll(Moved(thread, Outside)));
  }

  // ---- descriptors, commits, signals ----

  /** More descriptors on a thread that has its buffer. */
  lemma OpenedOk(cfg: Config, buffers: map<nat, nat>, owner: map<nat, nat>, t: nat, thread: Thread, result: OpenResult)
    requires ThreadOk(cfg, buffers, owner, t, thread) && thread.pc.Unlocked?
    requires SamplerInv(cfg, cfg.clock(t), thread.sampler)
    ensures ThreadOk(cfg, buffers, owner, t, OpenThread(thread, result))
    ensures SamplerInv(cfg, cfg.clock(t), OpenThread(thread, result).sampler)
    ensures OpenThread(thread, result).sampler.log == thread.sampler.log
  {
    OpenStepKeeps(cfg, cfg.clock(t), thread.sampler, result);
  }

  lemma OpenMoves(cfg: Config, s: Sys, t: nat, result: OpenResult)
    requires SysInv(cfg, s) && SamplersOk(s) && t in s.threads && s.threads[t].pc.Unlocked?
    ensures var threads := s.threads[t := OpenThread(s.threads[t], result)];
      && BuffersOk(cfg, threads, s.buffers, s.owner, |s.store|) && ThreadsOk(cfg, threads, s.buffers, s.owner)
      && SamplersInv(cfg, threads) && StoreOk(threads, s.buffers, s.owner, s.store)
  {
    OpenedOk(cfg, s.buffers, s.owner, t, s.threads[t], result);
    Moves(cfg, s, t, OpenThread(s.threads[t], result));
  }

  lemma FailTable(cfg: Config, s: Sys, t: nat, thread: Thread)
    requires SysInv(cfg, s) && t in s.threads && s.threads[t].pc.Unlocked? && thread.pc.Outside?
    ensures IdsOk(cfg, s.threads[t := thread], s.events, s.returned)
    ensures DenseOk(s.threads[t := thread], |s.events|, s.returned.Keys, s.failed + {s.threads[t].pc.id})
  {
    SetIds(cfg, s.threads, s.events, s.returned, t, thread);
    GivesUp(cfg, s, t, thread, false);
  }

  /** `event_open` failed: the call is over, its entry stays in the table. */
  lemma FailKeeps(cfg: Config, s: Sys, t: nat, result: OpenResult)
    requires SysInv(cfg, s) && SamplersOk(s) && t in s.threads && s.threads[t].pc.Unlocked? && !result.Opened?
    ensures SysInv(cfg, OpenEventStep(s, t, result))
  {
    var thread := OpenThread(s.threads[t], result);
    OpenMoves(cfg, s, t, result);
    FailTable(cfg, s, t, thread);
    SameLock(s.threads, s.holder, t, thread);
  }

  lemma OpenKeeps(cfg: Config, s: Sys, t: nat, result: OpenResult)
    requires SysInv(cfg, s) && SamplersOk(s) && t in s.threads
    ensures SysInv(cfg, OpenEventStep(s, t, result))
  {
    var thread := s.threads[t];
    if thread.pc.Unlocked? {
      if result.Opened? {
        IdStays(cfg, s, t, OpenThread(thread, result).pc);
        OpenedOk(cfg, s.buffers, s.owner, t, thread, result);
        MoveKeeps(cfg, s, t, OpenThread(thread, result));
      } else {
        FailKeeps(cfg, s, t, result);
      }
    }
  }

  lemma CommitKeeps(cfg: Config, s: Sys, t: nat, fd: int, record: Record)
    requires SysInv(cfg, s) && SamplersOk(s) && t in s.threads && fd in s.threads[t].enabled
    ensures var thread := s.threads[t];
      SysInv(cfg, SetThread(s, t, thread.(
        sampler := ThreadStep(cfg, cfg.clock(t), thread.sampler, Commit(fd, record)))))
  {
    var thread := s.threads[t];
    assert ThreadOk(cfg, s.buffers, s.owner, t, thread);
    assert IdOk(cfg, s.events, s.returned, t, thread.pc);
    ThreadStepKeeps(cfg, cfg.clock(t), thread.sampler, Commit(fd, record));
    MoveKeeps(cfg, s, t, thread.(sampler := ThreadStep(cfg, cfg.clock(t), thread.sampler, Commit(fd, record))));
  }

  /** What a thread with a buffer logs goes where its thread id's buffer is. */
  lemma StoreGrows(cfg: Config, threads: Threads, buffers: map<nat, nat>, owner: map<nat, nat>,
                   store: seq<seq<AccessEvent>>, t: nat, thread: Thread, built: seq<AccessEvent>)
    requires BuffersOk(cfg, threads, buffers, owner, |store|) && StoreOk(threads, buffers, owner, store)
    requires t in threads && cfg.tidOf(t) in buffers && owner[cfg.tidOf(t)] == t
    requires Events(thread.sampler.log) == Events(threads[t].sampler.log) + built
    ensures var b := buffers[cfg.tidOf(t)];
      StoreOk(threads[t := thread], buffers, owner, store[b := store[b] + built])
  {
  }

  /** What a thread without a buffer logs goes nowhere. */
  lemma StoreStays(cfg: Config, threads: Threads, buffers: map<nat, nat>, owner: map<nat, nat>,
                   store: seq<seq<AccessEvent>>, t: nat, thread: Thread)
    requires BuffersOk(cfg, threads, buffers, owner, |store|) && StoreOk(threads, buffers, owner, store)
    requires t in threads
    requires cfg.tidOf(t) in owner && owner[cfg.tidOf(t)] == t ==> thread.sampler.log == threads[t].sampler.log
    ensures StoreOk(threads[t := thread], buffers, owner, store)
  {
  }

  lemma SignalMoves(cfg: Config, s: Sys, t: nat, fd: int)
    requires SysInv(cfg, s) && SamplersOk(s) && t in s.threads
    ensures var threads := s.threads[t := Signalled(cfg, t, s.threads[t], fd)];
      && LockOk(threads, s.holder) && IdsOk(cfg, threads, s.events, s.returned)
      && DenseOk(threads, |s.events|, s.returned.Keys, s.failed)
      && BuffersOk(cfg, threads, s.buffers, s.owner, |s.store|) && ThreadsOk(cfg, threads, s.buffers, s.owner)
      && SamplersInv(cfg, threads)
  {
    var thread := s.threads[t];
    var thread' := Signalled(cfg, t, thread, fd);
    assert ThreadOk(cfg, s.buffers, s.owner, t, thread);
    assert IdOk(cfg, s.events, s.returned, t, thread.pc);
    HandleAppends(cfg, cfg.clock(t), thread.sampler, fd);
    ThreadStepKeeps(cfg, cfg.clock(t), thread.sampler, Signal(fd));
    SetSamplers(cfg, s.threads, t, thread');
    SetIds(cfg, s.threads, s.events, s.returned, t, thread');
    SetBuffers(cfg, s.threads, s.buffers, s.owner, |s.store|, t, thread');
    SameLock(s.threads, s.holder, t, thread');
    SetDense(s.threads, |s.events|, s.returned.Keys, s.failed, t, thread');
  }

  lemma SignalKeeps(cfg: Config, s: Sys, t: nat, fd: int)
    requires SysInv(cfg, s) && SamplersOk(s) && t in s.threads
    ensures SysInv(cfg, SignalStep(cfg, s, t, fd))
  {
    var thread := s.threads[t];
    var thread' := Signalled(cfg, t, thread, fd);
    SignalMoves(cfg, s, t, fd);
    assert ThreadOk(cfg, s.buffers, s.owner, t, thread);
    HandleAppends(cfg, cfg.clock(t), thread.sampler, fd);
    if thread.eventData.Some? {
      StoreGrows(cfg, s.threads, s.buffers, s.owner, s.store, t, thread',
                 Events(thread'.sampler.log[|thread.sampler.log|..]));
    } else {
      StoreStays(cfg, s.threads, s.buffers, s.owner, s.store, t, thread');
    }
  }

  lemma SysStepKeeps(cfg: Config, s: Sys, a: SysAction)
    requires SysInv(cfg, s) && SamplersOk(s)
    ensures SysInv(cfg, SysStep(cfg, s, a))
  {
    if a.t in s.threads {
      match a
      case Call(t, event) =>
        if s.threads[t].pc.Outside? && s.holder.None? {
          CallKeeps(cfg, s, t, event);
        }
      case Advance(t) => AdvanceKeeps(cfg, s, t);
      case OpenEvent(t, result) => OpenKeeps(cfg, s, t, result);
      case KernelCommit(t, fd, record) =>
        if fd in s.threads[t].enabled {
          CommitKeeps(cfg, s, t, fd, record);
        }
      case HandleSignal(t, fd) => SignalKeeps(cfg, s, t, fd);
    }
  }

  lemma {:induction false} SysRunKeeps(cfg: Config, s: Sys, acts: seq<SysAction>)
    requires SysInv(cfg, s) && SamplersOk(s)
    ensures SysInv(cfg, SysRun(cfg, s, acts))
    decreases |acts|
  {
    if acts != [] {
      SysStepKeeps(cfg, s, acts[0]);
      SysRunKeeps(cfg, SysStep(cfg, s, acts[0]), acts[1..]);
    }
  }
}
