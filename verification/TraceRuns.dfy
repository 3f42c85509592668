/** What the destructor writes after a run of the registry. */
module TraceRuns {
  import opened Wrappers
  import opened Sampling
  import opened Registry
  import opened RegistrySafety
  import opened RegistryTheorems
  import opened TraceWriters

  /** The destructor as it begins on the buffers of a registry state; `order` is the iteration. */
  function ExitOf(cfg: Config, s: Sys, order: seq<nat>, files: map<string, File>): Exit
  {
    var buffers := map tid | tid in s.buffers ::
      if s.buffers[tid] < |s.store| then Some(s.store[s.buffers[tid]]) else None;
    Exit(cfg.bufferSize, order, buffers, 0, [], 0, files)
  }

  predicate Enumerates(order: seq<nat>, s: Sys)
  {
    && Distinct(order)
    && (forall tid :: tid in order ==> tid in s.buffers)
    && (forall tid :: tid in s.buffers ==> tid in order)
  }

  /** No sample reaches this buffer during the destructor. */
  predicate Quiet(acts: seq<ExitAction>, tid: nat)
  {
    forall i :: 0 <= i < |acts| ==> !(acts[i].Append? && acts[i].tid == tid)
  }

  lemma {:induction false} BufferStays(name: nat -> string, s: Exit, acts: seq<ExitAction>, tid: nat)
    requires Quiet(acts, tid) && HasTrace(s.buffers, tid)
    ensures HasTrace(ExitRun(name, s, acts).buffers, tid) && ExitRun(name, s, acts).buffers[tid] == s.buffers[tid]
    decreases |acts|
  {
    if acts != [] {
      assert !(acts[0].Append? && acts[0].tid == tid);
      BufferStays(name, ExitStep(name, s, acts[0]), acts[1..], tid);
    }
  }

  /** The buffers the destructor finds hold the histories of the threads that inserted them. */
  lemma BuffersAreHistories(cfg: Config, s: Sys, order: seq<nat>, files: map<string, File>, tid: nat)
    requires SysInv(cfg, s) && tid in s.buffers
    ensures tid in s.owner && s.owner[tid] in s.threads && cfg.tidOf(s.owner[tid]) == tid
    ensures var s0 := ExitOf(cfg, s, order, files);
      HasTrace(s0.buffers, tid) && s0.buffers[tid].value == Events(s.threads[s.owner[tid]].sampler.log)
  {
  }

  /** The file holds the newest of the events logged, and perhaps of later ones. */
  ghost predicate HistoryFile(file: File, tid: nat, logged: seq<AccessEvent>, after: seq<AccessEvent>, capacity: nat)
  {
    exists seen :: logged <= seen <= after && file == Trace(tid, Newest(seen, capacity))
  }

  lemma WrittenHistory(name: nat -> string, s0: Exit, exits: seq<ExitAction>, tid: nat)
    requires Begin(s0) && Injective(name) && Returned(ExitRun(name, s0, exits)) && HasTrace(s0.buffers, tid)
    ensures var s', logged := ExitRun(name, s0, exits), s0.buffers[tid].value;
      && HasTrace(s'.buffers, tid) && name(tid) in s'.files
      && HistoryFile(s'.files[name(tid)], tid, logged, s'.buffers[tid].value, s0.capacity)
      && (Quiet(exits, tid) ==> s'.files[name(tid)] == Trace(tid, Newest(logged, s0.capacity)))
  {
    TracesComplete(name, s0, exits, tid);
    var s' := ExitRun(name, s0, exits);
    var seen :| CompleteAt(s0, s', tid, s'.files[name(tid)], seen);
    Witness(s'.files[name(tid)], tid, s0.buffers[tid].value, seen, s'.buffers[tid].value, s0.capacity);
    if Quiet(exits, tid) {
      BufferStays(name, s0, exits, tid);
    }
  }

  lemma Witness(file: File, tid: nat, logged: seq<AccessEvent>, seen: seq<AccessEvent>,
                after: seq<AccessEvent>, capacity: nat)
    requires logged <= seen <= after && file == Trace(tid, Newest(seen, capacity))
    ensures HistoryFile(file, tid, logged, after, capacity)
    ensures logged == after ==> seen == logged
  {
  }

  lemma ExitBegins(cfg: Config, s: Sys, order: seq<nat>, files: map<string, File>)
    requires Enumerates(order, s)
    ensures Begin(ExitOf(cfg, s, order, files))
  {
    var s0 := ExitOf(cfg, s, order, files);
    assert s0.buffers.Keys == s.buffers.Keys;
  }

  /** From the first `add_metric` to the end of the destructor: whatever the threads did, and
      however the writers run, the file of every thread id that registered a metric is there, and
      holds the newest `bufferSize` events of the first thread with that id: exactly those it had
      logged, if it takes no further sample, and otherwise those up to one moment of the
      destructor. */
  lemma TracesAreHistories(cfg: Config, threads: set<nat>, acts: seq<SysAction>, name: nat -> string,
                           order: seq<nat>, files: map<string, File>, exits: seq<ExitAction>, tid: nat)
    requires Injective(name)
    requires var s := SysRun(cfg, NoMetrics(threads), acts);
      && Enumerates(order, s) && tid in s.buffers
      && Returned(ExitRun(name, ExitOf(cfg, s, order, files), exits))
    ensures var s := SysRun(cfg, NoMetrics(threads), acts);
      var s' := ExitRun(name, ExitOf(cfg, s, order, files), exits);
      && tid in s.owner && s.owner[tid] in s.threads && cfg.tidOf(s.owner[tid]) == tid
      && name(tid) in s'.files && HasTrace(s'.buffers, tid)
      && var logged := Events(s.threads[s.owner[tid]].sampler.log);
         && HistoryFile(s'.files[name(tid)], tid, logged, s'.buffers[tid].value, cfg.bufferSize)
         && (Quiet(exits, tid) ==> s'.files[name(tid)] == Trace(tid, Newest(logged, cfg.bufferSize)))
  {
    var s := Reached(cfg, threads, acts);
    BuffersAreHistories(cfg, s, order, files, tid);
    ExitBegins(cfg, s, order, files);
    WrittenHistory(name, ExitOf(cfg, s, order, files), exits, tid);
  }
}
