/** The destructor's writer threads: forked one by one, each with a private copy of a buffer,
    running in any order, joined at the end. */
module TraceWriters {
  import opened Wrappers
  import opened Sampling

  /** `write_event_buffer`: create the file, write the metadata, write the events. */
  datatype WriterPc = Started | Created | Described | Finished

  /** items: the copy of the buffer's events. The field `seen` is an observer's: everything that
      had been appended to the buffer when it was copied. */
  datatype Writer = Writer(tid: nat, items: seq<AccessEvent>, seen: seq<AccessEvent>, pc: WriterPc)

  datatype File = Empty | Header(tid: nat, count: nat) | Trace(tid: nat, events: seq<AccessEvent>)

  /** capacity: of every buffer; buffers: for each thread id everything appended to its buffer,
      of which the buffer holds the newest, or None for a null pointer; order: the thread ids as
      the map is iterated; next: how far the forking loop has come;
      joined: how many writers the joining loop has passed. */
  datatype Exit = Exit(
    capacity: nat, order: seq<nat>, buffers: map<nat, Option<seq<AccessEvent>>>,
    next: nat, writers: seq<Writer>, joined: nat, files: map<string, File>)

  datatype ExitAction = Fork | Write(i: nat) | Join | Append(tid: nat, event: AccessEvent)

  /** `buffer` is null or holds a trace to be written. */
  predicate HasTrace(buffers: map<nat, Option<seq<AccessEvent>>>, tid: nat)
  {
    tid in buffers && buffers[tid].Some?
  }

  function WriteStep(name: nat -> string, s: Exit, i: nat): Exit
    requires i < |s.writers|
  {
    var w := s.writers[i];
    match w.pc
    case Started => s.(files := s.files[name(w.tid) := Empty], writers := s.writers[i := w.(pc := Created)])
    case Created =>
      s.(files := s.files[name(w.tid) := Header(w.tid, |w.items|)], writers := s.writers[i := w.(pc := Described)])
    case Described =>
      s.(files := s.files[name(w.tid) := Trace(w.tid, w.items)], writers := s.writers[i := w.(pc := Finished)])
    case Finished => s
  }

  /** A new writer, with its private copy of a buffer to which `appended` has been appended. */
  function CopyOf(capacity: nat, tid: nat, appended: seq<AccessEvent>): Writer
  {
    Writer(tid, Newest(appended, capacity), appended, Started)
  }

  /** One step of the destructor, of a writer, or of an application thread still sampling. */
  function ExitStep(name: nat -> string, s: Exit, a: ExitAction): Exit
  {
    match a
    case Fork =>
      if s.next < |s.order| then
        var tid := s.order[s.next];
        if HasTrace(s.buffers, tid) then
          s.(next := s.next + 1, writers := s.writers + [CopyOf(s.capacity, tid, s.buffers[tid].value)])
        else s.(next := s.next + 1)
      else s
    case Write(i) => if i < |s.writers| then WriteStep(name, s, i) else s
    case Join =>
      if s.next >= |s.order| && s.joined < |s.writers| && s.writers[s.joined].pc.Finished? then
        s.(joined := s.joined + 1)
      else s
    case Append(tid, event) =>
      if HasTrace(s.buffers, tid) then
        s.(buffers := s.buffers[tid := Some(s.buffers[tid].value + [event])])
      else s
  }

  function ExitRun(name: nat -> string, s: Exit, acts: seq<ExitAction>): Exit
    decreases |acts|
  {
    if acts == [] then s else ExitRun(name, ExitStep(name, s, acts[0]), acts[1..])
  }

  /** The destructor may return. */
  predicate Returned(s: Exit)
  {
    s.next >= |s.order| && s.joined >= |s.writers|
  }

  predicate Distinct(order: seq<nat>)
  {
    forall i, j :: 0 <= i < j < |order| ==> order[i] != order[j]
  }

  /** The destructor starts: the iteration will meet every key of the map once. */
  ghost predicate Begin(s: Exit)
  {
    && Distinct(s.order) && (forall tid :: tid in s.order <==> tid in s.buffers)
    && s.next == 0 && s.writers == [] && s.joined == 0
  }

  /** `convert_thread_id` and the file name built from it tell thread ids apart. */
  ghost predicate Injective(name: nat -> string)
  {
    forall a, b :: name(a) == name(b) ==> a == b
  }

  /** The thread ids among the first n whose buffer is not null. */
  function Traced(s0: Exit, n: nat): seq<nat>
    requires n <= |s0.order|
  {
    if n == 0 then []
    else Traced(s0, n - 1) + (if HasTrace(s0.buffers, s0.order[n - 1]) then [s0.order[n - 1]] else [])
  }

  /** What the file of a writer is at each point of its run. */
  function FileAt(name: nat -> string, files0: map<string, File>, w: Writer): Option<File>
  {
    match w.pc
    case Started => if name(w.tid) in files0 then Some(files0[name(w.tid)]) else None
    case Created => Some(Empty)
    case Described => Some(Header(w.tid, |w.items|))
    case Finished => Some(Trace(w.tid, w.items))
  }

  predicate FileIs(files: map<string, File>, file: string, content: Option<File>)
  {
    (file in files <==> content.Some?) && (file in files ==> files[file] == content.value)
  }

  /** What has been appended to a buffer has only grown; a copy was taken in between. */
  predicate Grown(before: map<nat, Option<seq<AccessEvent>>>, after: map<nat, Option<seq<AccessEvent>>>, tid: nat)
  {
    && (HasTrace(before, tid) <==> HasTrace(after, tid))
    && (HasTrace(before, tid) && HasTrace(after, tid) ==> before[tid].value <= after[tid].value)
  }

  predicate CopiedBetween(before: map<nat, Option<seq<AccessEvent>>>, w: Writer,
                          after: map<nat, Option<seq<AccessEvent>>>)
  {
    HasTrace(before, w.tid) && HasTrace(after, w.tid) && before[w.tid].value <= w.seen <= after[w.tid].value
  }

  predicate IsTraced(s0: Exit, n: nat, writers: seq<Writer>)
    requires n <= |s0.order|
  {
    |writers| == |Traced(s0, n)| && forall i :: 0 <= i < |writers| ==> writers[i].tid == Traced(s0, n)[i]
  }

  /** No writer works on this file. */
  predicate Free(name: nat -> string, writers: seq<Writer>, file: string)
  {
    forall i :: 0 <= i < |writers| ==> name(writers[i].tid) != file
  }

  function Untouched(files0: map<string, File>, file: string): Option<File>
  {
    if file in files0 then Some(files0[file]) else None
  }

  ghost predicate FilesOk(name: nat -> string, files0: map<string, File>, writers: seq<Writer>,
                          files: map<string, File>)
  {
    && (forall i :: 0 <= i < |writers| ==>
          FileIs(files, name(writers[i].tid), FileAt(name, files0, writers[i])))
    && (forall file :: Free(name, writers, file) ==> FileIs(files, file, Untouched(files0, file)))
  }

  ghost predicate CopiesOk(s0: Exit, s: Exit)
  {
    && (forall tid :: Grown(s0.buffers, s.buffers, tid))
    && (forall i :: 0 <= i < |s.writers| ==>
          && CopiedBetween(s0.buffers, s.writers[i], s.buffers)
          && s.writers[i].items == Newest(s.writers[i].seen, s0.capacity))
  }

  ghost predicate ExitInv(name: nat -> string, s0: Exit, s: Exit)
  {
    && s.capacity == s0.capacity && s.order == s0.order && s.next <= |s.order|
    && IsTraced(s0, s.next, s.writers)
    && s.joined <= |s.writers|
    && (forall i :: 0 <= i < s.joined ==> s.writers[i].pc.Finished?)
    && CopiesOk(s0, s)
    && FilesOk(name, s0.files, s.writers, s.files)
  }

  /** The traced thread ids are among those iterated, and pairwise different. */
  lemma {:induction false} TracedElements(s0: Exit, n: nat)
    requires n <= |s0.order|
    ensures |Traced(s0, n)| <= n
    ensures forall i :: 0 <= i < |Traced(s0, n)| ==> exists j :: 0 <= j < n && Traced(s0, n)[i] == s0.order[j]
  {
    if n != 0 {
      TracedElements(s0, n - 1);
      forall i | 0 <= i < |Traced(s0, n)|
        ensures exists j :: 0 <= j < n && Traced(s0, n)[i] == s0.order[j]
      {
        if i < |Traced(s0, n - 1)| {
          var j :| 0 <= j < n - 1 && Traced(s0, n - 1)[i] == s0.order[j];
          assert Traced(s0, n)[i] == s0.order[j];
        } else {
          assert Traced(s0, n)[i] == s0.order[n - 1];
        }
      }
    }
  }

  lemma {:induction false} TracedDistinct(s0: Exit, n: nat)
    requires n <= |s0.order| && Distinct(s0.order)
    ensures Distinct(Traced(s0, n))
  {
    if n != 0 {
      TracedDistinct(s0, n - 1);
      TracedElements(s0, n - 1);
    }
  }

  lemma WritersDistinct(s0: Exit, n: nat, writers: seq<Writer>)
    requires n <= |s0.order| && Distinct(s0.order) && IsTraced(s0, n, writers)
    ensures forall i, j :: 0 <= i < j < |writers| ==> writers[i].tid != writers[j].tid
  {
    TracedDistinct(s0, n);
  }

  lemma WriteFiles(name: nat -> string, files0: map<string, File>, writers: seq<Writer>, files: map<string, File>,
      i: nat, w: Writer, content: File)
    requires FilesOk(name, files0, writers, files) && i < |writers| && Injective(name)
    requires forall a, b :: 0 <= a < b < |writers| ==> writers[a].tid != writers[b].tid
    requires w.tid == writers[i].tid && FileAt(name, files0, w) == Some(content)
    ensures FilesOk(name, files0, writers[i := w], files[name(w.tid) := content])
  {
    var writers', files' := writers[i := w], files[name(w.tid) := content];
    forall j | 0 <= j < |writers'|
      ensures FileIs(files', name(writers'[j].tid), FileAt(name, files0, writers'[j]))
    {
      assert FileIs(files, name(writers[j].tid), FileAt(name, files0, writers[j]));
      assert j != i ==> writers[j].tid != writers[i].tid;
    }
    forall file | Free(name, writers', file)
      ensures FileIs(files', file, Untouched(files0, file))
    {
      assert name(writers'[i].tid) != file;
      forall j | 0 <= j < |writers|
        ensures name(writers[j].tid) != file
      {
        assert name(writers'[j].tid) != file;
      }
      assert Free(name, writers, file);
    }
  }

  lemma WriteKeeps(name: nat -> string, s0: Exit, s: Exit, i: nat)
    requires ExitInv(name, s0, s) && Distinct(s0.order) && Injective(name) && i < |s.writers|
    ensures ExitInv(name, s0, WriteStep(name, s, i))
  {
    var s' := WriteStep(name, s, i);
    var w := s.writers[i];
    WritersDistinct(s0, s.next, s.writers);
    if !w.pc.Finished? {
      WriteFiles(name, s0.files, s.writers, s.files, i, s'.writers[i], s'.files[name(w.tid)]);
      assert CopiedBetween(s0.buffers, w, s.buffers);
    }
  }

  lemma ForkFiles(name: nat -> string, files0: map<string, File>, writers: seq<Writer>, files: map<string, File>,
      w: Writer)
    requires FilesOk(name, files0, writers, files) && Injective(name) && w.pc.Started?
    requires forall i :: 0 <= i < |writers| ==> writers[i].tid != w.tid
    ensures FilesOk(name, files0, writers + [w], files)
  {
    assert Free(name, writers, name(w.tid));
    forall file | Free(name, writers + [w], file)
      ensures FileIs(files, file, Untouched(files0, file))
    {
      forall j | 0 <= j < |writers|
        ensures name(writers[j].tid) != file
      {
        assert name((writers + [w])[j].tid) != file;
      }
      assert Free(name, writers, file);
    }
  }

  lemma ForkKeeps(name: nat -> string, s0: Exit, s: Exit)
    requires ExitInv(name, s0, s) && Distinct(s0.order) && Injective(name)
    ensures ExitInv(name, s0, ExitStep(name, s, Fork))
  {
    if s.next < |s.order| {
      var tid := s.order[s.next];
      assert Grown(s0.buffers, s.buffers, tid);
      if HasTrace(s.buffers, tid) {
        TracedElements(s0, s.next);
        ForkFiles(name, s0.files, s.writers, s.files, CopyOf(s.capacity, tid, s.buffers[tid].value));
      }
    }
  }

  lemma AppendKeeps(name: nat -> string, s0: Exit, s: Exit, tid: nat, event: AccessEvent)
    requires ExitInv(name, s0, s)
    ensures ExitInv(name, s0, ExitStep(name, s, Append(tid, event)))
  {
    var s' := ExitStep(name, s, Append(tid, event));
    forall other
      ensures Grown(s0.buffers, s'.buffers, other)
    {
      assert Grown(s0.buffers, s.buffers, other);
    }
    forall i | 0 <= i < |s'.writers|
      ensures CopiedBetween(s0.buffers, s'.writers[i], s'.buffers)
    {
      assert CopiedBetween(s0.buffers, s.writers[i], s.buffers);
    }
  }

  lemma JoinKeeps(name: nat -> string, s0: Exit, s: Exit)
    requires ExitInv(name, s0, s)
    ensures ExitInv(name, s0, ExitStep(name, s, Join))
  {
  }

  lemma ExitStepKeeps(name: nat -> string, s0: Exit, s: Exit, a: ExitAction)
    requires ExitInv(name, s0, s) && Distinct(s0.order) && Injective(name)
    ensures ExitInv(name, s0, ExitStep(name, s, a))
  {
    match a
    case Fork => ForkKeeps(name, s0, s);
    case Write(i) => if i < |s.writers| { WriteKeeps(name, s0, s, i); }
    case Join => JoinKeeps(name, s0, s);
    case Append(tid, event) => AppendKeeps(name, s0, s, tid, event);
  }

  lemma {:induction false} ExitRunKeeps(name: nat -> string, s0: Exit, s: Exit, acts: seq<ExitAction>)
    requires ExitInv(name, s0, s) && Distinct(s0.order) && Injective(name)
    ensures ExitInv(name, s0, ExitRun(name, s, acts))
    decreases |acts|
  {
    if acts != [] {
      ExitStepKeeps(name, s0, s, acts[0]);
      ExitRunKeeps(name, s0, ExitStep(name, s, acts[0]), acts[1..]);
    }
  }

  lemma {:induction false} TracedComplete(s0: Exit, n: nat, tid: nat)
    requires n <= |s0.order|
    ensures tid in Traced(s0, n) <==> tid in s0.order[..n] && HasTrace(s0.buffers, tid)
  {
    if n != 0 {
      TracedComplete(s0, n - 1, tid);
      assert s0.order[..n] == s0.order[..n - 1] + [s0.order[n - 1]];
    }
  }

  /** The complete file of thread tid: the newest events of what had been appended when its
      buffer was copied, some time between the begin of the destructor and now. */
  predicate CompleteAt(s0: Exit, s: Exit, tid: nat, file: File, seen: seq<AccessEvent>)
    requires HasTrace(s0.buffers, tid) && HasTrace(s.buffers, tid)
  {
    && s0.buffers[tid].value <= seen <= s.buffers[tid].value
    && file == Trace(tid, Newest(seen, s0.capacity))
  }

  /** However forking, writing, sampling and joining interleave, and however often the buffers
      overwrite their oldest events meanwhile: when the destructor returns, the file of every
      non-null buffer of the map is there and complete, holding exactly what the buffer held at
      one moment of the destructor. */
  lemma TracesComplete(name: nat -> string, s0: Exit, acts: seq<ExitAction>, tid: nat)
    requires Begin(s0) && Injective(name) && Returned(ExitRun(name, s0, acts)) && HasTrace(s0.buffers, tid)
    ensures var s := ExitRun(name, s0, acts);
      && HasTrace(s.buffers, tid) && name(tid) in s.files
      && exists seen :: CompleteAt(s0, s, tid, s.files[name(tid)], seen)
  {
    ExitRunKeeps(name, s0, s0, acts);
    var s := ExitRun(name, s0, acts);
    TracedComplete(s0, s.next, tid);
    assert s0.order[..s.next] == s0.order;
    var i :| 0 <= i < |Traced(s0, s.next)| && Traced(s0, s.next)[i] == tid;
    var w := s.writers[i];
    assert CopiedBetween(s0.buffers, w, s.buffers) && w.items == Newest(w.seen, s0.capacity);
    assert w.pc.Finished?;
    assert FileIs(s.files, name(w.tid), FileAt(name, s0.files, w));
    assert CompleteAt(s0, s, tid, s.files[name(tid)], w.seen);
  }

  /** No file is touched but those of the non-null buffers. */
  lemma OthersUntouched(name: nat -> string, s0: Exit, acts: seq<ExitAction>, file: string)
    requires Begin(s0) && Injective(name)
    requires forall tid :: HasTrace(s0.buffers, tid) ==> name(tid) != file
    ensures FileIs(ExitRun(name, s0, acts).files, file, Untouched(s0.files, file))
  {
    ExitRunKeeps(name, s0, s0, acts);
    var s := ExitRun(name, s0, acts);
    forall i | 0 <= i < |s.writers|
      ensures name(s.writers[i].tid) != file
    {
      assert Traced(s0, s.next)[i] in Traced(s0, s.next);
      TracedComplete(s0, s.next, s.writers[i].tid);
      assert HasTrace(s0.buffers, s.writers[i].tid);
    }
    assert Free(name, s.writers, file);
  }

  // ---- the destructor can always end ----

  lemma {:induction false} ExitRunAppend(name: nat -> string, s: Exit, a: seq<ExitAction>, b: seq<ExitAction>)
    ensures ExitRun(name, s, a + b) == ExitRun(name, ExitRun(name, s, a), b)
    decreases |a|
  {
    if a == [] {
      assert a + b == b;
    } else {
      assert (a + b)[1..] == a[1..] + b;
      ExitRunAppend(name, ExitStep(name, s, a[0]), a[1..], b);
    }
  }

  lemma ExitRunCons(name: nat -> string, s: Exit, a: ExitAction, rest: seq<ExitAction>)
    ensures ExitRun(name, s, [a] + rest) == ExitRun(name, ExitStep(name, s, a), rest)
  {
    assert ([a] + rest)[1..] == rest;
  }

  /** The forking loop ends. */
  lemma {:induction false} ForksEnd(name: nat -> string, s: Exit) returns (acts: seq<ExitAction>)
    ensures var s' := ExitRun(name, s, acts); s'.next >= |s'.order|
    decreases |s.order| - s.next
  {
    if s.next < |s.order| {
      var rest := ForksEnd(name, ExitStep(name, s, Fork));
      acts := [Fork] + rest;
      ExitRunCons(name, s, Fork, rest);
    } else {
      acts := [];
    }
  }

  /** Three steps finish a writer. */
  lemma WriterEnds(name: nat -> string, s: Exit, i: nat)
    requires i < |s.writers|
    ensures var s' := WriteStep(name, s, i);
      && |s'.writers| == |s.writers| && s'.next == s.next && s'.order == s.order && s'.joined == s.joined
      && i < |WriteStep(name, s', i).writers|
      && var s'' := WriteStep(name, WriteStep(name, s', i), i);
         && |s''.writers| == |s.writers| && s''.next == s.next && s''.order == s.order && s''.joined == s.joined
         && s''.writers[i].pc.Finished?
  {
  }

  /** The joining loop ends. */
  lemma {:induction false} JoinsEnd(name: nat -> string, s: Exit) returns (acts: seq<ExitAction>)
    requires s.next >= |s.order|
    ensures Returned(ExitRun(name, s, acts))
    decreases |s.writers| - s.joined
  {
    var i := s.joined;
    if i < |s.writers| {
      WriterEnds(name, s, i);
      var s1 := ExitStep(name, s, Write(i));
      var s2 := ExitStep(name, s1, Write(i));
      var s3 := ExitStep(name, s2, Write(i));
      var s4 := ExitStep(name, s3, Join);
      var rest := JoinsEnd(name, s4);
      ExitRunCons(name, s3, Join, rest);
      ExitRunCons(name, s2, Write(i), [Join] + rest);
      ExitRunCons(name, s1, Write(i), [Write(i)] + ([Join] + rest));
      ExitRunCons(name, s, Write(i), [Write(i)] + ([Write(i)] + ([Join] + rest)));
      acts := [Write(i)] + ([Write(i)] + ([Write(i)] + ([Join] + rest)));
    } else {
      acts := [];
    }
  }

  /** From wherever it has come to, some schedule lets the destructor return: no writer waits for
      another, and every join meets a writer that can finish. */
  lemma DestructorReturns(name: nat -> string, s0: Exit, before: seq<ExitAction>) returns (acts: seq<ExitAction>)
    ensures Returned(ExitRun(name, s0, before + acts))
  {
    var s := ExitRun(name, s0, before);
    var forks := ForksEnd(name, s);
    var joins := JoinsEnd(name, ExitRun(name, s, forks));
    ExitRunAppend(name, s, forks, joins);
    ExitRunAppend(name, s0, before, forks + joins);
    acts := forks + joins;
  }
}
