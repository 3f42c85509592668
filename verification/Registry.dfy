/** The per-thread metric registry: `add_metric` running on several threads at once, statement
    by statement, with signal handlers and kernel commits in between. */
module Registry {
  import opened Wrappers
  import opened Records
  import opened Sampling

  /** Where a thread stands inside `add_metric`, once its metric has been parsed and encoded. */
  datatype Pc =
    | Outside
    | Locked(event: string)
    | Found(event: string, inserted: bool)
    | Ready(event: string)
    | Numbered(event: string, id: nat)
    | Pushed(event: string, id: nat)
    | Unlocked(event: string, id: nat)
    | Opened(event: string, id: nat)

  /** eventData is the thread-local buffer pointer, an index into the store. */
  datatype Thread = Thread(pc: Pc, eventData: Option<nat>, enabled: set<int>, sampler: Sampler)

  /** holder: of `buffer_mutex_`; buffers, events: the two registry fields; store: everything
      ever appended to each allocated buffer. The last four fields are an observer's: who
      inserted a thread id, what was asked by the call that returned an id, the ids of the calls
      `event_open` left by an exception, and what `event_open` came to, on which thread, for
      each id. */
  datatype Sys = Sys(
    holder: Option<nat>,
    buffers: map<nat, nat>,
    events: seq<(nat, string)>,
    store: seq<seq<AccessEvent>>,
    threads: map<nat, Thread>,
    owner: map<nat, nat>,
    returned: map<nat, (nat, string)>,
    failed: set<nat>,
    openings: map<nat, (nat, OpenResult)>)

  datatype SysAction =
    | Call(t: nat, event: string)
    | Advance(t: nat)
    | OpenEvent(t: nat, result: OpenResult)
    | KernelCommit(t: nat, fd: int, record: Record)
    | HandleSignal(t: nat, fd: int)

  predicate InCritical(pc: Pc)
  {
    pc.Locked? || pc.Found? || pc.Ready? || pc.Numbered? || pc.Pushed?
  }

  predicate SamplersOk(s: Sys)
  {
    forall t :: t in s.threads ==> ChannelsOk(s.threads[t].sampler)
  }

  function SetThread(s: Sys, t: nat, thread: Thread): Sys
  {
    s.(threads := s.threads[t := thread])
  }

  function Moved(thread: Thread, pc: Pc): Thread
  {
    thread.(pc := pc)
  }

  /** `enable ()`: every descriptor of the thread, not only the newest. */
  function EnableAll(thread: Thread): Thread
  {
    thread.(enabled := thread.enabled + thread.sampler.channels.Keys)
  }

  /** A new buffer for a thread id not seen before. */
  function InsertStep(s: Sys, t: nat, tid: nat, thread: Thread): Sys
  {
    SetThread(s, t, thread).(
      buffers := s.buffers[tid := |s.store|],
      store := s.store + [[]],
      owner := s.owner[tid := t])
  }

  function PushStep(s: Sys, t: nat, tid: nat, thread: Thread): Sys
    requires thread.pc.Pushed?
  {
    SetThread(s, t, thread).(events := s.events + [(tid, thread.pc.event)])
  }

  function LockStep(s: Sys, t: nat, thread: Thread, holder: Option<nat>): Sys
  {
    SetThread(s, t, thread).(holder := holder)
  }

  function ReturnStep(s: Sys, t: nat, thread: Thread, event: string, id: nat): Sys
  {
    SetThread(s, t, thread).(returned := s.returned[id := (t, event)])
  }

  /** The next statement of `add_metric` on thread t. */
  function AdvanceStep(cfg: Config, s: Sys, t: nat): Sys
    requires t in s.threads
  {
    var thread := s.threads[t];
    var tid := cfg.tidOf(t);
    match thread.pc
    case Outside => s
    case Locked(event) =>
      if tid !in s.buffers then InsertStep(s, t, tid, Moved(thread, Found(event, true)))
      else SetThread(s, t, Moved(thread, Found(event, false)))
    case Found(event, inserted) =>
      if inserted && tid in s.buffers then
        SetThread(s, t, Moved(thread, Ready(event)).(eventData := Some(s.buffers[tid])))
      else SetThread(s, t, Moved(thread, Ready(event)))
    case Ready(event) => SetThread(s, t, Moved(thread, Numbered(event, |s.events|)))
    case Numbered(event, id) => PushStep(s, t, tid, Moved(thread, Pushed(event, id)))
    case Pushed(event, id) => LockStep(s, t, Moved(thread, Unlocked(event, id)), None)
    case Unlocked(_, _) => s
    case Opened(event, id) =>
      ReturnStep(s, t, EnableAll(Moved(thread, Outside)), event, id)
  }

  /** `event_open` and what follows it; any failure leaves `add_metric` by an exception. */
  function OpenThread(thread: Thread, result: OpenResult): Thread
    requires thread.pc.Unlocked? && ChannelsOk(thread.sampler)
  {
    thread.(
      sampler := OpenStep(thread.sampler, result),
      pc := if result.Opened? then Pc.Opened(thread.pc.event, thread.pc.id) else Outside)
  }

  function OpenEventStep(s: Sys, t: nat, result: OpenResult): Sys
    requires t in s.threads && SamplersOk(s)
  {
    var thread := s.threads[t];
    if !thread.pc.Unlocked? then s
    else
      SetThread(s, t, OpenThread(thread, result)).(
        failed := if result.Opened? then s.failed else s.failed + {thread.pc.id},
        openings := s.openings[thread.pc.id := (t, result)])
  }

  /** The thread after a handler run. */
  function Signalled(cfg: Config, t: nat, thread: Thread, fd: int): Thread
    requires ChannelsOk(thread.sampler)
  {
    thread.(sampler := Handle(cfg, cfg.clock(t), thread.sampler, fd), enabled := thread.enabled + {fd})
  }

  /** A handler run: what it logs goes to the buffer the thread-local pointer names, if any; the
      descriptor is enabled at the end, even one whose ring the thread does not have. */
  function SignalStep(cfg: Config, s: Sys, t: nat, fd: int): Sys
    requires t in s.threads && SamplersOk(s)
  {
    var thread := s.threads[t];
    var thread' := Signalled(cfg, t, thread, fd);
    var built := Events(thread'.sampler.log[|thread.sampler.log|..]);
    var s' := SetThread(s, t, thread');
    if thread.eventData.Some? && thread.eventData.value < |s.store| then
      var b := thread.eventData.value;
      s'.(store := s.store[b := s.store[b] + built])
    else s'
  }

  function SysStep(cfg: Config, s: Sys, a: SysAction): (s': Sys)
    requires SamplersOk(s)
    ensures SamplersOk(s')
  {
    if a.t !in s.threads then s
    else
      var thread := s.threads[a.t];
      match a
      case Call(t, event) =>
        if thread.pc.Outside? && s.holder.None? then
          LockStep(s, t, Moved(thread, Locked(event)), Some(t))
        else s
      case Advance(t) => AdvanceStep(cfg, s, t)
      case OpenEvent(t, result) => OpenEventStep(s, t, result)
      case KernelCommit(t, fd, record) =>
        if fd in thread.enabled then
          SetThread(s, t, thread.(sampler := ThreadStep(cfg, cfg.clock(t), thread.sampler, Commit(fd, record))))
        else s
      case HandleSignal(t, fd) => SignalStep(cfg, s, t, fd)
  }

  function SysRun(cfg: Config, s: Sys, acts: seq<SysAction>): (s': Sys)
    requires SamplersOk(s)
    ensures SamplersOk(s')
    decreases |acts|
  {
    if acts == [] then s else SysRun(cfg, SysStep(cfg, s, acts[0]), acts[1..])
  }

  function NoMetrics(threads: set<nat>): (s: Sys)
    ensures SamplersOk(s)
  {
    Sys(None, map[], [], [], map t | t in threads :: Thread(Outside, None, {}, FRESH), map[], map[], {}, map[])
  }
}
