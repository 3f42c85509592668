/** `access_sampling`: registering a metric on the calling thread and reading its values back. */
module AccessSamplingPlugin {
  import opened Bits
  import opened Metrics
  import opened Sampling
  import opened EventBuffer
  import opened PerfRing
  import opened PerfSamplingThread
  import opened Registry
  import opened RegistryRuns

  /** The id `add_metric` returns, or why it throws. */
  datatype AddResult = Id(id: nat) | BadMetric | Unsupported | OpenFailed

  class AccessSampling {
    const cfg: Config
    /** Whether `get_perf_event` finds an encoding for an event. */
    const supported: string -> bool
    var threadEventBuffers: map<nat, EventRingBuffer?>
    var allEvents: seq<(nat, string)>
    /** The buffers of all threads. */
    ghost var repr: set<EventRingBuffer>

    /** Every buffer there is keeps the newest `bufferSize` events. */
    ghost predicate BuffersOk()
      reads this, repr
    {
      forall tid :: tid in threadEventBuffers && threadEventBuffers[tid] != null ==>
        && threadEventBuffers[tid] in repr
        && threadEventBuffers[tid].Valid() && threadEventBuffers[tid].capacity == cfg.bufferSize
    }

    /** Every thread id in the table has a buffer. */
    ghost predicate Valid()
      reads this, repr
    {
      && BuffersOk()
      && (forall tid :: tid in threadEventBuffers ==> threadEventBuffers[tid] != null)
      && (forall i :: 0 <= i < |allEvents| ==> allEvents[i].0 in threadEventBuffers)
    }

    constructor (cfg: Config, supported: string -> bool)
      ensures Valid() && threadEventBuffers == map[] && allEvents == []
      ensures this.cfg == cfg && this.supported == supported
    {
      this.cfg, this.supported := cfg, supported;
      threadEventBuffers, allEvents, repr := map[], [], {};
    }

    /** A new, empty buffer for a thread id not seen before. */
    method NewBuffer(ghost me: PerfSampling, tid: nat) returns (buffer: EventRingBuffer)
      requires Valid() && tid !in threadEventBuffers && me.Valid() && this !in me.repr
      modifies this`threadEventBuffers, this`repr
      ensures me.Valid()
      ensures Valid() && fresh(buffer) && buffer.Valid() && buffer.appended == []
      ensures threadEventBuffers == old(threadEventBuffers)[tid := buffer]
    {
      buffer := new EventRingBuffer(cfg.bufferSize);
      threadEventBuffers := threadEventBuffers[tid := buffer];
      repr := repr + {buffer};
    }

    /** The next id, and its entry. */
    method Push(ghost me: PerfSampling, tid: nat, event: string) returns (id: nat)
      requires Valid() && tid in threadEventBuffers && me.Valid() && this !in me.repr
      modifies this`allEvents
      ensures me.Valid()
      ensures Valid() && id == |old(allEvents)| && allEvents == old(allEvents) + [(tid, event)]
    {
      id := |allEvents|;
      allEvents := allEvents + [(tid, event)];
    }

    /** What a registration changes: one more entry; for a thread id not seen before, a fresh
        and empty buffer that is also the calling thread's; nothing else. */
    twostate predicate Registered(me: PerfSampling, tid: nat, event: string)
      reads this, me`eventData, me.eventData
    {
      && allEvents == old(allEvents) + [(tid, event)]
      && tid in threadEventBuffers
      && threadEventBuffers == old(threadEventBuffers)[tid := threadEventBuffers[tid]]
      && if tid in old(threadEventBuffers) then
           threadEventBuffers[tid] == old(threadEventBuffers)[tid] && me.eventData == old(me.eventData)
         else
           && me.eventData != null && fresh(me.eventData)
           && threadEventBuffers[tid] == me.eventData && me.eventData.appended == []
    }

    /** The part of `add_metric` under the mutex, on the thread `me` whose id is tid: a thread id
        not seen before gets a new, empty buffer, which also becomes the thread's own; any other
        keeps its buffer, and the calling thread keeps whatever pointer it has. */
    method Register(me: PerfSampling, tid: nat, event: string) returns (id: nat)
      requires Valid() && me.Valid() && this !in me.repr
      modifies this`threadEventBuffers, this`allEvents, this`repr, me`eventData
      ensures Valid() && me.Valid()
      ensures id == |old(allEvents)| && Registered(me, tid, event)
    {
      if tid !in threadEventBuffers {
        var buffer := NewBuffer(me, tid);
        me.SetEventBuffer(buffer);
      }
      id := Push(me, tid, event);
    }

    /** A new descriptor has a ring of 64 pages; every other one keeps its ring object. */
    static ghost predicate RingsAfter(open: OpenResult, before: map<int, PerfRingBuffer>,
                                      after: map<int, PerfRingBuffer>, pageSize: nat)
    {
      if (open.HalfOpen? || open.Opened?) && open.fd !in before then
        && open.fd in after && after == before[open.fd := after[open.fd]]
        && after[open.fd].mask == 64 * pageSize - 1 && after[open.fd].page.data.Length == 64 * pageSize
      else after == before
    }

    /** The part after the mutex: opening the event, and enabling everything the thread has. */
    method Sample(me: PerfSampling, open: OpenResult, pageBits: nat, pageSize: nat) returns (ok: bool)
      requires Valid() && me.Valid() && pageBits <= 24 && pageSize == Pow2(pageBits)
      modifies me`ringBuffers, me`channels, me`run, me`repr, me`enabled
      ensures Valid() && me.Valid() && ChannelsOk(old(me.View())) && me.View() == OpenStep(old(me.View()), open)
      ensures ok <==> open.Opened?
      ensures me.enabled == if ok then old(me.enabled) + me.ringBuffers.Keys else old(me.enabled)
      ensures RingsAfter(open, old(me.ringBuffers), me.ringBuffers, pageSize)
    {
      ok := me.EventOpen(open, pageBits, pageSize);
      if ok {
        me.Enable();
      }
    }

    /** What `add_metric` does with a metric string that parsed like this. A metric that does not
        parse or has no encoding changes nothing; after that the registration stays even if
        opening fails. */
    twostate predicate Added(me: PerfSampling, tid: nat, parsed: Metric, open: OpenResult, r: AddResult)
      requires ChannelsOk(old(me.View()))
      reads this, me, me.eventData
    {
      match r
      case BadMetric => !parsed.Parsed? && Untouched(me)
      case Unsupported => parsed.Parsed? && !supported(parsed.event) && Untouched(me)
      case OpenFailed =>
        && parsed.Parsed? && supported(parsed.event) && !open.Opened?
        && Registered(me, tid, parsed.event) && me.View() == OpenStep(old(me.View()), open)
        && me.enabled == old(me.enabled)
      case Id(id) =>
        && parsed.Parsed? && supported(parsed.event) && open.Opened?
        && Registered(me, tid, parsed.event) && me.View() == OpenStep(old(me.View()), open)
        && me.enabled == old(me.enabled) + me.ringBuffers.Keys
        && id == |old(allEvents)|
    }

    twostate predicate Untouched(me: PerfSampling)
      reads this, me
    {
      && threadEventBuffers == old(threadEventBuffers) && allEvents == old(allEvents)
      && me.eventData == old(me.eventData) && me.View() == old(me.View()) && me.enabled == old(me.enabled)
    }

    /** A metric that parsed and has an encoding: registration, then opening. */
    method Enroll(me: PerfSampling, tid: nat, event: string, open: OpenResult, pageBits: nat, pageSize: nat)
      returns (id: nat, ok: bool)
      requires Valid() && me.Valid() && this !in me.repr
      requires pageBits <= 24 && pageSize == Pow2(pageBits)
      modifies this`threadEventBuffers, this`allEvents, this`repr
      modifies me`eventData, me`ringBuffers, me`channels, me`run, me`repr, me`enabled
      ensures Valid() && me.Valid() && ChannelsOk(old(me.View()))
      ensures id == |old(allEvents)| && Registered(me, tid, event) && (ok <==> open.Opened?)
      ensures me.View() == OpenStep(old(me.View()), open)
      ensures me.enabled == if ok then old(me.enabled) + me.ringBuffers.Keys else old(me.enabled)
      ensures RingsAfter(open, old(me.ringBuffers), me.ringBuffers, pageSize)
    {
      ghost var view, rings, enabled := me.View(), me.ringBuffers, me.enabled;
      id := Register(me, tid, event);
      assert me.View() == view && me.ringBuffers == rings && me.enabled == enabled;
      ok := Sample(me, open, pageBits, pageSize);
    }

    method AddParsed(me: PerfSampling, tid: nat, parsed: Metric, open: OpenResult, pageBits: nat, pageSize: nat)
      returns (r: AddResult)
      requires Valid() && me.Valid() && this !in me.repr
      requires pageBits <= 24 && pageSize == Pow2(pageBits)
      modifies this`threadEventBuffers, this`allEvents, this`repr
      modifies me`eventData, me`ringBuffers, me`channels, me`run, me`repr, me`enabled
      ensures Valid() && me.Valid() && ChannelsOk(old(me.View()))
      ensures Added(me, tid, parsed, open, r)
      ensures RingsAfter(if r.Id? || r.OpenFailed? then open else NoMapping, old(me.ringBuffers), me.ringBuffers,
        pageSize)
    {
      me.ChannelsInOrder();
      if !parsed.Parsed? {
        return BadMetric;
      }
      if !supported(parsed.event) {
        return Unsupported;
      }
      var id, ok := Enroll(me, tid, parsed.event, open, pageBits, pageSize);
      r := if ok then Id(id) else OpenFailed;
    }

    /** `add_metric` on the thread `me` whose id is tid, for every outcome of the system calls in
        `event_open`. */
    method AddMetric(me: PerfSampling, tid: nat, metric: string, open: OpenResult, pageBits: nat, pageSize: nat)
      returns (r: AddResult, ghost parsed: Metric)
      requires Valid() && me.Valid() && this !in me.repr
      requires pageBits <= 24 && pageSize == Pow2(pageBits)
      modifies this`threadEventBuffers, this`allEvents, this`repr
      modifies me`eventData, me`ringBuffers, me`channels, me`run, me`repr, me`enabled
      ensures Valid() && me.Valid() && ChannelsOk(old(me.View()))
      ensures parsed == ParseSpec(metric) && Added(me, tid, parsed, open, r)
      ensures r.BadMetric? <==> !parsed.Parsed?
      ensures r.Unsupported? <==> parsed.Parsed? && !supported(parsed.event)
      ensures r.Id? <==> parsed.Parsed? && supported(parsed.event) && open.Opened?
      ensures r.Id? ==> r.id == |old(allEvents)|
      ensures allEvents == old(allEvents) + (if r.Id? || r.OpenFailed? then [(tid, parsed.event)] else [])
      ensures if r.Id? || r.OpenFailed? then tid in threadEventBuffers
                && threadEventBuffers == old(threadEventBuffers)[tid := threadEventBuffers[tid]]
              else threadEventBuffers == old(threadEventBuffers)
      ensures if (r.Id? || r.OpenFailed?) && tid !in old(threadEventBuffers) then
                me.eventData != null && fresh(me.eventData) && me.eventData.appended == []
                && threadEventBuffers[tid] == me.eventData
              else me.eventData == old(me.eventData) && (tid in old(threadEventBuffers) ==>
                tid in threadEventBuffers && threadEventBuffers[tid] == old(threadEventBuffers)[tid])
      ensures me.View() == if r.Id? || r.OpenFailed? then OpenStep(old(me.View()), open) else old(me.View())
      ensures me.enabled == old(me.enabled) + (if r.Id? then me.ringBuffers.Keys else {})
      ensures (r.Id? || r.OpenFailed?) && (open.HalfOpen? || open.Opened?) && open.fd !in old(me.ringBuffers) ==>
        && open.fd in me.ringBuffers
        && me.ringBuffers == old(me.ringBuffers)[open.fd := me.ringBuffers[open.fd]]
        && me.ringBuffers[open.fd].mask == 64 * pageSize - 1
        && me.ringBuffers[open.fd].page.data.Length == 64 * pageSize
      ensures !((r.Id? || r.OpenFailed?) && (open.HalfOpen? || open.Opened?) && open.fd !in old(me.ringBuffers)) ==>
        me.ringBuffers == old(me.ringBuffers)
    {
      var given := ParseMetric(metric);
      r := AddParsed(me, tid, given, open, pageBits, pageSize);
      parsed := given;
    }

    // ---- the same call in the step system of all threads ----

    /** A thread of the step system that stands outside `add_metric` and looks like `me`, where
        buffer number i is order[i]. */
    ghost predicate ThreadIs(thread: Thread, order: seq<EventRingBuffer>, me: PerfSampling)
      reads me
    {
      && thread.pc.Outside? && thread.sampler == me.View() && thread.enabled == me.enabled
      && (thread.eventData.None? <==> me.eventData == null)
      && (thread.eventData.Some? ==>
            thread.eventData.value < |order| && order[thread.eventData.value] == me.eventData)
    }

    /** The tables of the step system are those of an object with these fields. */
    static ghost predicate TablesAre(threadBuffers: map<nat, EventRingBuffer?>, all: seq<(nat, string)>,
                                     events: seq<(nat, string)>, buffers: map<nat, nat>,
                                     store: seq<seq<AccessEvent>>, order: seq<EventRingBuffer>)
      reads order
    {
      && events == all
      && buffers.Keys == threadBuffers.Keys && |store| == |order|
      && (forall tid :: tid in buffers ==> buffers[tid] < |order| && threadBuffers[tid] == order[buffers[tid]])
      && (forall i :: 0 <= i < |order| ==> store[i] == order[i].appended)
      && (forall i, j :: 0 <= i < j < |order| ==> order[i] != order[j])
    }

    /** A state of the step system that looks like this object, seen from its thread t. */
    ghost predicate Represents(s: Sys, order: seq<EventRingBuffer>, t: nat, me: PerfSampling)
      reads this, me, order
    {
      && s.holder.None? && TablesAre(threadEventBuffers, allEvents, s.events, s.buffers, s.store, order)
      && SamplersOk(s) && t in s.threads && ThreadIs(s.threads[t], order, me)
    }

    /** The state of the step system after the call: the one an uninterrupted call reaches. */
    ghost function Following(s: Sys, t: nat, parsed: Metric, open: OpenResult, r: AddResult): Sys
      requires t in s.threads && SamplersOk(s) && (r.Id? || r.OpenFailed? ==> parsed.Parsed?)
    {
      if r.Id? || r.OpenFailed? then AfterAdd(cfg, s, t, parsed.event, open) else s
    }

    /** What `add_metric` has done on this object is what the step system does: if a state of it
        looked like the object before, the state it reaches looks like the object now. */
    twostate lemma FollowsModel(me: PerfSampling, tid: nat, parsed: Metric, open: OpenResult, r: AddResult,
                                s: Sys, order: seq<EventRingBuffer>, t: nat)
      requires ChannelsOk(old(me.View())) && Added(me, tid, parsed, open, r) && me.channels.Keys == me.ringBuffers.Keys
      requires old(Represents(s, order, t, me)) && tid == cfg.tidOf(t)
      requires forall i :: 0 <= i < |order| ==> order[i].appended == old(order[i].appended)
      ensures var order' := if (r.Id? || r.OpenFailed?) && tid !in s.buffers then order + [me.eventData] else order;
        Represents(Following(s, t, parsed, open, r), order', t, me)
      ensures r.Id? ==> r.id == |s.events| && Following(s, t, parsed, open, r).returned
                                              == s.returned[r.id := (t, parsed.event)]
    {
      if r.Id? || r.OpenFailed? {
        AfterAddIs(cfg, s, t, parsed.event, open);
        assert TablesAre(old(threadEventBuffers), old(allEvents), s.events, s.buffers, s.store, order);
        NewEntry(old(threadEventBuffers), old(allEvents), s.events, s.buffers, s.store, order, (tid, parsed.event));
        if tid !in s.buffers {
          NewTableBuffer(old(threadEventBuffers), allEvents, allEvents, s.buffers, s.store, order, tid, me.eventData);
        }
      }
    }

    /** The same for a handler run on the thread: what it has done to the thread and to the
        thread's buffer is what the handler's step does in the step system. */
    twostate lemma HandlerFollowsModel(me: PerfSampling, fd: int, s: Sys, order: seq<EventRingBuffer>, t: nat)
      requires old(Represents(s, order, t, me)) && me.cfg == cfg && me.clock == cfg.clock(t)
      requires me.HandledSince(old(me.View()), old(me.Progress()).appended, fd)
      requires me.enabled == old(me.enabled) + {fd} && me.eventData == old(me.eventData)
      requires threadEventBuffers == old(threadEventBuffers) && allEvents == old(allEvents)
      requires forall i :: 0 <= i < |order| && order[i] != me.eventData ==> order[i].appended == old(order[i].appended)
      ensures Represents(SignalStep(cfg, s, t, fd), order, t, me)
    {
    }

    static lemma NewEntry(threadBuffers: map<nat, EventRingBuffer?>, all: seq<(nat, string)>,
                          events: seq<(nat, string)>, buffers: map<nat, nat>,
                          store: seq<seq<AccessEvent>>, order: seq<EventRingBuffer>, entry: (nat, string))
      requires TablesAre(threadBuffers, all, events, buffers, store, order)
      ensures TablesAre(threadBuffers, all + [entry], events + [entry], buffers, store, order)
    {
    }

    static lemma NewTableBuffer(threadBuffers: map<nat, EventRingBuffer?>, all: seq<(nat, string)>,
                                events: seq<(nat, string)>, buffers: map<nat, nat>,
                                store: seq<seq<AccessEvent>>, order: seq<EventRingBuffer>,
                                tid: nat, buffer: EventRingBuffer)
      requires TablesAre(threadBuffers, all, events, buffers, store, order) && tid !in buffers && buffer.appended == []
      requires buffer !in order
      ensures TablesAre(threadBuffers[tid := buffer], all, events,
                        buffers[tid := |store|], store + [[]], order + [buffer])
    {
    }

    /** `get_all_values`: the loop over the buffer, writing the events of the metric's type to
        the cursor, and the overwrite message. For every id of the table it reads a buffer. */
    method GetAllValues(id: nat) returns (r: Values)
      requires BuffersOk() && id < |allEvents|
      ensures var (tid, metric) := allEvents[id];
        r == if tid !in threadEventBuffers then NoSuchThread
             else if threadEventBuffers[tid] == null then NoBuffer
             else ValuesOf(cfg, metric, threadEventBuffers[tid].appended)
      ensures Valid() ==> r.Written?
    {
      var (tid, metric) := allEvents[id];
      if tid !in threadEventBuffers {
        return NoSuchThread;
      }
      var buffer := threadEventBuffers[tid];
      if buffer == null {
        return NoBuffer;
      }
      var eventType := cfg.typeOf(metric);
      var cursor := WriteSeries(eventType, buffer.items);
      r := Written(cursor, buffer.accessCount > buffer.Size(), buffer.accessCount);
    }

    /** The loop: what it has written to the cursor. */
    method WriteSeries(eventType: AccessType, items: seq<AccessEvent>) returns (cursor: seq<Point>)
      ensures cursor == Series(eventType, items)
    {
      cursor := [];
      var i := 0;
      while i < |items|
        invariant i <= |items|
        invariant cursor == Series(eventType, items[..i])
      {
        SeriesSnoc(eventType, items[..i], items[i]);
        assert items[..i + 1] == items[..i] + [items[i]];
        if eventType == items[i].access.accessType {
          cursor := cursor + [Point(items[i].time, items[i].access.address)];
        }
        i := i + 1;
      }
      assert items[..i] == items;
    }
  }
}
