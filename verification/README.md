# Access sampling: a verified model

The access sampling plugin turns memory-access samples of the Linux perf subsystem into one time
series per thread and metric. This project models its four moving parts and proves what they
promise, for every input, every schedule and every run.

- **The perf ring** (`Wrappers`, `Bits`, `Records`, `RingMachine`, `RingSafety`, `RingWords`, `RingTheorems`,
  `RingProgress`, `PerfRing`). The kernel writes variable-length records byte by byte into a ring
  of 2^k bytes; `PerfRingBuffer::read` takes them out. Kernel and reader are one step system in
  which any step of one side may come between any two steps of the other. The system exists at
  two widths: with positions that grow for ever, on which the invariant is proved, and with the
  64-bit positions and the 32-bit `offset` of the code, which are proved to be its truncation. The
  class `PerfRing.PerfRingBuffer` is the code itself, on arrays, with kernel activity at every
  point of a call; its `Valid` says that it stays on a run of the step system.
- **Draining** (`RecordBytes`, `Sampling`, `EventBuffer`, `PerfSamplingThread`). The signal handler disables a
  descriptor, reads its ring until null, filters and decodes the records, appends them to the
  thread's event buffer and enables the descriptor again. The class `PerfSampling` is one thread's
  view; it stays on a run of the value model `Sampling.ThreadRun`.
- **The registry** (`Registry`, `RegistrySafety`, `RegistryTheorems`, `RegistryRuns`,
  `RegistryDescriptors`, `RegistryValues`, `RegistryCounts`, `AccessSamplingPlugin`). `add_metric` runs on many threads at once, statement
  by statement, with failing `event_open` calls, kernel commits and handler runs in between;
  `get_all_values` reads a series back. The class `AccessSampling` holds the fields and the
  methods of the plugin; what its `add_metric` and a handler run do is what an uninterrupted call
  and a handler step do in the step system of all threads.
- **The writer threads of the destructor** (`TraceWriters`, and `TraceRuns` for the destructor after
  any run of the registry) and **metric strings** (`Metrics`).

## What the kernel is assumed to do

From perf_event_open(2), section "MMAP layout". Each point is a guard of a step in `RingMachine`.

- The bytes of a record are in the ring before `data_head` moves past them.
- A record is started only if it fits between `data_head` and `data_tail` plus the capacity.
- A record is a non-zero multiple of eight bytes, its header tells its length, and a sample
  carries the three words requested (`Records.WellFormed`).
- The capacity is a power of two, here any 2^k with 3 <= k <= 32. In the class, 64 pages of at
  most 2^24 bytes, so that `mask_`, an `int`, holds it.

A record that reaches the end of the ring is copied into the 64 bytes of `event_copy_`. Nothing in
the code makes sure that it fits; `attr.mmap = 1` (src/pfm_wrapper.cpp:42) even asks for other
record kinds. In the step system a longer one leads to the state `Fault`, and the safety theorems
hold in it, too. The class demands of a call of `Read` only that the very record it finds fits the
buffer if it has to go there, and of the handler that the records it drains do; everything else may
be of any length.

Paths and lines below are those of the plugin's repository; "the plugin's README.md" is the one
there.

## Where the code does not do what it seems to

- A record longer than 64 bytes that reaches the ring end overruns `event_copy_`:
  `RingProgress.OverrunIff` says exactly when, `RingProgress.OverrunHappens` gives runs for a ring
  of any size and records from 72 bytes on.
- The system reuses the id of a thread that has ended. The new thread then finds the id in the map
  and never sets its own buffer pointer. What its handler samples reaches no buffer
  (`RegistryTheorems.BufferIffFirst`, `RegistryTheorems.HandlerReachesStoreIff`,
  `RegistryRuns.ReuseLosesSamples`), and what `get_all_values` writes for its id are the events of
  the thread that had the thread id first (`RegistryValues.EndToEnd`,
  `RegistryValues.OwnValuesIff`, `RegistryValues.SecondReportsFirst`). The runs shown are possible
  ones: the first thread does nothing more once the second has begun (`RegistryRuns.Possible`).
- When `event_open` fails, the id is used up and its table entry stays
  (`RegistryTheorems.QuietIdsAreDense`, `RegistryRuns.FailedCallKeepsId`). When it fails after the
  mapping, the next call of the thread that returns starts the counter of the call that threw
  (`RegistryDescriptors.EnabledAnsweredIff`, `RegistryDescriptors.FailedCallIsEnabled`).
- The plugin's README.md:64-73 announces the number of events of one counter; the number printed
  is that of all events of the thread. It is the counter's exactly if no other descriptor of the
  thread has delivered a sample (`RegistryCounts.CountIsOfOneCounterIff`,
  `RegistryCounts.CountExceedsCounter`), even when both counters are of one type
  (`RegistryCounts.SameTypeExceedsCounter`).
- A period of 2^32 or more is cut to 32 bits without a message, and a trailing `@` is accepted
  (`Metrics.PeriodSurvivesIff`, `Metrics.AcceptedIff`); so is any text behind the digits
  (`Metrics.StoulPrinted`, `Metrics.TrailingBlank`).

## Model

| member | source | states |
|---|---|---|
| Bits.AndMask | src/ring_buffer.cpp:57-60 | `x & (2^k - 1)`, defined by bit recursion, is `x mod 2^k` for every k and x |
| RingSafety.WrapTest | src/ring_buffer.cpp:60 | the wrap test holds if and only if the record reaches or crosses the ring end, the exact fit included |
| RingSafety.HeaderFits | src/ring_buffer.cpp:57-58 | at 8-aligned positions the header never straddles the ring end |
| RingSafety.TouchOnce | include/ring_buffer.h:55 | of two successive records inside one lap behind the tail at most one touches the ring end, so one copy buffer is enough |
| RingSafety.WriteKeeps | include/ring_buffer.h:57-61 | a byte written by the kernel disturbs nothing unread, no pointer handed out and no copy in progress |
| RingSafety.CopyByteKeeps | src/ring_buffer.cpp:66-73 | one byte of the copy loop keeps the invariant: the buffer holds the record so far, earlier pointers still show their records |
| RingSafety.SizedKeeps | src/ring_buffer.cpp:57-78 | the wrap decision and the return in place keep the invariant |
| RingSafety.StepKeeps | src/ring_buffer.cpp:43-87 | every step of kernel or reader keeps the ring invariant (order and alignment of positions, contents, live pointers, local variables of `read`) |
| RingWords.EmptinessTruncates | src/ring_buffer.cpp:53 | `old != head` on 64-bit words decides as on unbounded positions less than 2^64 apart |
| RingWords.WrapsTruncates | src/ring_buffer.cpp:60 | the wrap test on wrapped-around words decides as on unbounded positions |
| RingWords.CopyStepTruncates | src/ring_buffer.cpp:62-73 | the 32-bit `offset` leads to the same slots and chunk lengths as the unbounded position |
| RingWords.RunTruncates | src/ring_buffer.cpp:43-87 | every run on 64- and 32-bit words is the truncation of the run on unbounded positions, however often the words wrap around |
| RingTheorems.FirstInFirstOut | src/ring_buffer.cpp:43-87 | in every run the byte strings returned are, in order, a prefix of the records committed, and `prev_` and tail count exactly their bytes |
| RingTheorems.PositionsOrdered | src/ring_buffer.cpp:46-58 | tail <= prev <= head <= tail + capacity in modular distances, all 8-aligned, in every reachable state |
| RingTheorems.NothingOverwritten | src/ring_buffer.cpp:80-83 | the slots of the record being written are disjoint from all slots between tail and head |
| RingTheorems.KernelMayWrite | include/ring_buffer.h:57-61 | in every reachable state the kernel may start exactly the records that fit between head and tail plus capacity |
| RingTheorems.LivePointers | src/ring_buffer.cpp:57-84 | every pointer returned since the last null result shows exactly its record, in every reachable state |
| RingTheorems.OneCopyAtATime | include/ring_buffer.h:55 | between two null results at most one pointer leads into `event_copy_` |
| RingTheorems.RefinesQueue | src/ring_buffer.cpp:43-87 | the ring refines a queue: publishing enqueues, returning dequeues the record shown, nothing else changes it, and null is decided exactly when it is empty |
| RingProgress.OverrunIff | src/ring_buffer.cpp:60-76 | from any reachable state between calls, reading on overruns the copy buffer if and only if some committed record starts at a position p with p mod capacity + size >= capacity and is longer than 64 bytes |
| RingProgress.OverrunHappens | src/ring_buffer.cpp:60-76 | for a ring of every size from 128 bytes to 2^32 a schedule that overruns the copy buffer: 64-byte records, all read, up to 64 bytes before the ring end, then an mmap record of 72 to 128 bytes |
| RingProgress.ExactFitIsReturned | src/ring_buffer.cpp:60-76 | with a record of 64 bytes at the same place, the read returns it from the copy buffer, byte for byte |
| RingProgress.NeverOutOfBounds | src/ring_buffer.cpp:43-87 | in any run, an access outside ring or copy buffer means that the record being read reaches the ring end and is longer than 64 bytes, both written out |
| RingProgress.DrainEmpties | src/ring_buffer.cpp:43-87 | with the kernel stopped, reading until null ends with prev = tail = head, every record handed out and the whole capacity free |
| RingProgress.PointersStayValid | src/ring_buffer.cpp:57-84 | a pointer stays out and keeps showing the same bytes through any further steps until a read returns null |
| PerfRing.PerfRingBuffer.constructor | src/ring_buffer.cpp:10-21 | a fresh mapping of 64 pages is a valid start of the step system, with the mask of its capacity and a copy buffer of 64 bytes |
| PerfRing.MmapPage.Kernel | include/ring_buffer.h:57-61 | a kernel step on the shared memory is the step of the model, for any private state of the reader |
| PerfRing.PerfRingBuffer.LoadHead | src/ring_buffer.cpp:23-30 | the head load sees the current head, as a 64-bit word |
| PerfRing.PerfRingBuffer.LoadSize | src/ring_buffer.cpp:57-58 | the size read at `old & mask_` is that of the next step of the model |
| PerfRing.PerfRingBuffer.CopyRecord | src/ring_buffer.cpp:62-73 | the do-while ends after at most two rounds with the last chunk complete, under any kernel activity between any two bytes |
| PerfRing.PerfRingBuffer.Locate | src/ring_buffer.cpp:57-76 | the pointer found is the one whose return is the model's next step |
| PerfRing.PerfRingBuffer.ReturnNull | src/ring_buffer.cpp:80-86 | null publishes `prev_` as tail and gives every record handed out back |
| PerfRing.PerfRingBuffer.Read | src/ring_buffer.cpp:43-87 | a pointer shows the oldest record not handed out yet, of any length unless it needs the 64 bytes of the copy buffer; null publishes the position and frees everything, and is the result if and only if nothing was left when the head was loaded; always on a run of the step system |
| RecordBytes.KindByBytes | src/perf_sampling.cpp:33-68 | which records are samples with and without address, throttle, unthrottle and unknown records, by the bytes of the type and of the address |
| RecordBytes.AccessesByBytes | src/perf_sampling.cpp:36-46 | every record contributes one access with the address at offset 16, the instruction pointer at offset 8 and the operation and level bits at offset 24, if its type bytes are those of a sample and its address bytes are not all zero, and none otherwise |
| RecordBytes.SampleRoundTrip | include/ring_buffer.h:16-22 | a sample built from an instruction pointer, a non-zero address and a data source word is decoded to exactly these values |
| RecordBytes.ZeroAddressDropped | src/perf_sampling.cpp:40 | a sample with address zero contributes nothing, whatever else it carries |
| RecordBytes.WellFormedByBytes | include/ring_buffer.h:16-27 | the kernel's promise about a record, on its bytes |
| Sampling.ThreadStepKeeps | src/perf_sampling.cpp:24-135 | openings, commits and handler runs keep the log an interleaving of the filtered streams, stamped in order |
| Sampling.HistoryInterleaves | src/perf_sampling.cpp:28-82 | after any run of openings, commits and handler runs, the log restricted to a descriptor is that descriptor's filtered record stream as far as read, in order, and event i carries the clock's i-th reading |
| Sampling.OthersUntouched | src/perf_sampling.cpp:72-82 | over any run of openings, commits and handler runs on other descriptors, a descriptor keeps its records, its read position and its part of the history |
| Sampling.RecordsConserved | src/perf_sampling.cpp:29-69 | records read = events logged + zero-address samples + throttle + unthrottle + unknown records, per descriptor, after any run |
| Sampling.SeriesIsTimeSeries | src/perf_sampling.cpp:42-49 | with a clock that never runs backwards the series of any access type, from the newest n events, is ordered in time at any moment of any run |
| EventBuffer.EventRingBuffer.Append | README.md:79-80 | an append adds the event, drops the oldest one if the buffer was full, and counts; the buffer holds the newest `capacity` of all events appended |
| PerfSamplingThread.PerfSampling.ProcessRecord | src/perf_sampling.cpp:31-68 | one record: a sample with non-zero address is stamped, decoded, logged and appended if there is a buffer; any other record changes nothing |
| PerfSamplingThread.PerfSampling.NextEvent | src/perf_sampling.cpp:29 | one round's `read` with the kernel stopped: the next unread record, or null exactly when none is left |
| PerfSamplingThread.PerfSampling.ProcessEvents | src/perf_sampling.cpp:24-70 | the drain loop ends, hands out every unread record, logs exactly their accesses in order, and leaves prev = tail = head |
| PerfSamplingThread.PerfSampling.DrainFd | src/perf_sampling.cpp:75-80 | draining one descriptor changes its read position and nothing of any other ring |
| PerfSamplingThread.PerfSampling.SignalHandler | src/perf_sampling.cpp:72-82 | a handler run is the model's: everything unread of that descriptor is logged, what is logged is appended, an unknown descriptor changes nothing, and the descriptor is enabled again |
| PerfSamplingThread.PerfSampling.LogInterleaves | src/perf_sampling.cpp:24-82 | at every moment the object's log is an interleaving of its rings' filtered streams, stamped in order |
| PerfSamplingThread.PerfSampling.KernelRuns | src/perf_sampling.cpp:155-162 | on an enabled descriptor the kernel's steps, with records of any length, are carried out on that descriptor's ring and only add to it |
| PerfSamplingThread.PerfSampling.SetEventBuffer | src/perf_sampling.cpp:13-17 | the thread's pointer is the given buffer; rings, log and descriptors stay |
| PerfSamplingThread.PerfSampling.EventOpen | src/perf_sampling.cpp:98-135 | for every outcome of the system calls: the ring, of 64 pages, is in the map as soon as it is mapped, every descriptor known before keeps its ring object, later failures leave the ring there |
| PerfSamplingThread.PerfSampling.Enable | src/perf_sampling.cpp:137-144 | every descriptor of the thread is enabled, not only the newest |
| RegistrySafety.SysStepKeeps | src/access_sampling.cpp:55-82 | every statement of `add_metric` on any thread, every opening, commit and handler run keeps the registry invariant |
| RegistryTheorems.MutualExclusion | src/access_sampling.cpp:62-75 | in every reachable state at most one thread is between locking and unlocking, and no other gets past the lock |
| RegistryTheorems.IdsAreMeaningful | src/access_sampling.cpp:72-81 | in every run an id returned names the thread that asked and its event, and every thread id in the table has a buffer |
| RegistryTheorems.IdsAreDense | src/access_sampling.cpp:72-81 | every number below the table's length is the id of exactly one call: returned, left by an exception, or in progress |
| RegistryTheorems.QuietIdsAreDense | src/access_sampling.cpp:72-81 | once every call has ended, the ids returned are exactly the numbers below the table's length if and only if no call failed |
| RegistryTheorems.RegistryStable | src/access_sampling.cpp:64-75 | what an id means, which buffer a thread id has and who inserted it never changes in the rest of any run |
| RegistryTheorems.IdsAreFresh | src/access_sampling.cpp:72-81 | no id is returned twice |
| RegistryTheorems.BufferIffFirst | src/access_sampling.cpp:64-70 | on a thread with descriptors the thread-local pointer is set, to the map's buffer, if and only if the thread was the first with its thread id |
| RegistryTheorems.HandlerReachesStoreIff | src/perf_sampling.cpp:47-50 | in every reachable state, what a handler run builds reaches a buffer, the one of the thread's id, if and only if the thread was the first with that id |
| RegistryTheorems.HandlerHasBuffer | src/perf_sampling.cpp:47-50 | without reuse of thread ids, no reachable thread with a descriptor has an empty `event_data_` |
| RegistryRuns.CallAlone | src/access_sampling.cpp:55-82 | the whole effect of a call that no other thread interrupts, for every outcome of `event_open` |
| RegistryRuns.FailedCallKeepsId | src/access_sampling.cpp:72-77 | a run in which a failed `event_open` leaves a used-up id and its entry, with no call in progress |
| RegistryRuns.SampleAlone | src/perf_sampling.cpp:72-82 | the whole effect of one committed sample and the handler run after it |
| RegistryDescriptors.RunKeepsOpenings | src/perf_sampling.cpp:98-135 | in every run every ring of a thread belongs to a call of that thread that opened or half opened it, and every id returned to a call that opened its descriptor |
| RegistryDescriptors.EnabledAnsweredIff | src/perf_sampling.cpp:137-144 | in every run in which descriptors signal only once enabled, all running counters of a thread belong to calls that returned if and only if no half-opened descriptor of a failed call was followed by a call of the thread that returned |
| RegistryDescriptors.FailedCallIsEnabled | src/access_sampling.cpp:77-79 | a run in which the counter of a call that threw is started by the next call |
| RegistryRuns.ReuseLosesSamples | src/access_sampling.cpp:64-70 | a possible run in which the second thread with a thread id takes a sample that its handler logs and no buffer gets |
| RegistryValues.EndToEnd | include/access_sampling.h:61-89 | for every run and every id returned, the values written are exactly the metric's events among the newest `buffer_size_` of all events logged by the first thread with the caller's thread id, the message appears if and only if one of them is no longer held, and that log is an interleaving of its rings' filtered streams |
| RegistryValues.OneSampleIsWritten | include/access_sampling.h:74-80 | for one call and one sample of any address, instruction pointer, operation and level: the point written is the address of the record at the clock's first reading, if the operation is of the metric's type |
| RegistryValues.EmittedInOrder | include/access_sampling.h:74-80 | that series is ordered in time if the clock of the thread it comes from is, for every id returned |
| RegistryValues.OwnValuesIff | include/access_sampling.h:63-80 | the values of an id are those of the thread that asked for it in every continuation of the run if and only if that thread was the first with its thread id |
| RegistryValues.OwnValuesIffPossible | include/access_sampling.h:63-80 | the same for a thread that has not ended, over the continuations in which no thread acts before and after another one of its id |
| RegistryValues.SecondReportsFirst | include/access_sampling.h:63-80 | a possible run, the first thread registering and sampling before the second one of its id begins, in which the second's id reports the first's event |
| RegistryCounts.CountIsOfOneCounterIff | include/access_sampling.h:82-88 | in every reachable state, for every id of a thread that was first with its thread id: its call opened a descriptor, and the number reported is that of the samples read from it if and only if no other descriptor of the thread has delivered one |
| RegistryCounts.CountIsOfOneTypeIff | include/access_sampling.h:82-88 | for every id, the number reported is that of the events of the metric's access type if and only if no descriptor of the thread the values come from has delivered a sample of another type |
| RegistryCounts.CountExceedsCounter | include/access_sampling.h:82-88 | a run with two counters that have taken one sample each, for both of which the number reported is two |
| RegistryCounts.SameTypeExceedsCounter | include/access_sampling.h:82-88 | the same with two counters of one type, where the number is right for the type and wrong for the counter |
| RegistryCounts.CountExceedsType | include/access_sampling.h:82-88 | with two types, the number reported is two and one event is of the metric's |
| AccessSamplingPlugin.AccessSampling.Register | src/access_sampling.cpp:62-75 | under the mutex: a new thread id gets a fresh empty buffer that also becomes the thread's own, a known one keeps its buffer and the pointer stays; the id is the table's length |
| AccessSamplingPlugin.AccessSampling.Sample | src/access_sampling.cpp:77-79 | opening, with a new ring of 64 pages and every other ring kept, and enabling all descriptors only if opening succeeded |
| AccessSamplingPlugin.AccessSampling.AddMetric | src/access_sampling.cpp:55-82 | exactly which metric strings throw before anything has changed; otherwise the registration, the opening and the id, with the registration staying when opening fails |
| AccessSamplingPlugin.AccessSampling.FollowsModel | src/access_sampling.cpp:55-82 | if a state of the step system looked like the object before `add_metric`, the state an uninterrupted call reaches, failed or not, looks like it afterwards |
| AccessSamplingPlugin.AccessSampling.HandlerFollowsModel | src/perf_sampling.cpp:72-82 | if a state of the step system looked like the objects before a handler run, the state after the handler's step looks like them afterwards |
| AccessSamplingPlugin.AccessSampling.GetAllValues | include/access_sampling.h:61-89 | the exception, the message about a missing buffer, or exactly the promised values; for every id of the table a buffer is there |
| AccessSamplingPlugin.AccessSampling.WriteSeries | include/access_sampling.h:72-80 | the loop writes exactly the events of the type, in order |
| TraceWriters.ExitRunKeeps | src/access_sampling.cpp:17-36 | every interleaving of forking, writing, sampling and joining keeps each file owned by one writer with a private copy of what the buffer held |
| TraceWriters.TracesComplete | src/access_sampling.cpp:17-36 | when the destructor returns, every non-null buffer of the map has its complete file, holding exactly the newest events of what had been appended at one moment of the destructor, however often the buffer overwrites |
| TraceWriters.OthersUntouched | src/access_sampling.cpp:89-100 | no other file is touched |
| TraceWriters.DestructorReturns | src/access_sampling.cpp:29-35 | from wherever forking, writing and joining have come to, some schedule lets the destructor return |
| TraceRuns.TracesAreHistories | src/access_sampling.cpp:17-36 | after any run of the registry and any run of the writers, the file of every thread id that registered holds the newest `buffer_size_` events logged by the first thread with that id |
| Metrics.GetLine | src/utils.cpp:22 | one `getline`: the next token and what remains, with the end-of-stream cases |
| Metrics.Split | src/utils.cpp:16-27 | the loop computes the delimiter split without one trailing empty part |
| Metrics.SplitJoin | src/utils.cpp:16-27 | for delimiter-free tokens, splitting their join gives them back if and only if the list does not end in an empty token |
| Metrics.JoinSplit | src/utils.cpp:16-27 | joining the tokens gives the string back, up to one trailing delimiter |
| Metrics.ParseMetric | src/utils.cpp:29-38 | takes exactly two tokens, the second a number cut to 32 bits, and throws otherwise: the result is the one that AcceptedIff, OutOfRangeIff and InvalidIff characterise |
| Metrics.StoulOf | src/utils.cpp:37 | what is read from every string of white space, a sign or none, digits and a rest: no number without digits, out of range from 2^64 on, the two's complement after a minus, and the rest does not matter |
| Metrics.FormOf | src/utils.cpp:37 | every string is of that form |
| Metrics.StoulPrinted | src/utils.cpp:37 | a printed number is read back behind white space and a sign and before any text, and is out of range from 2^64 on |
| Metrics.PrintParse | src/utils.cpp:29-38 | name + "@" + white space + sign + decimal(p) + any text without "@" parses to the name and the number mod 2^32, or is out of range |
| Metrics.TrailingBlank | src/utils.cpp:29-38 | "Load@1800 " parses to Load and 1800 |
| Metrics.PeriodSurvivesIff | src/utils.cpp:29-38 | the period survives if and only if it is below 2^32 |
| Metrics.AcceptedIff | src/utils.cpp:32-37 | exactly which strings are accepted and what they parse to, the trailing `@` and the text behind the digits included |
| Metrics.OutOfRangeIff | src/utils.cpp:37 | exactly which strings throw out of range |
| Metrics.InvalidIff | src/utils.cpp:33-37 | exactly which strings throw as invalid |

## Left out

- PerfRing.PerfRingBuffer.Read: the class has no state after an overrun of the copy buffer, so a call that would overrun it is outside its contract; the step system has that state, and RingProgress.OverrunIff says when it is reached.
- PerfSamplingThread.PerfSampling.SignalHandler: `disable (fd)` is taken to succeed; when the call fails the code prints a message and drains a running descriptor. As for `Read`, records that would overrun the copy buffer are outside the contract.
- PerfSamplingThread.PerfSampling.EventOpen: which system call after the mapping fails is not told apart, since all of them leave the same state.
- AccessSamplingPlugin.AccessSampling.AddMetric: the id is not cut to 32 bits, and memory exhaustion under the mutex is not modelled.
- AccessSamplingPlugin.AccessSampling.GetAllValues: an id outside the table, for which the code's access is undefined.
- Sampling.HistoryInterleaves: every drained record is taken to be one that fits the copy buffer if it has to go there; a drain that overruns it (RingProgress.OverrunIff) has no defined outcome in the code.
- Sampling.RecordsConserved: the same.
- RegistryValues.EndToEnd: the same for every drain of the run; and addresses are integers; their conversion to `double` in the cursor is not modelled.
- TraceWriters.TracesComplete: copying a buffer into a writer is one step, no thread registers a metric during the destructor, and the name built from a thread id is assumed to be injective.
- Kernel writers that nest or publish several records at once; each record is published by itself.
- Hardware memory ordering: the head load and the tail store are atomic steps where the fences are.
- A signal that arrives in the middle of a `std::map` operation; handler runs come between the statements of `add_metric`.
- `mmap`, `perf_event_open`, `fcntl`, `ioctl`, `sigaction`, `sigprocmask` beyond their effect on rings and descriptors; `stop`, which only blocks the signal.
- `EventRingBuffer`, `TraceFile`, `accessTypeFromString`, `accessTypeFromPerf` and `memoryLevelFromPerf` are not part of this model: the buffer follows the plugin's README.md:79-80, the others are parameters of `Sampling.Config` or steps of `TraceWriters`.
- `PfmWrapper` and its table of two events, `get_metric_properties`, `to_lower`, `to_mb`, the environment variables, the trace directory and the messages: attribute filling, formatting and configuration around the parts modelled here.
