# A verified model of z4j-celery

z4j-celery runs inside Celery workers, streams task events to a control plane
and carries out operator commands. Most of what it promises is about whole runs
of small stateful components: a bounded cache, an acknowledgement protocol, a
circuit breaker, a thread pool, lazily created singletons that meet `fork()`, a
bounded queue with a loss counter. This project models these components in
Dafny and proves those promises for every run.

| file | component |
|---|---|
| `NameIndex.dfy` | the bounded uuid -> task-name index as a value: exact retention, refinement of the unbounded index |
| `BrokerMonitor.dfy` | the monitor as a class: ordered dictionary in place, handlers, dispatch of one message |
| `FanOut.dfy` | several agents on one broker dividing the event stream |
| `AckProtocol.dfy` | broker and monitor over runs with failed acks, lost connections and redelivery |
| `Retry.dfy` | one retry: names, arguments, priorities, what is published and what is reported |
| `Breaker.dfy`, `BulkRetry.dfy` | the circuit breaker on outcome sequences; the batched bulk loop and its accounting |
| `OffloadPool.dfy` | the eight-worker pool whose waits time out while threads keep running |
| `LazyInit.dfy` | double-checked creation under a lock, with any number of threads and forks |
| `LossCounter.dfy` | the loss counter under interleaving threads, after a fork |
| `EventQueue.dfy` | the drop-oldest event queue as a class, and its runs |
| `Launcher.dfy` | recognising `celery worker` on the command line |
| `ModuleNames.dfy` | package-chain module names and task decorators |
| `MergeDiscoveries.dfy` | the runtime-over-static merge and its laws |
| `Traceback.dfy` | traceback tails |
| `Common.dfy` | options, Python slices, one fact about sets |

Components that interleave are state machines: `Enabled` and `Next` give one
step, a trace is a sequence of steps, and results are stated for every trace.
Components that work in place are classes and methods with loops; their
contracts tie the new state to the old one through functions whose properties
are proved as lemmas.

What lies outside is an input: whether a handler's mapping or sink raises,
whether an ack reaches the broker, what the result backend answers, how
`send_task` ends, when a wait times out, when a queue operation refuses, when a
process forks. Of the safe boundary around handlers only one thing is assumed:
it absorbs ordinary exceptions.

## Where the code does not do what its documentation says

- `bulk_retry` is documented to clamp to 10000 ids whatever `max` is. A negative
  `max` slices from the end of the list instead: a run with `max = -1` and 10002 ids
  attempts 10001 of them (`BulkRetry.HardCapCanBeExceeded`). The clamp holds exactly when
  `max >= 0` or there are at most `10000 - max` ids (`BulkRetry.HardCapHoldsIff`).
- `traceback_tail` is documented to return at most `limit` characters plus the
  marker. With limit 0 it keeps everything (`Traceback.ZeroKeepsEverything`); the
  bound holds exactly for positive limits and for limit 0 on the empty string
  (`Traceback.LengthBoundIff`). Both call sites pass positive limits.
- The loss counter resets itself without a lock after a fork, and miscounts if a
  thread that saw the old pid comes late. The engine records drops on the runtime's
  loop thread alone, and there the failure is this one: a reader of the count that
  saw the old pid may zero away drops that were counted meanwhile
  (`LossCounter.LateReader`: one drop, count 0). `LossCounter.LoneRecorderExactIff`
  gives the exact condition with one recording thread and any number of readers:
  the count is and stays right if and only if it is right, the pid is recorded and
  no other thread is still to zero it. Were several threads to record, which the
  engine does not do, updates could also get lost under two lock objects
  (`LossCounter.TwoLocks`, which needs two recording threads: two drops, count 1);
  then each thread still to record must also do so under the current lock and from
  the current count (`LossCounter.ExactForeverIff`; within one drop of the cap a
  lost update is harmless, and only an older count must not be put back).
  Attribution stays right regardless: no interleaving counts a drop of the parent's
  in the child.
- The offload pool installs a fresh lock after a fork; `register_worker_bootstrap`
  has no such handler. A child forked while another thread is inside, before the
  signals are connected, never gets through the function
  (`LazyInit.WedgeReachable`, `LazyInit.WedgedForever`). Every other child does:
  at the fork, it can still get through if and only if the signals were already
  connected or the lock was free (`LazyInit.ChildWedgedIff`).
- `_guess_module_name` does not terminate if every directory up to the root holds
  an `__init__.py`, because the root is its own parent; it terminates in all other
  cases (`ModuleNames.WalkEndsIff`).
- A definite failure of a retry does not mean that nothing was published. If
  `send_task` raises anything but a timeout, it may have published, and the retry is
  reported as failed (`Retry.RaisedButFailed`); if it returns no task id, the task
  was published and the report is the same (`Retry.PublishedButFailed`). These are
  the only cases: a definite failure after a `send_task` call occurs exactly when
  the call was made, the wait did not time out and the call ended in one of these
  ways (`Retry.DefiniteAfterCallIff`).

## Model

| member | source | states |
|---|---|---|
| NameIndex.RetentionExact | src/z4j_celery/events/broker.py:296-319 | after its last use and with no pop since, a uuid is still cached if and only if at no moment in between were N other uuids used since and not popped again; the younger entries are exactly those |
| NameIndex.Retention | src/z4j_celery/events/broker.py:296-319 | the last name stored for a uuid is still found while fewer than N distinct other uuids were stored or hit since its last use, for any capacity |
| NameIndex.Refines | src/z4j_celery/events/broker.py:296-418 | after every history the bounded entries are an order-preserving sub-sequence, names included, of those of a dictionary that never evicts |
| NameIndex.AnswersAgree | src/z4j_celery/events/broker.py:309-319 | a bounded lookup may miss but never answers with a name the unbounded one would not |
| NameIndex.RunDistinct | src/z4j_celery/events/broker.py:296-307 | over every history keys are distinct and the capacity is respected |
| NameIndex.StepFinds | src/z4j_celery/events/broker.py:296-319 | what one store, lookup or pop does to every name that is found |
| BrokerMonitor.Monitor.CacheName | src/z4j_celery/events/broker.py:296-307 | storing in place, with its eviction loop, is the index step; events without uuid or name change nothing |
| BrokerMonitor.Monitor.ResolveName | src/z4j_celery/events/broker.py:309-319 | the event's name, else the cached one; a hit becomes the most recent entry, a miss changes nothing |
| BrokerMonitor.Monitor.HandleBoundary | src/z4j_celery/events/broker.py:346-418 | a handler that raises early changes nothing; one that raises at the sink has stored or touched but not popped; a completed one gives the sink one entry with the event's own kind and uuid, under its own name or else the cached one, and, if terminal, forgets |
| BrokerMonitor.HandlerKeeps | src/z4j_celery/events/broker.py:346-418 | which names a handler changes: a named start caches its name; a reported success, failure or revocation forgets one; a retry and anything unreported keep it; other tasks' names stay unless evicted |
| BrokerMonitor.Monitor.DispatchOne | src/z4j_celery/events/broker.py:222-234 | an event raises exactly if it has no `.get`, or passes the filter with an unusable type; it is handled exactly if it passes the filter and is a start, success, failure, retry or revocation |
| BrokerMonitor.Monitor.Dispatch | src/z4j_celery/events/broker.py:191-248 | the handled events are the selected ones before the first poisonous event; one ack attempt on every path; the poison counter rises exactly for messages that raise; the counts over the whole life of the monitor are those of the messages dispatched |
| BrokerMonitor.Monitor.Receive | src/z4j_celery/events/broker.py:250-289 | over any sequence of messages and failed acks, what was handed over, the poison counter and the ack attempts are those of the messages, one attempt each |
| BrokerMonitor.CleanLength | src/z4j_celery/events/broker.py:220-243 | where a message stops being handled: at its first poisonous event, at its end if and only if there is none |
| BrokerMonitor.ReportsRefine | src/z4j_celery/events/broker.py:296-418 | over every run the sink sees what an unbounded monitor would report, event by event, except for names already evicted |
| BrokerMonitor.StartedIsRecognised | src/z4j_celery/events/broker.py:93-99 | a named start makes later nameless events of that task come out under its name while fewer than N other tasks were handled since; retries, unnamed starts and handlers that raise do not matter |
| FanOut.BatchingIrrelevant | src/z4j_celery/events/broker.py:191-234 | how a well-formed stream is cut into messages does not change what is handled |
| FanOut.Partition | src/z4j_celery/engine.py:323-350 | agents with distinct local hostnames hand each supported event of a covered host to exactly one handler overall, each agent in stream order, with any batching per agent |
| FanOut.PartitionNeedsDistinctHosts | src/z4j_celery/engine.py:306-334 | the partition holds for all streams if and only if the hostnames are pairwise distinct |
| FanOut.AtLeastOnceOverall | src/z4j_celery/events/broker.py:199-234 | through failed acks, lost connections, redelivery and failing handlers at every agent, hostnames shared or not: once a message is gone from all queues, each supported event in it from a covered host was handed to a handler at least as often as it occurs there |
| FanOut.UnfilteredHandlesAll | src/z4j_celery/engine.py:339-350 | without a hostname every supported event is handled |
| AckProtocol.RemovedAfterDispatch | src/z4j_celery/events/broker.py:199-248 | a message leaves the broker only by the ack of a dispatch of it that ran to the end or took the poison path |
| AckProtocol.OneAckPerDispatch | src/z4j_celery/events/broker.py:235-248 | each dispatch attempts exactly one ack on every path, message by message and in the count the callback keeps |
| AckProtocol.DispatchesOfRemoved | src/z4j_celery/events/broker.py:244-290 | a removed message was dispatched once plus once per redelivery after a dispatch, and acked successfully once |
| AckProtocol.Conserved | src/z4j_celery/events/broker.py:250-290 | a published message is in exactly one place, through lost connections and failed acks |
| AckProtocol.CountersFollowDispatches | src/z4j_celery/events/broker.py:220-248 | over every run the handler log, the poison counter and the ack attempts are those of the messages dispatched |
| AckProtocol.MonitorAgrees | src/z4j_celery/events/broker.py:191-248 | the protocol machine and the monitor class agree, also where a redelivered event ends differently: given the same messages, the same events handed over, poisonings counted and acks attempted |
| AckProtocol.AtLeastOnce | src/z4j_celery/events/broker.py:199-206 | every event of a removed message that should reach a handler did, in order and however handlers end each time; all its selected events if it was not poisoned |
| AckProtocol.CanBeRemoved | src/z4j_celery/events/broker.py:244-290 | no message is stuck: from any moment of any run, a published message can still be dispatched and removed |
| AckProtocol.AckEitherWay | src/z4j_celery/events/broker.py:235-248 | after any dispatch the ack may fail, which leaves the message with the broker, or be accepted, unless the delivery was taken back |
| AckProtocol.MayExpire | src/z4j_celery/events/broker.py:244-247 | an unacknowledged message may be redelivered on a live connection, and its earlier delivery can then no longer be acknowledged |
| Retry.FailClosed | src/z4j_celery/actions/retry.py:193-255 | at most one `send_task` call, made exactly if a publishable name and both argument halves can be had: under the supplied name if it is a real one, else the backend's; each half from the override or the backend; with exactly the eta and priority asked for, or none |
| Retry.SuppliedNameWins | src/z4j_celery/actions/retry.py:211-221 | a real supplied name is authoritative: no other name is ever sent |
| Retry.BackendNamesIff | src/z4j_celery/actions/retry.py:408-421 | the backend's name: its own non-empty string, else the dictionary's truthy `name`, else its `task`, if that is a string |
| Retry.IoEndsIff | src/z4j_celery/actions/retry.py:193-255 | each refusal has exactly its reason, errors pass through exactly when raised, and a success reports the name and priority that were sent and the id that came back |
| Retry.ResultsAreHonest | src/z4j_celery/actions/retry.py:147-190 | success exactly if the call ended in time, published and got an id, which is the one reported; indeterminate exactly for timeouts of the wait or of the function |
| Retry.DefiniteAfterCallIff | src/z4j_celery/actions/retry.py:160-190 | a definite failure is reported after a `send_task` call exactly when the wait did not time out and the call raised anything but a timeout or gave no task id |
| Retry.PublishedButFailed | src/z4j_celery/actions/retry.py:250-254 | a retry that publishes its task, gets no task id and is reported as a definite failure |
| Retry.RaisedButFailed | src/z4j_celery/actions/retry.py:177-181 | the same for a retry whose `send_task` call raises |
| Retry.PlaceholdersNeverPublished | src/z4j_celery/events/mapper.py:148-159 | whatever placeholder the mapper builds, for any queue and id, no retry ever publishes it as a name |
| Retry.PlaceholderFallsBack | src/z4j_celery/actions/retry.py:214-226 | a placeholder supplied as a name changes nothing compared with supplying none |
| Retry.MapperNameCases | src/z4j_celery/events/mapper.py:139-159 | how the mapper names a task, case by case, down to the four placeholders |
| Retry.CeleryApp.DoRetryIo | src/z4j_celery/actions/retry.py:193-255 | the I/O function makes the specified calls and ends as specified, errors included |
| Retry.CeleryApp.RetryTaskAction | src/z4j_celery/actions/retry.py:112-190 | an invalid eta publishes nothing; a timed-out wait reports indeterminate whether or not its function ran |
| Retry.CoercePriority | src/z4j_celery/actions/retry.py:57-79 | a priority that is sent lies in 0..255 |
| Retry.SentPriorityIff | src/z4j_celery/actions/retry.py:39-79 | integers in range go out as they are, labels by the literal scale of the transport, anything else as none |
| Retry.StripMeans | src/z4j_celery/actions/retry.py:78 | labels and hints lose exactly the white space around them |
| Retry.LabelsRankAlike | src/z4j_celery/actions/retry.py:39-54 | named priorities rank the same on both transports although their numbers run in opposite directions |
| Breaker.CounterIsBreaker | src/z4j_celery/actions/retry.py:331-383 | the three-way counter reaches three exactly when three timeouts occurred with no success in between, failures being neutral |
| Breaker.TimeoutBound | src/z4j_celery/actions/retry.py:331-383 | timeouts <= 2 * successes + 3 in every bulk run, and + 2 if it was not broken off |
| BulkRetry.BulkRetryAction | src/z4j_celery/actions/retry.py:304-400 | the nested, batched loop meets the flat specification for any batch size: it stops after the shortest tripping prefix, and its maps, counts, flags and calls are those of that prefix |
| BulkRetry.FlatOverIsUnique | src/z4j_celery/actions/retry.py:342-400 | for any ids and outcomes, the flat specification determines the number of attempts and everything in the summary but `capped` |
| BulkRetry.BreaksOnResults | src/z4j_celery/actions/retry.py:342-383 | on the results themselves: the breaker opens exactly after the first attempt that makes three unknown outcomes with no success in between, definite failures neutral; nothing is attempted after it, everything if it never opens |
| BulkRetry.MapsSay | src/z4j_celery/actions/retry.py:373-380 | each accepted attempt is in `new_task_ids` and each other one in `failures`, under what the last such attempt of its id returned |
| BulkRetry.MapsSayNoMore | src/z4j_celery/actions/retry.py:373-380 | nothing else is in either map |
| BulkRetry.FlatIsUnique | src/z4j_celery/actions/retry.py:342-400 | the flat specification determines the result, so the batch size cannot matter |
| BulkRetry.CapHolds | src/z4j_celery/actions/retry.py:318-325 | for `max >= 0` the effective ids are a prefix within both caps, and `capped` says exactly that ids were cut off |
| BulkRetry.EffectiveIs | src/z4j_celery/actions/retry.py:321-325 | which ids are attempted for any `max`, negative ones cutting from the end |
| BulkRetry.CappedIff | src/z4j_celery/actions/retry.py:321-325 | `capped` is set exactly if there were more ids than `max` or than 10000 |
| BulkRetry.HardCapHoldsIff | src/z4j_celery/actions/retry.py:258-267 | the hard cap holds exactly for `max >= 0` or at most 10000 - max ids |
| BulkRetry.RequestedCapHoldsIff | src/z4j_celery/actions/retry.py:321-325 | the requested cap holds exactly for `max >= 0` |
| BulkRetry.HardCapCanBeExceeded | src/z4j_celery/actions/retry.py:321-325 | a command on which the documented clamp fails: its run attempts 10001 ids |
| BulkRetry.SummaryAddsUp | src/z4j_celery/actions/retry.py:385-400 | succeeded + failed + skipped + repeated attempts = requested, so the summary adds up for distinct ids |
| BulkRetry.RecordedUnique | src/z4j_celery/actions/retry.py:373-380 | per id, the maps hold exactly its last success and its last failure |
| BulkRetry.BulkFailsClosed | src/z4j_celery/actions/retry.py:348-362 | over a bulk run, at most one call per attempt, every call authorised under the name and priority the command has for that id |
| BulkRetry.ParkedWorkers | src/z4j_celery/_offload.py:37-46 | at any moment of a bulk run, whatever else the shared pool serves: its calls park at most 2 * successes + 3 workers, so at most three of the eight without a success |
| OffloadPool.StartsOnceInOrder | src/z4j_celery/_offload.py:58-89 | over every interleaving functions start at most once, in submission order, and at most eight hold a worker, abandoned ones included |
| OffloadPool.ReportedOnce | src/z4j_celery/_offload.py:81-89 | a waiter is told at most one result |
| OffloadPool.ReportsAreFinal | src/z4j_celery/_offload.py:81-89 | a report never changes afterwards |
| OffloadPool.ReportsAreHonest | src/z4j_celery/_offload.py:86-117 | success means the function returned that value, a definite failure that it raised that error, indeterminate a timeout of the wait or raised by the function |
| OffloadPool.EndedCanBeReported | src/z4j_celery/_offload.py:86-117 | a call whose function ended while its waiter waits can be reported as exactly that: the value, the error, or indeterminate for a timeout error |
| OffloadPool.AnythingCanHappen | src/z4j_celery/_offload.py:81-89 | a started function can end in any way, waited for or not; any unreported call can be given up, and is then indeterminate |
| OffloadPool.CancelledNeverStarts | src/z4j_celery/_offload.py:14-18 | a call given up while still queued never starts |
| OffloadPool.ParkedAreIndeterminate | src/z4j_celery/_offload.py:14-18 | abandoned workers are bounded by the indeterminate reports |
| OffloadPool.StuckOnlyWhenFull | src/z4j_celery/_offload.py:39-43 | no further call starts until some function ends if and only if all eight workers are held, abandoned calls included |
| OffloadPool.QueuedCanStart | src/z4j_celery/_offload.py:37-46 | every queued call can still start, without any waiter giving up, once enough functions before it end |
| LazyInit.OnePoolPerProcess | src/z4j_celery/_offload.py:58-67 | each process creates at most one pool, for any threads, interleaving and forks |
| LazyInit.SamePoolForAll | src/z4j_celery/_offload.py:58-67 | every caller in a process gets the same pool, built by that process and never the parent's |
| LazyInit.NeverWaitsOnVanished | src/z4j_celery/_offload.py:120-145 | after any fork a thread that waits does so for a live thread of its process that can take a step |
| LazyInit.HandlerNeverWedged | src/z4j_celery/_offload.py:120-145 | with the after-fork handler no process is ever stuck without a pool behind a dead lock |
| LazyInit.EveryCallCanReturn | src/z4j_celery/_offload.py:58-67 | every thread of every process, forked ones included, can always still get its pool |
| LazyInit.ForkAnytime | src/z4j_celery/_offload.py:120-145 | a fork may come at any moment, whoever holds the lock, and copies the lock as it is |
| LazyInit.ConnectedAtMostOnce | src/z4j_celery/worker_bootstrap.py:449-474 | the signals are connected at most once in any memory image, forks included |
| LazyInit.BuildMayFail | src/z4j_celery/worker_bootstrap.py:457-465 | a failed import releases the lock and sets nothing, so the next call tries anew |
| LazyInit.WedgedOrRunning | src/z4j_celery/worker_bootstrap.py:449-474 | in any process at any moment: it is wedged, or every thread can step or waits for a live one that can |
| LazyInit.CanReturnIff | src/z4j_celery/worker_bootstrap.py:449-474 | with or without a handler, a thread can still get through the function if and only if its process is not wedged |
| LazyInit.ChildWedgedIff | src/z4j_celery/worker_bootstrap.py:449-474 | without a handler a forked child can get through the function if and only if, at the fork, the flag was set or the lock free |
| LazyInit.WedgeReachable | src/z4j_celery/worker_bootstrap.py:449-474 | such a child can occur |
| LazyInit.WedgedForever | src/z4j_celery/worker_bootstrap.py:449-474 | it stays stuck in every continuation |
| LossCounter.ChildNeverInherits | src/z4j_celery/engine.py:382-401 | in a forked child, under every interleaving, no thread waits for the inherited lock and no reading contains a drop of the parent's |
| LossCounter.ExactWithoutFork | src/z4j_celery/engine.py:382-401 | in a process that built the adapter the count is min(drops, 2^53 - 1) under every interleaving |
| LossCounter.ExactAfterLoneReset | src/z4j_celery/engine.py:389-401 | the same in a child whose first use completes its reset before another thread starts |
| LossCounter.LoneRecorderExactIff | src/z4j_celery/engine.py:382-404 | in a forked child where one thread records and any number read: the count is and stays exact on all such continuations if and only if it is exact, the pid is recorded and no reader is still to zero it |
| LossCounter.LateReader | src/z4j_celery/engine.py:382-401 | a reader that saw the old pid zeroes away a drop that the recording thread has counted |
| LossCounter.ExactForeverIff | src/z4j_celery/engine.py:389-401 | in a forked child with any number of recording threads, at any moment: the count is and stays exact on all continuations if and only if it is exact, the reset is over on every thread, and each thread still to record uses the current lock and count (up to the cap) |
| LossCounter.TwoLocks | src/z4j_celery/engine.py:389-401 | with two recording threads: both resets are over and nobody is inside, and yet two drops count as one |
| EventQueue.Adapter.EnqueueEvent | src/z4j_celery/engine.py:403-431 | the evicted events are the oldest, at most three; the counter rises by exactly the events lost, the new one included if no attempt let it in; the queue stays within its size whatever is refused; with an ordinary queue the event is always admitted and at most one is evicted, and the whole log stays ordinary |
| EventQueue.Adapter.RecordDrop | src/z4j_celery/engine.py:389-401 | counts one drop of this process, saturating, after replacing an inherited lock and count |
| EventQueue.Adapter.DroppedEventCount | src/z4j_celery/engine.py:382-387 | reads this process's drops only |
| EventQueue.Adapter.Drain | src/z4j_celery/engine.py:552-561 | delivers the oldest queued event and keeps the log of the run |
| EventQueue.Conservation | src/z4j_celery/engine.py:403-431 | for any queue behaviour offered = delivered + queued + dropped, event by event, and the counter is the number dropped, whatever the queue held at the start |
| EventQueue.SuffixAndOrder | src/z4j_celery/engine.py:403-431 | over every interleaving of enqueues and drains the queue is a contiguous suffix of the events offered, and the rest left in order, each delivered or dropped |
| EventQueue.Adapter.AlwaysSuffix | src/z4j_celery/engine.py:403-431 | the same of the adapter itself: unless the queue refused what it should not, `items` is at any time a contiguous suffix of the events offered, inherited ones first |
| EventQueue.Adapter.AlwaysConserved | src/z4j_celery/engine.py:382-431 | of the adapter in any process, built there or forked: events are conserved, and the counter is exactly the drops of this process up to the cap |
| EventQueue.Adapter.Forked | src/z4j_celery/engine.py:389-395 | a forked child starts a run of its own, from the queue it inherited and with no drops, whatever count it inherited |
| Launcher.ArgvHasWorkerSubcommand | src/z4j_celery/worker_bootstrap.py:161-189 | the index loop finds the first token that is neither an option nor an option's value |
| Launcher.WrapperScan | src/z4j_celery/worker_bootstrap.py:147-158 | under a wrapper the answer is the scan after the first celery token; the `python -m celery` arm never changes it |
| Launcher.IsCeleryWorkerInvocation | src/z4j_celery/worker_bootstrap.py:68-158 | true exactly for the command lines that some supported launcher, by name in any directory, some valid global options, the subcommand `worker` and anything after it make up |
| Launcher.BaseNameIs | src/z4j_celery/worker_bootstrap.py:103 | a program is told by its name, whatever directory stands before it |
| Launcher.PathParses | src/z4j_celery/worker_bootstrap.py:103 | and every path with a base name is that program in some directory, trailing `/` and `/.` aside |
| Launcher.ScanRendered | src/z4j_celery/worker_bootstrap.py:161-189 | after any global options, values called `worker` included, the scan is true exactly if the subcommand is `worker` |
| Launcher.DetectionUndoesRendering | src/z4j_celery/worker_bootstrap.py:100-189 | the same for the whole command line under every supported launcher form |
| Launcher.WorkerCommandIff | src/z4j_celery/worker_bootstrap.py:68-189 | detection accepts exactly the command lines of supported launchers, global options and the subcommand `worker` |
| ModuleNames.WalkEndsIff | src/z4j_celery/discovery/static.py:246-248 | the walk ends after exactly as many moves as the maximal run is long, and never if every ancestor is a package directory |
| ModuleNames.GuessModuleName | src/z4j_celery/discovery/static.py:233-255 | the name is the maximal unbroken run of package directories, which is unique, from the top down, then the stem; nothing exactly if the run is empty |
| ModuleNames.NameDeterminesPath | src/z4j_celery/discovery/static.py:253-255 | where no directory name has a dot, splitting the module name gives the package directories back, and then the stem split at its own dots |
| ModuleNames.DottedParts | src/z4j_celery/discovery/static.py:174-182 | the attribute walk collects every attribute and the name at its root, if there is one |
| ModuleNames.ShortNameIsLast | src/z4j_celery/discovery/static.py:157-183 | the short name of a decorator is its last identifier, through any calls around it |
| ModuleNames.HasTaskDecorator | src/z4j_celery/discovery/static.py:155-165 | a function is a task exactly if some decorator ends in `task` or `shared_task` |
| MergeDiscoveries.Merge | src/z4j_celery/discovery/merger.py:31-41 | the two overwriting loops and the sort give the right-biased union, strictly sorted |
| MergeDiscoveries.LessIff | src/z4j_celery/discovery/merger.py:41 | the order of names is by the first character that differs, a prefix first |
| MergeDiscoveries.RuntimeWins | src/z4j_celery/discovery/merger.py:1-10 | an entry is in the result exactly if it is the last runtime definition of its name, or the last static one of a name that has no runtime definition |
| MergeDiscoveries.MergeUnique | src/z4j_celery/discovery/merger.py:31-41 | the result depends on nothing but the last definition of each name |
| MergeDiscoveries.MergeIgnoresOrder | src/z4j_celery/discovery/merger.py:31-41 | distinct-name inputs may come in any order |
| MergeDiscoveries.MergeIdempotent | src/z4j_celery/discovery/merger.py:31-41 | merging a result with itself changes nothing |
| MergeDiscoveries.MergeAssociative | src/z4j_celery/discovery/merger.py:31-41 | merging is associative |
| Traceback.TailsCompose | src/z4j_celery/events/mapper.py:35-45 | for 0 < m <= n cutting to n and then to m is cutting to m, despite the marker |
| Traceback.EventThenReconcile | src/z4j_celery/engine.py:818 | the two limits in use compose, and each is idempotent |
| Traceback.KeepsTheEnd | src/z4j_celery/events/mapper.py:35-45 | the last min(limit, length) characters are the original's |
| Traceback.LengthBoundIff | src/z4j_celery/events/mapper.py:35-45 | the documented length bound holds exactly for positive limits, and for limit 0 on the empty string |
| Traceback.ZeroKeepsEverything | src/z4j_celery/events/mapper.py:43-45 | limit 0 cuts nothing |
| PySlices.SliceTo | src/z4j_celery/actions/retry.py:323-325 | the length of a one-sided slice for any end, negative ones counting from the end |
| PySlices.SliceFrom | src/z4j_celery/events/mapper.py:43-45 | the length and content of a tail slice for any start |

## Left out

- Celery, kombu and Redis themselves: their calls are inputs with any outcome.
- The redaction engine, the `Event` and `CommandResult` classes and the inside of `safe_boundary`: not part of this model. Error texts are represented by which error it is.
- `BaseException`s that are not `Exception`s in the dispatch callback, and the stop flag of the receiver thread.
- A visibility timeout that sends back a message whose callback has not begun: `AckProtocol.Expire` covers those being handled or left unacknowledged.
- `task-received` and `task-sent` events, which the monitor does not map to handlers; `_coerce_args` and `_coerce_kwargs`, a Python literal parser.
- Event uuids and names are strings; an unusable uuid is a handler that raises before it reads the cache.
- `local_hostname` itself (two environment variables, stripped): the agents' filters are given as hostnames or none.
- Unicode in `strip()` and `lower()`: ASCII white space and letters only.
- The clock: whether an `eta` is in its window is an input, and waits time out at any moment.
- Order of `send_task` calls across attempts: a timed-out attempt may publish late, while calls are recorded by attempt.
- LazyInit.OnePoolPerProcess: a thread does not fork while it is itself inside the function, as the code never does.
- ModuleNames.GuessModuleName: asks for an ancestor that is not a package directory, without which the code does not return.
- ModuleNames.HasTaskDecorator: asks that identifiers contain no dot, as Python's do not.
- File globbing, symlink checks, signature rendering, `Path` on Windows.
- Purge, cancel, rate limit, worker control and dead letters: one offloaded call or a constant refusal each.
- Health and worker details, the configuration allowlist, broker connections, signal hooks, framework adapters, the command line tool, `meta.py`: plumbing without behaviour over runs.
