# JobDispatcher: trigger dispatch of the DotXxlJob executor

This project models the trigger-dispatch logic of `JobDispatcher` in DotXxlJob,
the .NET executor for the xxl-job scheduler. The dispatcher keeps one registry,
`RUNNING_QUEUE`, which maps a job id to that job's `JobQueue`. It offers three
public operations:

- `Execute(trigger)` resolves an executor for the trigger's glue type. It then
  rejects the trigger, hands it to the registered queue's `Replace`
  (COVER_EARLY), or tries to register a new queue and push the trigger onto it.
  The branch meant to swap the executor (lines 70-72) always fails; see below.
- `IdleBeat(jobId)` answers busy or idle.
- `TryRemoveJobTask(jobId)` stops a job's queue.

The model has three modules:

- `JobModel` (job_model.dfy) holds the values: `TriggerParam`, `ReturnT` with
  a reason tag in place of the message text, executor identities
  (`TaskExecutor`, compared by reference), and `QueueView`, which is what can
  be seen of a queue (its executor, its stopped flag, and a log of the
  `Push`/`Replace`/`Stop` calls it received, with their answers).
- `DispatchSpec` (dispatch_spec.dfy) gives each operation as a function from
  the old registry, seen as a map of values, to the new registry and the answer.
  It then proves what the dispatcher promises, first for one call and then for
  any sequence of calls (`Run`).
- `Dispatch` (job_dispatcher.dfy) is the imperative model. It has the class
  `JobDispatcher` with the field `runningQueue: map<int, JobQueue?>`, the
  sequential `ConcurrentDictionary` calls (`TryGetValue`, `ContainsKey`,
  `TryAdd`, `TryUpdate`) and the class `JobQueue`. Each public method is proved
  to follow its function in `DispatchSpec`.

The model follows the code as written, including four places where the code's
own names and comments suggest a different intent:

- A trigger whose glue type resolves, for a job not yet registered, creates
  and registers a queue and pushes the trigger onto it. It still answers `Failed("add running queue
  executor error")`, with code 500, because `PushJobQueue` returns that failure
  unconditionally (JobDispatcher.cs:115). The xxl-job scheduler reads code 500
  as a failed trigger.
- The executor is never swapped, although the comment at JobDispatcher.cs:70
  marks this branch as the executor change. `ChangeJobQueue` calls `TryUpdate`
  with a null comparison value (JobDispatcher.cs:122), and no stored queue is
  null. So the update never happens and the answer is the replace-error failure.
- `TryRemoveJobTask`, documented as "try to remove the JobTask"
  (JobDispatcher.cs:36-37), stops the queue but keeps its key
  (JobDispatcher.cs:44-47). So `IdleBeat` answers busy for ever after.
- The comment at JobDispatcher.cs:76 says the strategy decides what happens
  while an old task is still executing. A trigger for a registered job whose
  executor is unchanged and whose strategy is neither `DISCARD_LATER` nor
  `COVER_EARLY` goes through `TryAdd`.
  That add fails, so the trigger is dropped with a failure
  (JobDispatcher.cs:90, 111).

The registry's values are typed `JobQueue?`, because a C# dictionary of a
reference type can hold null. The invariant `Valid()` states that no stored
queue is null and that no queue serves two job ids.

## Model

| member | source | states |
|---|---|---|
| `DispatchSpec.Execute` | src/DotXxlJob.Core/JobDispatcher.cs:58-92 | a key is added only for a resolvable glue type and is never removed; no other job's entry changes; a registered job's queue is either untouched or receives exactly one Replace of this trigger; every answer is a failure except the Replace answer of a registered COVER_EARLY trigger |
| `DispatchSpec.PushJobQueue` | src/DotXxlJob.Core/JobDispatcher.cs:108-116 | the answer is always the add-error failure; an absent job gets a fresh, unstopped queue with the resolved executor whose only call is Push(trigger); a registered job's entry is unchanged |
| `DispatchSpec.ChangeJobQueue` | src/DotXxlJob.Core/JobDispatcher.cs:118-127 | the update conditioned on a null stored value never applies: the registry is unchanged and the answer is the replace-error failure |
| `DispatchSpec.IdleBeat` | src/DotXxlJob.Core/JobDispatcher.cs:100-105 | FAIL_CODE exactly when the job id is a registry key, SUCCESS_CODE exactly when it is not |
| `DispatchSpec.TryRemoveJobTask` | src/DotXxlJob.Core/JobDispatcher.cs:42-50 | true exactly when the job is registered; the keys stay the same; only that job's queue changes, and it becomes stopped with the same executor and one Stop added to its log |
| `DispatchSpec.UnsupportedGlueTypeRejected` | src/DotXxlJob.Core/JobDispatcher.cs:61-65 | an unresolvable glue type gives the "not supported" failure and leaves the registry unchanged |
| `DispatchSpec.DiscardLaterRejected` | src/DotXxlJob.Core/JobDispatcher.cs:76-82 | registered, same executor, DISCARD_LATER: the block-strategy failure, and the registry and its queues are unchanged |
| `DispatchSpec.CoverEarlyReplaces` | src/DotXxlJob.Core/JobDispatcher.cs:84-87 | registered, same executor, COVER_EARLY: the answer is exactly the queue's Replace answer; the keys, executor and stopped flag are kept; the log gains Replaced(trigger) |
| `DispatchSpec.ExecutorChangeRejected` | src/DotXxlJob.Core/JobDispatcher.cs:68-73 | registered with a different executor (by reference): the registry is unchanged and the answer is the replace-error failure |
| `DispatchSpec.NewJobRegisteredButFails` | src/DotXxlJob.Core/JobDispatcher.cs:90 | unregistered job, resolvable glue type: it is bound to a fresh queue with that executor holding just Push(trigger), yet the answer is the add-error failure |
| `DispatchSpec.RegisteredJobNotPushed` | src/DotXxlJob.Core/JobDispatcher.cs:110-115 | registered, same executor, any other strategy: no push happens, the registry is unchanged and the answer is the add-error failure |
| `DispatchSpec.RemovedJobStaysBusy` | src/DotXxlJob.Core/JobDispatcher.cs:44-47 | after removing a registered job, IdleBeat still answers FAIL_CODE |
| `DispatchSpec.ApplyKeepsJobs` | src/DotXxlJob.Core/JobDispatcher.cs:42-127 | one call of any operation keeps every registered key with its executor, and once Stop was called on a queue the record of it stays |
| `DispatchSpec.RunNeverRemovesJob` | src/DotXxlJob.Core/JobDispatcher.cs:42-127 | over any sequence of calls a registered job stays registered, so IdleBeat answers busy for ever |
| `DispatchSpec.RunKeepsExecutor` | src/DotXxlJob.Core/JobDispatcher.cs:68-73 | over any sequence of calls a registered job keeps the executor it was registered with, and once Stop was called on its queue the record of it stays |
| `DispatchSpec.RunLeavesOtherJobs` | src/DotXxlJob.Core/JobDispatcher.cs:42-127 | calls naming other job ids never add, change or remove a job's entry |
| `DispatchSpec.ApplyKeepsPushedOnce` | src/DotXxlJob.Core/JobDispatcher.cs:108-116 | one call keeps the invariant that every queue received exactly one Push, as its first call, carrying a trigger for its own job id |
| `DispatchSpec.RunKeepsPushedOnce` | src/DotXxlJob.Core/JobDispatcher.cs:108-116 | over any sequence of calls every queue receives exactly one Push, as its first call, carrying a trigger for the job id it is registered under; later triggers reach it only through Replace |
| `Dispatch.TaskExecutorFactory.GetTaskExecutor` | src/DotXxlJob.Core/JobDispatcher.cs:61-62 | the executor mapped to the glue type, and null exactly when the glue type has none |
| `Dispatch.JobQueue.constructor` | src/DotXxlJob.Core/JobDispatcher.cs:110 | a new queue holds the given executor, is not stopped and has received no call |
| `Dispatch.JobQueue.Push` | src/DotXxlJob.Core/JobDispatcher.cs:113 | the log gains Pushed(trigger, answer); executor and stopped flag are kept |
| `Dispatch.JobQueue.Replace` | src/DotXxlJob.Core/JobDispatcher.cs:86 | the log gains Replaced(trigger, answer); executor and stopped flag are kept |
| `Dispatch.JobQueue.Stop` | src/DotXxlJob.Core/JobDispatcher.cs:46 | the queue is stopped and the log gains Stopped |
| `Dispatch.JobDispatcher.constructor` | src/DotXxlJob.Core/JobDispatcher.cs:16-33 | the registry starts empty and the invariant holds |
| `Dispatch.JobDispatcher.TryGetValue` | src/DotXxlJob.Core/JobDispatcher.cs:44 | found exactly when the key is present; the value is the stored queue, or null when absent |
| `Dispatch.JobDispatcher.ContainsKey` | src/DotXxlJob.Core/JobDispatcher.cs:102 | true exactly when the key is present |
| `Dispatch.JobDispatcher.TryAdd` | src/DotXxlJob.Core/JobDispatcher.cs:111 | adds exactly when the key is absent; otherwise the map is unchanged |
| `Dispatch.JobDispatcher.TryUpdate` | src/DotXxlJob.Core/JobDispatcher.cs:122 | replaces exactly when the key is present and its value equals the comparison value; otherwise the map is unchanged |
| `Dispatch.JobDispatcher.TryRemoveJobTask` | src/DotXxlJob.Core/JobDispatcher.cs:42-50 | keeps the invariant and the key set; the answer and the new registry are those of DispatchSpec.TryRemoveJobTask |
| `Dispatch.JobDispatcher.Execute` | src/DotXxlJob.Core/JobDispatcher.cs:58-92 | keeps the invariant; every registered job id stays bound to the very same queue object; a newly registered job gets a new queue object; for some answer of the queue call, the answer and the new registry are those of DispatchSpec.Execute |
| `Dispatch.JobDispatcher.IdleBeat` | src/DotXxlJob.Core/JobDispatcher.cs:100-105 | changes nothing; the answer is that of DispatchSpec.IdleBeat on the current registry |
| `Dispatch.JobDispatcher.PushJobQueue` | src/DotXxlJob.Core/JobDispatcher.cs:108-116 | keeps the invariant; every registered job id stays bound to the same queue object; at most the trigger's job id is added, bound to a new queue object; for some Push answer, the answer and the new registry are those of DispatchSpec.PushJobQueue |
| `Dispatch.JobDispatcher.ChangeJobQueue` | src/DotXxlJob.Core/JobDispatcher.cs:118-127 | swaps in a fresh pushed queue only when the stored value is null; otherwise nothing changes and the answer is the replace-error failure |
| `Dispatch.RemoveThenRetrigger` | src/DotXxlJob.Core/JobDispatcher.cs:42-127 | on a fresh dispatcher: first trigger fails with the add error; removal succeeds but IdleBeat stays busy; a repeated trigger fails with the add error; a trigger naming another executor fails with the replace error |

## Left out

- Concurrency. `ConcurrentDictionary`'s `TryGetValue`, `TryAdd`, `TryUpdate` and `ContainsKey` are modelled by what one call does on its own. Interleavings of concurrent triggers are not modelled, including the race between the lookup at line 68 and the add at line 111.
- `JobQueue` internals: its run loop, its pending and running states, and what `Push`, `Replace` and `Stop` do inside. `Dispatch.JobQueue` stands for the class, but its implementation is not modelled: each call is recorded in the queue's log and its answer is arbitrary. In particular, the `stopped` flag records only that `Stop` was called; whether a stopped queue that later receives `Replace` (a COVER_EARLY trigger after `TryRemoveJobTask`, line 86) runs anything again is decided by that unmodelled code.
- `TaskExecutorFactory` and `ITaskExecutor` behaviour. The lookup is a given partial map from glue type to executor, and executors are identities compared by reference.
- `CallbackTaskQueue`, the loggers and the logger factory (lines 14, 19-32). They are I/O and logging plumbing and do not take part in any decision.
- Message text. Each `ReturnT` message is a reason tag, such as `GlueTypeNotSupported(glueType)`, instead of a formatted string.
- Constants that are defined outside JobDispatcher.cs. The values `FAIL_CODE = 500` and `SUCCESS_CODE = 200` and the strategy names "DISCARD_LATER" and "COVER_EARLY" follow the xxl-job conventions. The Constants and ReturnT files are not part of this model.
- `DispatchSpec.TryUpdate` compares queue views by value, whereas the C# dictionary compares references. The only comparison value the dispatcher ever passes is null, so the two agree on every call it makes. The class-level `Dispatch.JobDispatcher.TryUpdate` compares references.
- 32-bit job ids. Job ids are only compared and never computed with, so they are modelled as unbounded integers.
