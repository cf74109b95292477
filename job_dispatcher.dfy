/** JobDispatcher and the objects it works on. The registry RUNNING_QUEUE is
    a map field that the methods reassign; job queues are objects whose
    calls are recorded in a log. Every public method is proved to follow the
    matching function of module DispatchSpec. */
module Dispatch {
  import opened JobModel
  import DispatchSpec

  /** Resolves a glue type to its executor; null when the type is unknown. */
  class TaskExecutorFactory {
    const executors: map<string, TaskExecutor>

    constructor(executors: map<string, TaskExecutor>)
      ensures this.executors == executors
    {
      this.executors := executors;
    }

    function GetTaskExecutor(glueType: string): (e: TaskExecutor?)
      ensures e != null <==> glueType in executors
      ensures e != null ==> e == executors[glueType]
    {
      if glueType in executors then executors[glueType] else null
    }
  }

  /** The per-job queue. Its run loop is not modelled: Push, Replace and
      Stop are recorded in `log`, and Push and Replace give opaque answers. */
  class JobQueue {
    const executor: TaskExecutor
    var stopped: bool
    var log: seq<QueueEvent>

    function View(): QueueView
      reads this
    {
      QueueView(executor, stopped, log)
    }

    constructor(executor: TaskExecutor)
      ensures View() == DispatchSpec.NewQueue(executor)
    {
      this.executor := executor;
      stopped := false;
      log := [];
    }

    method Push(t: TriggerParam) returns (r: ReturnT)
      modifies this
      ensures View() == DispatchSpec.Push(old(View()), t, r)
    {
      r := *;
      log := log + [Pushed(t, r)];
    }

    method Replace(t: TriggerParam) returns (r: ReturnT)
      modifies this
      ensures View() == DispatchSpec.Replace(old(View()), t, r)
    {
      r := *;
      log := log + [Replaced(t, r)];
    }

    method Stop()
      modifies this
      ensures View() == DispatchSpec.Stop(old(View()))
    {
      stopped := true;
      log := log + [Stopped];
    }
  }

  class JobDispatcher {
    const executorFactory: TaskExecutorFactory
    /** RUNNING_QUEUE: job id to its queue. */
    var runningQueue: map<int, JobQueue?>
    /** The dispatcher and every queue it has registered. */
    ghost var Repr: set<object>

    /** No stored queue is null, every stored queue is in Repr, and no queue
        serves two job ids. */
    ghost predicate Valid()
      reads this, Repr
    {
      && this in Repr
      && (forall k :: k in runningQueue ==> runningQueue[k] != null && runningQueue[k] in Repr)
      && (forall j, k :: j in runningQueue && k in runningQueue && j != k ==> runningQueue[j] != runningQueue[k])
    }

    /** The registry as a value. */
    ghost function Registry(): DispatchSpec.Registry
      requires Valid()
      reads this, Repr
    {
      map k | k in runningQueue :: runningQueue[k].View()
    }

    constructor(executorFactory: TaskExecutorFactory)
      ensures Valid() && fresh(Repr) && Registry() == map[]
      ensures this.executorFactory == executorFactory
    {
      this.executorFactory := executorFactory;
      runningQueue := map[];
      Repr := {this};
    }

    // ------------------------------------------------------------------
    // ConcurrentDictionary calls, one at a time
    // ------------------------------------------------------------------

    method TryGetValue(key: int) returns (found: bool, value: JobQueue?)
      ensures found <==> key in runningQueue
      ensures value == if found then runningQueue[key] else null
    {
      found := key in runningQueue;
      value := if found then runningQueue[key] else null;
    }

    method ContainsKey(key: int) returns (found: bool)
      ensures found <==> key in runningQueue
    {
      found := key in runningQueue;
    }

    method TryAdd(key: int, value: JobQueue?) returns (added: bool)
      modifies this`runningQueue
      ensures added <==> key !in old(runningQueue)
      ensures runningQueue == if added then old(runningQueue)[key := value] else old(runningQueue)
    {
      added := key !in runningQueue;
      if added {
        runningQueue := runningQueue[key := value];
      }
    }

    method TryUpdate(key: int, newValue: JobQueue?, comparisonValue: JobQueue?) returns (updated: bool)
      modifies this`runningQueue
      ensures updated <==> key in old(runningQueue) && old(runningQueue)[key] == comparisonValue
      ensures runningQueue == if updated then old(runningQueue)[key := newValue] else old(runningQueue)
    {
      updated := key in runningQueue && runningQueue[key] == comparisonValue;
      if updated {
        runningQueue := runningQueue[key := newValue];
      }
    }

    // ------------------------------------------------------------------
    // The dispatcher
    // ------------------------------------------------------------------

    /** Stops the job's queue if it is registered; the key stays. */
    method TryRemoveJobTask(jobId: int) returns (found: bool)
      requires Valid()
      modifies Repr
      ensures Valid() && Repr == old(Repr) && runningQueue == old(runningQueue)
      ensures DispatchSpec.TryRemoveJobTask(old(Registry()), jobId) == DispatchSpec.Removal(found, Registry())
    {
      var jobQueue;
      found, jobQueue := TryGetValue(jobId);
      if found {
        jobQueue.Stop();
        forall k | k in runningQueue && k != jobId
          ensures runningQueue[k].View() == old(runningQueue[k].View())
        {
        }
      }
    }

    method Execute(t: TriggerParam) returns (r: ReturnT)
      requires Valid()
      modifies Repr
      ensures Valid() && fresh(Repr - old(Repr))
      // registered job ids keep the very queue objects they were bound to
      ensures forall k :: k in old(runningQueue) ==> k in runningQueue && runningQueue[k] == old(runningQueue)[k]
      // a queue bound to a newly registered job is a new object
      ensures t.jobId !in old(runningQueue) && t.jobId in runningQueue ==> fresh(runningQueue[t.jobId])
      ensures exists reply :: DispatchSpec.Execute(old(Registry()), executorFactory.executors, t, reply)
                              == DispatchSpec.Outcome(Registry(), r)
    {
      var executor := executorFactory.GetTaskExecutor(t.glueType);
      if executor == null {
        r := Failed(GlueTypeNotSupported(t.glueType));
        assert DispatchSpec.Execute(old(Registry()), executorFactory.executors, t, r) == DispatchSpec.Outcome(Registry(), r);
        return;
      }

      var found, taskQueue := TryGetValue(t.jobId);
      if found {
        if taskQueue.executor != executor {
          r := ChangeJobQueue(t, executor);
          assert DispatchSpec.Execute(old(Registry()), executorFactory.executors, t, r) == DispatchSpec.Outcome(Registry(), r);
          return;
        }
      }

      if taskQueue != null {
        if DISCARD_LATER == t.executorBlockStrategy {
          r := Failed(BlockStrategyEffect(t.executorBlockStrategy));
          assert DispatchSpec.Execute(old(Registry()), executorFactory.executors, t, r) == DispatchSpec.Outcome(Registry(), r);
          return;
        }
        if COVER_EARLY == t.executorBlockStrategy {
          r := taskQueue.Replace(t);
          forall k | k in runningQueue && k != t.jobId
            ensures runningQueue[k].View() == old(runningQueue[k].View())
          {
          }
          assert DispatchSpec.Execute(old(Registry()), executorFactory.executors, t, r) == DispatchSpec.Outcome(Registry(), r);
          return;
        }
      }

      r := PushJobQueue(t, executor);
      ghost var reply :| DispatchSpec.PushJobQueue(old(Registry()), t, executor, reply) == DispatchSpec.Outcome(Registry(), r);
      assert DispatchSpec.Execute(old(Registry()), executorFactory.executors, t, reply) == DispatchSpec.Outcome(Registry(), r);
    }

    /** Busy exactly when the job id is a key of the registry. */
    method IdleBeat(jobId: int) returns (r: ReturnT)
      requires Valid()
      ensures r == DispatchSpec.IdleBeat(Registry(), jobId)
    {
      var running := ContainsKey(jobId);
      r := if running then ReturnT(FAIL_CODE, JobThreadRunning) else SUCCESS;
    }

    /** Registers a fresh queue for an absent job and pushes the trigger on
        it; answers the add-error failure in every case. */
    method PushJobQueue(t: TriggerParam, executor: TaskExecutor) returns (r: ReturnT)
      requires Valid()
      modifies this`runningQueue, this`Repr
      ensures Valid() && fresh(Repr - old(Repr))
      ensures forall k :: k in old(runningQueue) ==> k in runningQueue && runningQueue[k] == old(runningQueue)[k]
      ensures runningQueue.Keys <= old(runningQueue).Keys + {t.jobId}
      ensures t.jobId !in old(runningQueue) ==> t.jobId in runningQueue && fresh(runningQueue[t.jobId])
      ensures exists reply :: DispatchSpec.PushJobQueue(old(Registry()), t, executor, reply)
                              == DispatchSpec.Outcome(Registry(), r)
    {
      var jobQueue := new JobQueue(executor);
      var added := TryAdd(t.jobId, jobQueue);
      if added {
        Repr := Repr + {jobQueue};
        var reply := jobQueue.Push(t);
        r := Failed(AddRunningQueueError);
        forall k | k in runningQueue && k != t.jobId
          ensures runningQueue[k].View() == old(runningQueue[k].View())
        {
        }
        assert DispatchSpec.PushJobQueue(old(Registry()), t, executor, reply) == DispatchSpec.Outcome(Registry(), r);
      } else {
        r := Failed(AddRunningQueueError);
        assert DispatchSpec.PushJobQueue(old(Registry()), t, executor, r) == DispatchSpec.Outcome(Registry(), r);
      }
    }

    /** Swaps in a fresh queue only if the stored one equals the null
        comparison value; answers the replace-error failure otherwise. */
    method ChangeJobQueue(t: TriggerParam, executor: TaskExecutor) returns (r: ReturnT)
      modifies this`runningQueue, this`Repr
      ensures if t.jobId in old(runningQueue) && old(runningQueue)[t.jobId] == null then
          && t.jobId in runningQueue
          && var q := runningQueue[t.jobId];
          && q != null && fresh(q)
          && runningQueue == old(runningQueue)[t.jobId := q]
          && Repr == old(Repr) + {q}
          && q.View() == QueueView(executor, false, [Pushed(t, r)])
        else
          runningQueue == old(runningQueue) && Repr == old(Repr) && r == Failed(ReplaceRunningQueueError)
    {
      var jobQueue := new JobQueue(executor);
      var updated := TryUpdate(t.jobId, jobQueue, null);
      if updated {
        Repr := Repr + {jobQueue};
        r := jobQueue.Push(t);
        return;
      }
      r := Failed(ReplaceRunningQueueError);
    }
  }

  /** A job that was triggered, then removed, still answers busy; a second
      trigger for it is refused, and so is a trigger that names another
      executor for it. */
  method RemoveThenRetrigger() returns (first: ReturnT, removed: bool, beat: ReturnT, second: ReturnT, changed: ReturnT)
    ensures first == Failed(AddRunningQueueError)
    ensures removed && beat.code == FAIL_CODE
    ensures second == Failed(AddRunningQueueError)
    ensures changed == Failed(ReplaceRunningQueueError)
  {
    var bean := new TaskExecutor();
    var shell := new TaskExecutor();
    var factory := new TaskExecutorFactory(map["BEAN" := bean, "GLUE_SHELL" := shell]);
    var dispatcher := new JobDispatcher(factory);
    var t := TriggerParam(1, "BEAN", SERIAL_EXECUTION, "");
    first := dispatcher.Execute(t);
    removed := dispatcher.TryRemoveJobTask(1);
    beat := dispatcher.IdleBeat(1);
    second := dispatcher.Execute(t);
    changed := dispatcher.Execute(t.(glueType := "GLUE_SHELL"));
  }
}
