/** Values exchanged by the job dispatcher: trigger parameters, the ReturnT
    answer, executor identities and the abstract view of a job queue. */
module JobModel {

  /** ReturnT status codes (xxl-job convention). */
  const SUCCESS_CODE: int := 200
  const FAIL_CODE: int := 500

  /** Block-strategy names compared against the trigger's strategy string. */
  const SERIAL_EXECUTION: string := "SERIAL_EXECUTION"
  const DISCARD_LATER: string := "DISCARD_LATER"
  const COVER_EARLY: string := "COVER_EARLY"

  /** A trigger request from the scheduler (the fields the dispatcher reads,
      plus the executor parameters as an opaque payload). */
  datatype TriggerParam = TriggerParam(
    jobId: int,
    glueType: string,
    executorBlockStrategy: string,
    executorParams: string)

  /** The message carried by a ReturnT, as a tag instead of formatted text. */
  datatype Reason =
    | NoReason
    | GlueTypeNotSupported(glueType: string)
    | BlockStrategyEffect(strategy: string)
    | AddRunningQueueError
    | ReplaceRunningQueueError
    | JobThreadRunning

  datatype ReturnT = ReturnT(code: int, msg: Reason)

  const SUCCESS: ReturnT := ReturnT(SUCCESS_CODE, NoReason)

  function Failed(msg: Reason): ReturnT
  {
    ReturnT(FAIL_CODE, msg)
  }

  /** An executor capability, compared by reference only. */
  class TaskExecutor {
    constructor() {}
  }

  /** A call made on a job queue, with the queue's (opaque) answer. */
  datatype QueueEvent =
    | Pushed(trigger: TriggerParam, reply: ReturnT)
    | Replaced(trigger: TriggerParam, reply: ReturnT)
    | Stopped

  /** What can be observed of one job queue: its executor, whether Stop was
      called, and the calls it received. */
  datatype QueueView = QueueView(executor: TaskExecutor, stopped: bool, log: seq<QueueEvent>)
}
