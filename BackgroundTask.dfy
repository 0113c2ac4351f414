/** The task queue of src/services/backgroundTask.ts: a FIFO array of tasks,
    a processing flag and the handle of a recurring timer, updated in place.

    What a task does is not modelled: a task is its id, its priority and
    whether running it throws. Running a task appends its id to the ghost
    log `executed`; a task that throws also has its id appended to the ghost
    log `failed` (the source reports it with `console.error`). The drain runs
    to completion inside `ProcessQueue`, the order in which both of the
    source's back ends (the Scheduler API and the idle-callback / timeout
    chain) run the queued tasks. */
module BackgroundTask {
  import opened Types

  datatype TaskPriority = Background | UserBlocking | UserVisible

  datatype Task = Task(id: string, priority: TaskPriority, throws: bool)

  /** The browser features `getQueueStatus` looks for. */
  datatype Host = Host(hasScheduler: bool, hasIdleCallback: bool)

  datatype QueueStatus = QueueStatus(pending: nat, processing: bool, supported: string)

  function Ids(tasks: seq<Task>): (ids: seq<string>)
    ensures |ids| == |tasks|
    ensures forall i | 0 <= i < |tasks| :: ids[i] == tasks[i].id
  {
    seq(|tasks|, i requires 0 <= i < |tasks| => tasks[i].id)
  }

  /** The ids of the tasks that throw, in queue order. */
  function ThrowingIds(tasks: seq<Task>): seq<string>
    decreases |tasks|
  {
    if |tasks| == 0 then []
    else
      var last := tasks[|tasks| - 1];
      ThrowingIds(tasks[..|tasks| - 1]) + (if last.throws then [last.id] else [])
  }

  lemma IdsSnoc(tasks: seq<Task>, t: Task)
    ensures Ids(tasks + [t]) == Ids(tasks) + [t.id]
  {
  }

  lemma ThrowingIdsSnoc(tasks: seq<Task>, t: Task)
    ensures ThrowingIds(tasks + [t]) == ThrowingIds(tasks) + (if t.throws then [t.id] else [])
  {
    assert (tasks + [t])[..|tasks|] == tasks;
  }

  /** The back end `getQueueStatus` reports: the Scheduler API when present,
      else requestIdleCallback when present, else setTimeout. */
  function SupportedBackend(host: Host): (name: string)
    ensures name == "scheduler" <==> host.hasScheduler
    ensures name == "requestIdleCallback" <==> !host.hasScheduler && host.hasIdleCallback
    ensures name == "setTimeout" <==> !host.hasScheduler && !host.hasIdleCallback
  {
    if host.hasScheduler then "scheduler"
    else if host.hasIdleCallback then "requestIdleCallback"
    else "setTimeout"
  }

  class BackgroundTaskService {
    var taskQueue: seq<Task>
    var isProcessing: bool
    /** The handle of the recurring timer; `null` in the source is `None`. */
    var intervalId: Option<int>

    /** The ids of the tasks run so far, in the order they ran. */
    ghost var executed: seq<string>
    /** The ids of the tasks that threw, in the order they ran. */
    ghost var failed: seq<string>

    /** Timer handles returned by `setInterval` are positive. */
    ghost predicate Valid()
      reads this
    {
      intervalId.Some? ==> intervalId.value > 0
    }

    constructor ()
      ensures Valid()
      ensures taskQueue == [] && !isProcessing && intervalId == None
      ensures executed == [] && failed == []
    {
      taskQueue := [];
      isProcessing := false;
      intervalId := None;
      executed := [];
      failed := [];
    }

    /** scheduleTask: append the task at the tail of the queue, then start
        processing. Returns the task's id. */
    method ScheduleTask(id: string, priority: TaskPriority, throws: bool) returns (taskId: string)
      requires Valid()
      modifies this
      ensures Valid()
      ensures taskId == id
      ensures intervalId == old(intervalId)
      ensures old(isProcessing) ==>
        && taskQueue == old(taskQueue) + [Task(id, priority, throws)]
        && isProcessing
        && executed == old(executed) && failed == old(failed)
      ensures !old(isProcessing) ==>
        && taskQueue == []
        && !isProcessing
        && executed == old(executed) + Ids(old(taskQueue) + [Task(id, priority, throws)])
        && failed == old(failed) + ThrowingIds(old(taskQueue) + [Task(id, priority, throws)])
    {
      var backgroundTask := Task(id, priority, throws);
      taskQueue := taskQueue + [backgroundTask];
      ProcessQueue();
      taskId := id;
    }

    /** scheduleRecurringTask: schedule the task once now and record the
        handle `setInterval` returned for the later runs. The id returned to
        the caller (`recurringId`) is drawn apart from the id the inner
        `scheduleTask` call draws for the queued task (`innerId`). */
    method ScheduleRecurringTask(recurringId: string, innerId: string, priority: TaskPriority,
                                 throws: bool, handle: int)
      returns (taskId: string)
      requires Valid()
      requires handle > 0
      modifies this
      ensures Valid()
      ensures taskId == recurringId
      ensures intervalId == Some(handle)
      ensures old(isProcessing) ==>
        && taskQueue == old(taskQueue) + [Task(innerId, priority, throws)]
        && isProcessing
        && executed == old(executed) && failed == old(failed)
      ensures !old(isProcessing) ==>
        && taskQueue == []
        && !isProcessing
        && executed == old(executed) + Ids(old(taskQueue) + [Task(innerId, priority, throws)])
        && failed == old(failed) + ThrowingIds(old(taskQueue) + [Task(innerId, priority, throws)])
    {
      var _ := ScheduleTask(innerId, priority, throws);
      intervalId := Some(handle);
      taskId := recurringId;
    }

    /** processQueue: unless a drain is already running or there is nothing
        to do, set the flag, run every queued task from the head, and clear
        the flag in `finally`, whether or not tasks threw. */
    method ProcessQueue()
      requires Valid()
      modifies this
      ensures Valid()
      ensures intervalId == old(intervalId)
      ensures old(isProcessing) || old(taskQueue) == [] ==>
        && taskQueue == old(taskQueue) && isProcessing == old(isProcessing)
        && executed == old(executed) && failed == old(failed)
      ensures !old(isProcessing) && old(taskQueue) != [] ==>
        && taskQueue == []
        && !isProcessing
        && executed == old(executed) + Ids(old(taskQueue))
        && failed == old(failed) + ThrowingIds(old(taskQueue))
    {
      if isProcessing || |taskQueue| == 0 {
        return;
      }
      isProcessing := true;
      Drain();
      isProcessing := false;
    }

    /** The drain loop: take the head of the queue and run it, until the
        queue is empty. A throwing task is logged and the loop goes on. */
    method Drain()
      modifies this
      ensures taskQueue == []
      ensures isProcessing == old(isProcessing) && intervalId == old(intervalId)
      ensures executed == old(executed) + Ids(old(taskQueue))
      ensures failed == old(failed) + ThrowingIds(old(taskQueue))
    {
      ghost var k := 0;
      while |taskQueue| > 0
        invariant 0 <= k <= |old(taskQueue)|
        invariant taskQueue == old(taskQueue)[k..]
        invariant executed == old(executed) + Ids(old(taskQueue)[..k])
        invariant failed == old(failed) + ThrowingIds(old(taskQueue)[..k])
        invariant isProcessing == old(isProcessing) && intervalId == old(intervalId)
        decreases |taskQueue|
      {
        var task := taskQueue[0];
        taskQueue := taskQueue[1..];
        assert old(taskQueue)[..k + 1] == old(taskQueue)[..k] + [task];
        IdsSnoc(old(taskQueue)[..k], task);
        ThrowingIdsSnoc(old(taskQueue)[..k], task);
        executed := executed + [task.id];
        if task.throws {
          failed := failed + [task.id];
        }
        k := k + 1;
      }
      assert old(taskQueue)[..k] == old(taskQueue);
    }

    /** getQueueStatus: the number of pending tasks, the flag, and the back
        end in use. Changes nothing. */
    method GetQueueStatus(host: Host) returns (status: QueueStatus)
      ensures status.pending == |taskQueue|
      ensures status.processing == isProcessing
      ensures status.supported == SupportedBackend(host)
    {
      status := QueueStatus(|taskQueue|, isProcessing, SupportedBackend(host));
    }

    /** clearQueue: drop every pending task and stop the recurring timer. */
    method ClearQueue()
      requires Valid()
      modifies this
      ensures Valid()
      ensures taskQueue == [] && intervalId == None
      ensures isProcessing == old(isProcessing)
      ensures executed == old(executed) && failed == old(failed)
    {
      taskQueue := [];
      if intervalId.Some? && intervalId.value != 0 {
        intervalId := None;
      }
    }

    /** cleanup: clear the queue and reset the processing flag. */
    method Cleanup()
      requires Valid()
      modifies this
      ensures Valid()
      ensures taskQueue == [] && intervalId == None && !isProcessing
      ensures executed == old(executed) && failed == old(failed)
    {
      ClearQueue();
      isProcessing := false;
    }
  }
}
