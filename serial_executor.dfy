/**
  ExecutorDemo's SerialExecutor as a class whose methods update `tasks` and
  `active` in place. The underlying Executor it was constructed with is the
  submission log `submitted`; how many wrapped tasks have returned or thrown is ghost
  bookkeeping, as is the list of every wrapper `execute` has created.
*/
module Executors {
  import opened SerialScheduling

  class SerialExecutor {
    var tasks: seq<TaskWrapper>
    var active: Option<TaskWrapper>
    var submitted: seq<TaskWrapper>
    ghost var finished: nat
    ghost var executed: seq<TaskWrapper>

    ghost function State(): Scheduler
      reads this
    {
      Scheduler(tasks, active, submitted, finished)
    }

    /** Serial execution, and the executor saw the created wrappers in `execute` order. */
    ghost predicate Valid()
      reads this
    {
      Inv(State()) && submitted + tasks == executed
    }

    constructor ()
      ensures Valid() && State() == Init() && executed == []
    {
      tasks, active, submitted := [], None, [];
      finished, executed := 0, [];
    }

    /** `execute(r)`: append the wrapper of `r` to `tasks`; if nothing is active, schedule it. */
    method Execute(r: Task)
      requires Valid()
      modifies this
      ensures Valid()
      ensures State() == SerialScheduling.Execute(old(State()), r)
      ensures executed == old(executed) + [TaskWrapper(r)]
    {
      tasks := tasks + [TaskWrapper(r)];
      executed := executed + [TaskWrapper(r)];
      if active == None {
        ScheduleNext();
      }
    }

    /** `scheduleNext()`: poll the head into `active` and submit it, or go idle on an empty queue. */
    method ScheduleNext()
      modifies this
      ensures State() == SerialScheduling.ScheduleNext(old(State()))
      ensures executed == old(executed)
    {
      if tasks == [] {
        active := None;
      } else {
        active := Some(tasks[0]);
        tasks := tasks[1..];
        submitted := submitted + [active.value];
      }
    }

    /**
      TaskWrapper.run of the one outstanding wrapper: the wrapped task runs
      (and threw when `threw` holds), then the finally calls `scheduleNext()`.
    */
    method FinishActive(threw: bool)
      requires Valid() && active.Some?
      modifies this
      ensures Valid()
      ensures State() == Complete(old(State()), threw)
      ensures executed == old(executed)
    {
      finished := finished + 1;
      ScheduleNext();
    }
  }

  /**
    `execute(r)` on a SerialExecutor over DirectExecutor: the submitted wrapper
    runs synchronously inside the call, so the call returns with nothing pending
    and nothing active, having submitted and finished exactly the wrapper of `r`.
  */
  method ExecuteDirect(e: SerialExecutor, r: Task, threw: bool)
    requires e.Valid() && e.active == None
    modifies e
    ensures e.Valid()
    ensures e.tasks == [] && e.active == None
    ensures e.submitted == old(e.submitted) + [TaskWrapper(r)]
    ensures e.finished == old(e.finished) + 1
    ensures e.executed == old(e.executed) + [TaskWrapper(r)]
  {
    e.Execute(r);
    e.FinishActive(threw);
  }
}
