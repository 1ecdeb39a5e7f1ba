/**
  The scheduling state of ExecutorDemo's SerialExecutor, as values. The
  underlying Executor is kept abstract: it is the log `submitted` of the
  wrappers handed to its `execute`, and `finished` counts how many of those have
  finished their wrapped task (its `task.run()` returned or threw). A wrapper
  that has been submitted but whose task has not finished is outstanding. The
  task's end and the `finally` that calls `scheduleNext()` are one event here;
  in Java the wrapper's own `run` returns only after that `scheduleNext()`.
*/
module SerialScheduling {

  datatype Option<T> = None | Some(value: T)

  /** A Runnable handed to `SerialExecutor.execute`, identified by its reference. */
  datatype Task = Task(id: nat)

  /** `new TaskWrapper(r, this)`: runs `r`, then calls `scheduleNext()` in a finally. */
  datatype TaskWrapper = TaskWrapper(task: Task)

  datatype Scheduler = Scheduler(
    tasks: seq<TaskWrapper>,      // the pending ArrayDeque, head first
    active: Option<TaskWrapper>,  // `active`, None for null
    submitted: seq<TaskWrapper>,  // every wrapper passed to the underlying executor, in order
    finished: nat)                // how many submitted wrappers' tasks have returned or thrown

  /** A freshly constructed SerialExecutor over an executor that has run nothing yet. */
  function Init(): Scheduler {
    Scheduler([], None, [], 0)
  }

  predicate Outstanding(s: Scheduler) {
    s.finished < |s.submitted|
  }

  /**
    Serial execution: at most one submitted wrapper is outstanding, it is the
    last one submitted and it is `active`; a pending task implies a non-null
    `active`.
  */
  predicate Inv(s: Scheduler) {
    && s.finished <= |s.submitted| <= s.finished + 1
    && (s.active.Some? <==> Outstanding(s))
    && (s.active.Some? ==> s.active.value == s.submitted[|s.submitted| - 1])
    && (s.tasks != [] ==> s.active.Some?)
  }

  /** `scheduleNext()`: `active = tasks.poll()`, and if that is not null, `executor.execute(active)`. */
  function ScheduleNext(s: Scheduler): (r: Scheduler)
    ensures r.finished == s.finished
    ensures r.submitted + r.tasks == s.submitted + s.tasks
    ensures s.tasks == [] ==> r == s.(active := None)
    ensures s.tasks != [] ==> && r.active == Some(s.tasks[0])
                              && r.submitted == s.submitted + [s.tasks[0]]
                              && r.tasks == s.tasks[1..]
  {
    if s.tasks == [] then s.(active := None)
    else s.(tasks := s.tasks[1..], active := Some(s.tasks[0]), submitted := s.submitted + [s.tasks[0]])
  }

  /** `execute(r)`: enqueue the wrapper of `r`; if `active` is null, `scheduleNext()`. */
  function Execute(s: Scheduler, r: Task): (s': Scheduler)
    ensures s'.finished == s.finished
    ensures s'.submitted + s'.tasks == s.submitted + s.tasks + [TaskWrapper(r)]
    ensures s.active.Some? ==> && s'.active == s.active
                               && s'.submitted == s.submitted
                               && s'.tasks == s.tasks + [TaskWrapper(r)]
    ensures s.active == None ==> && s'.active == Some((s.tasks + [TaskWrapper(r)])[0])
                                 && s'.submitted == s.submitted + [s'.active.value]
    ensures Inv(s) ==> Inv(s')
  {
    var queued := s.(tasks := s.tasks + [TaskWrapper(r)]);
    if s.active == None then ScheduleNext(queued) else queued
  }

  /**
    The outstanding wrapper finishes `run`: `task.run()` returned normally, or
    threw when `threw` holds, and either way the finally calls `scheduleNext()`
    once. With no outstanding wrapper there is nothing to finish.
  */
  function Complete(s: Scheduler, threw: bool): (r: Scheduler)
    ensures !Outstanding(s) ==> r == s
    ensures Outstanding(s) ==> r == ScheduleNext(s.(finished := s.finished + 1))
    ensures r.submitted + r.tasks == s.submitted + s.tasks
    ensures Inv(s) ==> Inv(r)
  {
    if Outstanding(s) then ScheduleNext(s.(finished := s.finished + 1)) else s
  }

  /**
    Whether the task threw does not influence scheduling. This records the
    modelling decision that the `finally` around `task.run()` runs
    `scheduleNext()` on both paths; `Complete` never reads `threw`, so the lemma
    holds by construction and is not itself evidence about the source.
  */
  lemma CompletionIgnoresOutcome(s: Scheduler)
    ensures Complete(s, true) == Complete(s, false)
  {
  }

  /**
    Over DirectExecutor (`execute(r)` is `r.run()`), the wrapper finishes inside
    the submitting call: `execute` on an idle SerialExecutor returns idle, with
    the wrapper submitted and finished.
  */
  lemma DirectExecution(s: Scheduler, r: Task, threw: bool)
    requires Inv(s) && s.active == None
    ensures Complete(Execute(s, r), threw)
            == Scheduler([], None, s.submitted + [TaskWrapper(r)], s.finished + 1)
  {
  }

  // ---------------------------------------------------------------------
  // Any sequence of events in the order the executor's monitor admits them.

  datatype Event = ExecuteEvent(task: Task) | FinishEvent(threw: bool)

  function Run(s: Scheduler, events: seq<Event>): Scheduler
    decreases |events|
  {
    if events == [] then s
    else
      match events[0]
      case ExecuteEvent(r) => Run(Execute(s, r), events[1..])
      case FinishEvent(threw) => Run(Complete(s, threw), events[1..])
  }

  /** The wrappers `execute` created, in call order. */
  function Executed(events: seq<Event>): (w: seq<TaskWrapper>)
    ensures |w| <= |events|
    ensures forall i :: 0 <= i < |events| && events[i].ExecuteEvent? ==> TaskWrapper(events[i].task) in w
    ensures forall x :: x in w ==> exists i :: 0 <= i < |events| && events[i] == ExecuteEvent(x.task)
    decreases |events|
  {
    if events == [] then []
    else
      match events[0]
      case ExecuteEvent(r) => [TaskWrapper(r)] + Executed(events[1..])
      case FinishEvent(_) => Executed(events[1..])
  }

  /** One wrapper per `execute` call and none per completion. */
  lemma ExecutedSingle(r: Task, threw: bool)
    ensures Executed([ExecuteEvent(r)]) == [TaskWrapper(r)]
    ensures Executed([FinishEvent(threw)]) == []
  {
  }

  /** The wrappers of consecutive event sequences are created in call order. */
  lemma {:induction false} ExecutedAppend(a: seq<Event>, b: seq<Event>)
    ensures Executed(a + b) == Executed(a) + Executed(b)
    decreases |a|
  {
    if a != [] {
      assert (a + b)[0] == a[0];
      assert (a + b)[1..] == a[1..] + b;
      ExecutedAppend(a[1..], b);
      match a[0]
      case ExecuteEvent(r) =>
        calc {
          Executed(a + b);
          [TaskWrapper(r)] + Executed(a[1..] + b);
          [TaskWrapper(r)] + (Executed(a[1..]) + Executed(b));
          ([TaskWrapper(r)] + Executed(a[1..])) + Executed(b);
          Executed(a) + Executed(b);
        }
      case FinishEvent(_) =>
        assert Executed(a + b) == Executed(a[1..] + b);
    } else {
      assert a + b == b;
    }
  }

  /** Every event keeps serial execution. */
  lemma {:induction false} RunKeepsInv(s: Scheduler, events: seq<Event>)
    requires Inv(s)
    ensures Inv(Run(s, events))
    decreases |events|
  {
    if events != [] {
      match events[0]
      case ExecuteEvent(r) => RunKeepsInv(Execute(s, r), events[1..]);
      case FinishEvent(threw) => RunKeepsInv(Complete(s, threw), events[1..]);
    }
  }

  /** The wrappers handed to the executor, then the pending ones, are the wrappers created so far, in order. */
  lemma {:induction false} RunKeepsOrder(s: Scheduler, events: seq<Event>)
    ensures Run(s, events).submitted + Run(s, events).tasks
            == s.submitted + s.tasks + Executed(events)
    decreases |events|
  {
    if events != [] {
      match events[0]
      case ExecuteEvent(r) =>
        var s' := Execute(s, r);
        RunKeepsOrder(s', events[1..]);
        calc {
          Run(s, events).submitted + Run(s, events).tasks;
          s'.submitted + s'.tasks + Executed(events[1..]);
          s.submitted + s.tasks + [TaskWrapper(r)] + Executed(events[1..]);
          s.submitted + s.tasks + ([TaskWrapper(r)] + Executed(events[1..]));
        }
      case FinishEvent(threw) => RunKeepsOrder(Complete(s, threw), events[1..]);
    }
  }

  /**
    From construction on: submission order is `execute` order (what the executor
    was given is a prefix of the created wrappers), at most one wrapper is
    outstanding, and pending tasks imply a non-null `active`.
  */
  lemma SerialFromInit(events: seq<Event>)
    ensures Run(Init(), events).submitted <= Executed(events)
    ensures |Run(Init(), events).submitted| - Run(Init(), events).finished <= 1
    ensures Run(Init(), events).tasks != [] ==> Run(Init(), events).active.Some?
  {
    var s := Run(Init(), events);
    RunKeepsOrder(Init(), events);
    RunKeepsInv(Init(), events);
    assert Executed(events) == s.submitted + s.tasks;
  }
}
