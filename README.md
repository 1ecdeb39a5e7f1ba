# Bounded blocking queue and serial executor, modelled in Dafny

This project models the sequential state logic inside a Java concurrency
tutorial:

- **The bounded FIFO buffer** of `BlockingQueue` (a `synchronized` monitor with
  `wait()`/`notifyAll()`) and of `BlockingQueueWithCondition` (a `ReentrantLock`
  with the conditions `notFull` and `notEmpty`). Both hold a `LinkedList<String>`
  and a `final int capacity`. `give` waits while `size() == capacity`, then
  appends at the tail. `take` waits while the buffer is empty, then removes and
  returns the head.
- **`SerialExecutor`** (in `ExecutorDemo`). It holds a FIFO `tasks` deque and a
  nullable `active`, and it sits on top of an injected `Executor`. `execute`
  wraps and enqueues a task, and calls `scheduleNext` if `active` is null.
  `scheduleNext` polls the head into `active` and submits it. Each wrapper calls
  `scheduleNext` in a `finally`.

Modules:

- `BoundedBuffer` (`bounded_buffer.dfy`) holds the buffer as a value. `Give` and
  `Take` each describe one attempt of a call. The guard of the wait loop decides
  the attempt's outcome:
  - `Waiting`: the caller stays blocked.
  - `Interrupted`: `wait()` or `Condition.await()` threw `InterruptedException`.
  - `Done`: the critical section after the loop ran.

  `Run` replays any sequence of calls, and the FIFO and bound lemmas are proved
  about `Run`.
- `MonitorQueue.BlockingQueue` and `ConditionQueue.BlockingQueueWithCondition`
  are classes with the same fields. Each method is tied to the value-level step
  function. `ProducerConsumer` is each file's `main` demo, run under an
  arbitrary interleaving of the two threads.
- `DemoData` holds the demo's strings `"Data-1"` .. `"Data-10"`.
- `SerialScheduling` holds the executor state as a value. The underlying
  executor is modelled as the log `submitted` of the wrappers handed to it.
  `finished` counts the submitted wrappers whose wrapped task has returned or thrown; that end and the `finally`'s `scheduleNext` are one event. `Run` replays
  any sequence of `execute` calls and task completions.
- `Executors.SerialExecutor` is the class. `FinishActive` is the
  `TaskWrapper.run` of the outstanding wrapper. `ExecuteDirect` is `execute`
  over `DirectExecutor`, which finishes the wrapper inside the call.

About the capacity: neither constructor checks `capacity`, and the full test is
`==`, not `>=`. So the bound `|buffer| <= capacity` holds only for a queue built
with `0 <= capacity`. The bound itself implies `0 <= capacity`. The
constructors establish it exactly when `capacity >= 0`, and every operation
preserves it.
- With capacity 0, `give` can never proceed (`ZeroCapacityNeverGives`).
- With a negative capacity, `give` never blocks and the buffer is unbounded
  (`NegativeCapacityNeverBlocks`).
- "`give` then `take` on an empty buffer returns the value" therefore needs
  `capacity != 0`, not `capacity > 0`.

## Model

| member | source | states |
|---|---|---|
| BoundedBuffer.Init | Bhuang-Concurrent-Programming-Thread/src/main/kotlin/com/bhuang/BlockingQueue.java:7-12 | a new queue is empty with the given capacity; it satisfies the bound exactly when `0 <= capacity` |
| BoundedBuffer.Give | Bhuang-Concurrent-Programming-Thread/src/main/kotlin/com/bhuang/BlockingQueue.java:14-20 | `give` proceeds iff the buffer is not full (`size != capacity`), and then appends `data` at the tail; otherwise the buffer is unchanged and the caller waits, or leaves with InterruptedException iff interrupted, without inserting; capacity unchanged; the bound is preserved |
| BoundedBuffer.Take | Bhuang-Concurrent-Programming-Thread/src/main/kotlin/com/bhuang/BlockingQueue.java:25-32 | `take` proceeds iff the buffer is non-empty, returns the head, leaves the old tail; otherwise the buffer is unchanged (waits or is interrupted); capacity unchanged; the bound is preserved |
| BoundedBuffer.GiveThenTake | Bhuang-Concurrent-Programming-Thread/src/main/kotlin/com/bhuang/BlockingQueueWithCondition.java:27-44 | on an empty buffer with `capacity != 0`, `give` proceeds and a following `take` returns the same value and leaves the buffer empty |
| BoundedBuffer.ZeroCapacityNeverGives | Bhuang-Concurrent-Programming-Thread/src/main/kotlin/com/bhuang/BlockingQueue.java:10-15 | with capacity 0, `give` never proceeds |
| BoundedBuffer.NegativeCapacityNeverBlocks | Bhuang-Concurrent-Programming-Thread/src/main/kotlin/com/bhuang/BlockingQueue.java:10-15 | with a negative capacity, `give` always proceeds and the bound no longer holds |
| BoundedBuffer.RunFifo | Bhuang-Concurrent-Programming-Thread/src/main/kotlin/com/bhuang/BlockingQueue.java:7-29 | over any call sequence, the values taken followed by what remains buffered equal the initial buffer followed by the values given |
| BoundedBuffer.TakenIsPrefixOfGiven | Bhuang-Concurrent-Programming-Thread/src/main/kotlin/com/bhuang/BlockingQueueWithCondition.java:11-44 | starting from a new queue, the values taken are a prefix of the values given, in order |
| BoundedBuffer.RunBounded | Bhuang-Concurrent-Programming-Thread/src/main/kotlin/com/bhuang/BlockingQueue.java:8-29 | no call changes `capacity`, and if the bound holds it holds after any call sequence |
| BoundedBuffer.EveryStepBounded | Bhuang-Concurrent-Programming-Thread/src/main/kotlin/com/bhuang/BlockingQueueWithCondition.java:17-44 | from a queue constructed with `capacity >= 0`, every intermediate state of any call sequence respects `|buffer| <= capacity` |
| MonitorQueue.BlockingQueue.constructor | Bhuang-Concurrent-Programming-Thread/src/main/kotlin/com/bhuang/BlockingQueue.java:10-12 | empty buffer, capacity stored unchecked; valid iff `0 <= capacity` |
| MonitorQueue.BlockingQueue.Give | Bhuang-Concurrent-Programming-Thread/src/main/kotlin/com/bhuang/BlockingQueue.java:14-23 | the new buffer and outcome are those of `BoundedBuffer.Give`; the bound is preserved |
| MonitorQueue.BlockingQueue.Take | Bhuang-Concurrent-Programming-Thread/src/main/kotlin/com/bhuang/BlockingQueue.java:25-33 | the new buffer and returned value are those of `BoundedBuffer.Take`; the bound is preserved |
| MonitorQueue.ProducerConsumer | Bhuang-Concurrent-Programming-Thread/src/main/kotlin/com/bhuang/BlockingQueue.java:43-89 | under any interleaving of the demo's producer and consumer on a capacity-5 queue, the buffer's size after step k is the count `Buffered` of the first k+1 schedule steps, and at most 5; consumed is a prefix of produced, which is a prefix of "Data-1".."Data-10"; the final queue holds exactly the produced-but-unconsumed items; how far both threads got equals the queue-free count `Progress(schedule)`; consumed is exactly "Data-1".."Data-10" once ten were consumed; and no deadlock: unless the consumer is done, `take` on the final queue proceeds or the producer's next `give` does |
| MonitorQueue.TakingTurns | Bhuang-Concurrent-Programming-Thread/src/main/kotlin/com/bhuang/BlockingQueue.java:43-89 | when producer and consumer take turns, the demo consumes exactly "Data-1".."Data-10", in order |
| ConditionQueue.BlockingQueueWithCondition.constructor | Bhuang-Concurrent-Programming-Thread/src/main/kotlin/com/bhuang/BlockingQueueWithCondition.java:17-19 | empty buffer, capacity stored unchecked; valid iff `0 <= capacity` |
| ConditionQueue.BlockingQueueWithCondition.Give | Bhuang-Concurrent-Programming-Thread/src/main/kotlin/com/bhuang/BlockingQueueWithCondition.java:22-36 | the new buffer and outcome are those of `BoundedBuffer.Give`; the bound is preserved |
| ConditionQueue.BlockingQueueWithCondition.Take | Bhuang-Concurrent-Programming-Thread/src/main/kotlin/com/bhuang/BlockingQueueWithCondition.java:38-51 | the new buffer and returned value are those of `BoundedBuffer.Take`; the bound is preserved |
| ConditionQueue.ProducerConsumer | Bhuang-Concurrent-Programming-Thread/src/main/kotlin/com/bhuang/BlockingQueueWithCondition.java:61-104 | as for the monitor version: the size after each step equals `Buffered` of that prefix of the schedule, and is at most 5; consumed a prefix of produced and of "Data-1".."Data-10"; the final queue is the unconsumed rest; the thread counts equal `Progress(schedule)`; all ten in order once ten were consumed; and no deadlock on the final queue |
| ConditionQueue.TakingTurns | Bhuang-Concurrent-Programming-Thread/src/main/kotlin/com/bhuang/BlockingQueueWithCondition.java:61-104 | when producer and consumer take turns, the demo consumes exactly "Data-1".."Data-10", in order |
| DemoData.NatToString | Bhuang-Concurrent-Programming-Thread/src/main/kotlin/com/bhuang/BlockingQueue.java:46 | the decimal rendering of `i` in `"Data-" + i` is a non-empty string of digits with no leading zero |
| DemoData.NatToStringRoundTrip | Bhuang-Concurrent-Programming-Thread/src/main/kotlin/com/bhuang/BlockingQueue.java:46 | reading the rendering back as decimal digits gives `i` again |
| DemoData.ProgressBounded | Bhuang-Concurrent-Programming-Thread/src/main/kotlin/com/bhuang/BlockingQueue.java:14-90 | in the queue-free count of the demo, consumed <= produced <= 10 and at most 5 items are waiting |
| DemoData.AlternatingCompletes | Bhuang-Concurrent-Programming-Thread/src/main/kotlin/com/bhuang/BlockingQueue.java:43-90 | when the two threads take turns for k <= 10 rounds, both have handled k items |
| DemoData.DataItems | Bhuang-Concurrent-Programming-Thread/src/main/kotlin/com/bhuang/BlockingQueue.java:45-46 | the producer's values: element `i` is `Label(i+1)`, that is `"Data-" + (i+1)`, `n` of them |
| DemoData.DataItemsAreDemoStrings | Bhuang-Concurrent-Programming-Thread/src/main/kotlin/com/bhuang/BlockingQueue.java:45-46 | the ten values are exactly "Data-1", "Data-2", ..., "Data-10" |
| SerialScheduling.ScheduleNext | Bhuang-Concurrent-Programming-Thread/src/main/kotlin/com/bhuang/threadTest/ExecutorDemo.java:79-84 | on an empty queue, `active` becomes null and nothing is submitted; otherwise the polled head becomes `active` and exactly it is submitted; submitted-then-pending order is unchanged |
| SerialScheduling.Execute | Bhuang-Concurrent-Programming-Thread/src/main/kotlin/com/bhuang/threadTest/ExecutorDemo.java:69-77 | the wrapper of `r` is appended after everything submitted or pending; when idle, the queue head becomes `active` and exactly it is submitted; otherwise `active` and the submission log are unchanged; serial execution is preserved |
| SerialScheduling.Complete | Bhuang-Concurrent-Programming-Thread/src/main/kotlin/com/bhuang/threadTest/ExecutorDemo.java:59-66 | the outstanding wrapper's completion, normal or exceptional, triggers exactly one `scheduleNext`; with none outstanding nothing changes; order and serial execution are preserved |
| SerialScheduling.CompletionIgnoresOutcome | Bhuang-Concurrent-Programming-Thread/src/main/kotlin/com/bhuang/threadTest/ExecutorDemo.java:60-65 | whether the task threw does not change the resulting scheduling state |
| SerialScheduling.DirectExecution | Bhuang-Concurrent-Programming-Thread/src/main/kotlin/com/bhuang/threadTest/ExecutorDemo.java:19-25 | over DirectExecutor, `execute` on an idle executor submits and finishes exactly the new wrapper and returns with `tasks` empty and `active` null |
| SerialScheduling.Executed | Bhuang-Concurrent-Programming-Thread/src/main/kotlin/com/bhuang/threadTest/ExecutorDemo.java:72 | the wrappers `execute` created: every `execute` call's wrapper is among them, every one of them comes from an `execute` call, and there are no more of them than events |
| SerialScheduling.ExecutedSingle | Bhuang-Concurrent-Programming-Thread/src/main/kotlin/com/bhuang/threadTest/ExecutorDemo.java:72 | one `execute` call creates exactly its own wrapper; a completion creates none |
| SerialScheduling.ExecutedAppend | Bhuang-Concurrent-Programming-Thread/src/main/kotlin/com/bhuang/threadTest/ExecutorDemo.java:72 | the wrappers of two consecutive event sequences are those of the first followed by those of the second, so wrappers are created in call order |
| SerialScheduling.RunKeepsInv | Bhuang-Concurrent-Programming-Thread/src/main/kotlin/com/bhuang/threadTest/ExecutorDemo.java:59-84 | any sequence of `execute` calls and completions keeps at most one outstanding wrapper (the last submitted, equal to `active`) and pending tasks imply a non-null `active` |
| SerialScheduling.RunKeepsOrder | Bhuang-Concurrent-Programming-Thread/src/main/kotlin/com/bhuang/threadTest/ExecutorDemo.java:72-82 | after any event sequence, the submission log followed by the pending tasks is the earlier log and queue followed by the newly created wrappers, in `execute` order |
| SerialScheduling.SerialFromInit | Bhuang-Concurrent-Programming-Thread/src/main/kotlin/com/bhuang/threadTest/ExecutorDemo.java:35-84 | from construction: the executor receives the wrappers in `execute` order, at most one is outstanding, and a non-empty queue implies non-null `active` |
| Executors.SerialExecutor.constructor | Bhuang-Concurrent-Programming-Thread/src/main/kotlin/com/bhuang/threadTest/ExecutorDemo.java:35-46 | no pending task, `active` null, nothing submitted |
| Executors.SerialExecutor.Execute | Bhuang-Concurrent-Programming-Thread/src/main/kotlin/com/bhuang/threadTest/ExecutorDemo.java:69-77 | the new state is `SerialScheduling.Execute` of the old one; serial execution and submission order are kept |
| Executors.SerialExecutor.ScheduleNext | Bhuang-Concurrent-Programming-Thread/src/main/kotlin/com/bhuang/threadTest/ExecutorDemo.java:79-84 | the new state is `SerialScheduling.ScheduleNext` of the old one |
| Executors.SerialExecutor.FinishActive | Bhuang-Concurrent-Programming-Thread/src/main/kotlin/com/bhuang/threadTest/ExecutorDemo.java:59-66 | the active wrapper finishes, normally or by throwing, and `scheduleNext` runs once: the new state is `SerialScheduling.Complete` of the old one; serial execution is kept |
| Executors.ExecuteDirect | Bhuang-Concurrent-Programming-Thread/src/main/kotlin/com/bhuang/threadTest/ExecutorDemo.java:19-24 | `execute` over DirectExecutor on an idle SerialExecutor returns with `tasks` empty and `active` null, having submitted and finished exactly the new wrapper |

## Left out

- Monitor mechanics are not modelled: `synchronized`, `wait`/`notifyAll`, `ReentrantLock`, `Condition.await`/`signalAll`, wakeup order and spurious wakeups. Each method is one atomic critical section. A blocked call is an attempt with outcome `Waiting`.
- Interrupts are modelled only through the `interrupted` flag of a blocked `give`/`take`. In Java, `wait()` (or `Condition.await()` in `BlockingQueueWithCondition`) is the only point that observes an interrupt, so a call that does not block ignores the flag.
- The `System.out.println` logging, the `Thread.sleep` delays of the demo threads, and thread start/join are left out. The schedule parameter of `ProducerConsumer` stands in for timing.
- MonitorQueue.ProducerConsumer and ConditionQueue.ProducerConsumer: they prove safety (the recorded size after every step equals the count `Buffered` of that schedule prefix and is at most 5; FIFO prefix) and absence of deadlock on the final queue for every schedule, and tie the threads' progress to the queue-free count `Progress`. Only the turn-taking schedule (`TakingTurns`) is proved to run to the end. Which schedule the JVM produces, and so liveness in general, depends on the thread scheduler and on the `sleep` timings, which are not modelled.
- `ThreadPerTaskExecutor` and the `main` of `ExecutorDemo` are left out. The underlying executor stays abstract as a submission log, and a completion is a separate event.
- Executors.ExecuteDirect: it assumes `execute` is not called re-entrantly from inside a running task. With DirectExecutor, an exception thrown by the task also propagates to the caller of `execute` after `scheduleNext` has run. The model records only that scheduling is unaffected; it does not model the exception.
- BoundedBuffer.Give: the data is a Dafny `string`, which cannot be null. Java's `give(null)` is accepted, because `LinkedList` permits null elements, and a later `take` returns null; the model has no null item.
- `Runnable` identity is a `Task` number. A `TaskWrapper` is a value, so the distinct wrapper objects that two `execute` calls create for the same Runnable are equal values here. The order lemmas depend on position, not identity, so they are unaffected. A `TaskWrapper`'s back-reference to its SerialExecutor is implicit, because each model holds one executor.
- `CountDownLatchDemo`, `SemaphoreDemo`, `CyclicBarrierDemo`, the future and callable demos, `ThreadLocalDemo`, `Main`, `InterruptedDemo`, `LockSupportDemo` and `WaitNotifyExample` are left out. They only call JDK primitives and hold no state logic of their own.
