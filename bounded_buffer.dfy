/**
  The bounded FIFO buffer shared by BlockingQueue and BlockingQueueWithCondition,
  as values. A queue is the list of buffered strings plus the capacity it was
  constructed with. `give` and `take` are modelled as the critical section that
  runs once their wait loop has exited; a call whose wait guard still holds
  either keeps waiting or, if the thread is interrupted, leaves with an
  InterruptedException. In both of those cases the buffer is unchanged.
*/
module BoundedBuffer {

  /** The result of one attempt of `give` or `take`. */
  datatype Outcome<T> =
    | Done(value: T)   // the wait loop exited and the critical section ran
    | Waiting          // the wait guard holds: the caller is blocked in wait()
    | Interrupted      // the caller was interrupted while blocked: InterruptedException

  datatype Queue = Queue(buffer: seq<string>, capacity: int)

  /** The new queue and what the caller observes. */
  datatype Step<T> = Step(queue: Queue, outcome: Outcome<T>)

  /** The guard of `give`'s wait loop; note the test is `==`, not `>=`. */
  predicate Full(q: Queue) {
    |q.buffer| == q.capacity
  }

  /** The guard of `take`'s wait loop. */
  predicate IsEmpty(q: Queue) {
    |q.buffer| == 0
  }

  /** The capacity bound. It implies `0 <= capacity`, which nothing checks. */
  predicate Bounded(q: Queue) {
    |q.buffer| <= q.capacity
  }

  /** A freshly constructed queue. */
  function Init(capacity: int): (q: Queue)
    ensures q.buffer == [] && q.capacity == capacity
    ensures Bounded(q) <==> 0 <= capacity
  {
    Queue([], capacity)
  }

  /** One attempt of `give(data)`; `interrupted` says whether a blocked caller is interrupted. */
  function Give(q: Queue, data: string, interrupted: bool): (r: Step<()>)
    ensures r.queue.capacity == q.capacity
    ensures r.outcome.Done? <==> !Full(q)
    ensures r.outcome.Done? ==> r.queue.buffer == q.buffer + [data]
    ensures !r.outcome.Done? ==> r.queue == q && (r.outcome.Interrupted? <==> interrupted)
    ensures Bounded(q) ==> Bounded(r.queue)
  {
    if Full(q) then
      Step(q, if interrupted then Interrupted else Waiting)
    else
      Step(q.(buffer := q.buffer + [data]), Done(()))
  }

  /** One attempt of `take()`. */
  function Take(q: Queue, interrupted: bool): (r: Step<string>)
    ensures r.queue.capacity == q.capacity
    ensures r.outcome.Done? <==> !IsEmpty(q)
    ensures r.outcome.Done? ==> [r.outcome.value] + r.queue.buffer == q.buffer
    ensures !r.outcome.Done? ==> r.queue == q && (r.outcome.Interrupted? <==> interrupted)
    ensures Bounded(q) ==> Bounded(r.queue)
  {
    if IsEmpty(q) then
      Step(q, if interrupted then Interrupted else Waiting)
    else
      Step(q.(buffer := q.buffer[1..]), Done(q.buffer[0]))
  }

  /** `give` then `take` on an empty buffer hands the value straight back. */
  lemma GiveThenTake(capacity: int, data: string, i1: bool, i2: bool)
    requires capacity != 0
    ensures Give(Init(capacity), data, i1).outcome == Done(())
    ensures Take(Give(Init(capacity), data, i1).queue, i2) == Step(Init(capacity), Done(data))
  {
  }

  /** With capacity 0 an empty buffer is already full, so `give` can never proceed. */
  lemma ZeroCapacityNeverGives(data: string, interrupted: bool)
    ensures !Give(Init(0), data, interrupted).outcome.Done?
  {
  }

  /** With a negative capacity the guard `size == capacity` never holds and the buffer grows without bound. */
  lemma NegativeCapacityNeverBlocks(q: Queue, data: string, interrupted: bool)
    requires q.capacity < 0
    ensures Give(q, data, interrupted).outcome.Done?
    ensures !Bounded(Give(q, data, interrupted).queue)
  {
  }

  // ---------------------------------------------------------------------
  // Any sequence of calls by any clients, in the order the monitor admits them.

  datatype Call = GiveCall(data: string, interrupted: bool) | TakeCall(interrupted: bool)

  /** The final queue, the values accepted by `give` and the values returned by `take`. */
  datatype Trace = Trace(queue: Queue, given: seq<string>, taken: seq<string>)

  function Run(q: Queue, calls: seq<Call>): Trace
    decreases |calls|
  {
    if calls == [] then Trace(q, [], [])
    else
      match calls[0]
      case GiveCall(data, interrupted) =>
        var s := Give(q, data, interrupted);
        var rest := Run(s.queue, calls[1..]);
        Trace(rest.queue, (if s.outcome.Done? then [data] else []) + rest.given, rest.taken)
      case TakeCall(interrupted) =>
        var s := Take(q, interrupted);
        var rest := Run(s.queue, calls[1..]);
        Trace(rest.queue, rest.given, (if s.outcome.Done? then [s.outcome.value] else []) + rest.taken)
  }

  /** FIFO: what was taken, followed by what is still buffered, is what was there plus what was given. */
  lemma {:induction false} RunFifo(q: Queue, calls: seq<Call>)
    ensures Run(q, calls).taken + Run(q, calls).queue.buffer == q.buffer + Run(q, calls).given
    decreases |calls|
  {
    if calls != [] {
      match calls[0]
      case GiveCall(data, interrupted) =>
        RunFifo(Give(q, data, interrupted).queue, calls[1..]);
      case TakeCall(interrupted) =>
        var s := Take(q, interrupted);
        var rest := Run(s.queue, calls[1..]);
        var head := if s.outcome.Done? then [s.outcome.value] else [];
        RunFifo(s.queue, calls[1..]);
        assert head + s.queue.buffer == q.buffer;
        calc {
          (head + rest.taken) + rest.queue.buffer;
          head + (rest.taken + rest.queue.buffer);
          head + (s.queue.buffer + rest.given);
          (head + s.queue.buffer) + rest.given;
        }
    }
  }

  /** Starting empty, the values taken are always a prefix of the values given, in order. */
  lemma TakenIsPrefixOfGiven(capacity: int, calls: seq<Call>)
    ensures Run(Init(capacity), calls).taken <= Run(Init(capacity), calls).given
  {
    var t := Run(Init(capacity), calls);
    RunFifo(Init(capacity), calls);
    assert t.given == t.taken + t.queue.buffer;
  }

  /** No call changes the capacity, and the bound is kept after every call. */
  lemma {:induction false} RunBounded(q: Queue, calls: seq<Call>)
    requires Bounded(q)
    ensures Run(q, calls).queue.capacity == q.capacity
    ensures Bounded(Run(q, calls).queue)
    decreases |calls|
  {
    if calls != [] {
      match calls[0]
      case GiveCall(data, interrupted) =>
        RunBounded(Give(q, data, interrupted).queue, calls[1..]);
      case TakeCall(interrupted) =>
        RunBounded(Take(q, interrupted).queue, calls[1..]);
    }
  }

  /** From a queue constructed with `0 <= capacity`, every intermediate state respects the bound. */
  lemma EveryStepBounded(capacity: int, calls: seq<Call>)
    requires 0 <= capacity
    ensures forall k :: 0 <= k <= |calls| ==> Bounded(Run(Init(capacity), calls[..k]).queue)
  {
    forall k | 0 <= k <= |calls|
      ensures Bounded(Run(Init(capacity), calls[..k]).queue)
    {
      RunBounded(Init(capacity), calls[..k]);
    }
  }
}
