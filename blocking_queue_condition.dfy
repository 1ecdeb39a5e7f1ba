/**
  BlockingQueueWithCondition: the same bounded buffer guarded by a
  ReentrantLock and its two conditions, `notFull` (awaited by `give`) and
  `notEmpty` (awaited by `take`). Each method is the code between `lock()` and
  the `unlock()` in its `finally`: the wait loop's guard decides between
  awaiting the condition and running the critical section.
*/
module ConditionQueue {
  import opened BoundedBuffer
  import opened DemoData

  class BlockingQueueWithCondition {
    var buffer: seq<string>
    const capacity: int

    /** The queue as a value, for the lemmas of BoundedBuffer. */
    function State(): Queue
      reads this
    {
      Queue(buffer, capacity)
    }

    ghost predicate Valid()
      reads this
    {
      Bounded(State())
    }

    /** The constructor stores `capacity` unchecked; the bound holds only from `0 <= capacity` on. */
    constructor (capacity: int)
      ensures State() == Init(capacity)
      ensures Valid() <==> 0 <= capacity
    {
      this.capacity := capacity;
      buffer := [];
    }

    /** `give(data)`: awaits `notFull` while `size == capacity`, then appends `data` at the tail. */
    method Give(data: string, interrupted: bool) returns (outcome: Outcome<()>)
      modifies this
      ensures Step(State(), outcome) == BoundedBuffer.Give(old(State()), data, interrupted)
      ensures old(Valid()) ==> Valid()
    {
      if |buffer| == capacity {
        outcome := if interrupted then Interrupted else Waiting;
        return;
      }
      buffer := buffer + [data];
      outcome := Done(());
    }

    /** `take()`: awaits `notEmpty` while the buffer is empty, then removes and returns the head. */
    method Take(interrupted: bool) returns (outcome: Outcome<string>)
      modifies this
      ensures Step(State(), outcome) == BoundedBuffer.Take(old(State()), interrupted)
      ensures old(Valid()) ==> Valid()
    {
      if |buffer| == 0 {
        outcome := if interrupted then Interrupted else Waiting;
        return;
      }
      var data := buffer[0];
      buffer := buffer[1..];
      outcome := Done(data);
    }
  }

  /**
    The demo in `main`: a queue of capacity 5, a producer giving "Data-1" ..
    "Data-10" and a consumer taking ten times (sleeping after each take, which
    only moves its steps later), interleaved as `schedule` says.
    A step of a thread that is blocked leaves everything unchanged (it waits on);
    a step of a thread that has finished its loop does nothing. `sizes` is the
    buffer's size after every step (the count `Buffered` of the schedule so far,
    at most 5), `produced` what the producer has given and
    `final` the queue at the end. How far the threads got is `Progress`, which
    counts without the queue. No deadlock: at the end of every schedule (so
    after every prefix of one), unless the consumer is done, a `take` on the
    final queue proceeds or the producer's next `give` does.
  */
  method ProducerConsumer(schedule: seq<Thread>)
    returns (produced: seq<string>, consumed: seq<string>, sizes: seq<nat>, final: Queue)
    ensures |sizes| == |schedule|
    ensures forall k :: 0 <= k < |sizes| ==> sizes[k] == Buffered(schedule[..k + 1])
    ensures forall k :: 0 <= k < |sizes| ==> sizes[k] <= DemoCapacity
    ensures consumed <= produced <= DataItems(Items)
    ensures final == Queue(produced[|consumed|..], DemoCapacity)
    ensures Counts(|produced|, |consumed|) == Progress(schedule)
    ensures |consumed| == Items ==> consumed == DataItems(Items)
    ensures |consumed| < Items ==>
              || BoundedBuffer.Take(final, false).outcome.Done?
              || (|produced| < Items && BoundedBuffer.Give(final, Label(|produced| + 1), false).outcome.Done?)
  {
    var queue := new BlockingQueueWithCondition(DemoCapacity);
    produced, consumed, sizes := [], [], [];
    var k := 0;
    while k < |schedule|
      invariant 0 <= k <= |schedule| && |sizes| == k
      invariant queue.capacity == DemoCapacity && queue.Valid()
      invariant |produced| <= Items && produced == DataItems(Items)[..|produced|]
      invariant |consumed| <= |produced| && consumed == produced[..|consumed|]
      invariant queue.buffer == produced[|consumed|..]
      invariant forall j :: 0 <= j < k ==> sizes[j] == Buffered(schedule[..j + 1])
      invariant forall j :: 0 <= j < k ==> sizes[j] <= DemoCapacity
      invariant Counts(|produced|, |consumed|) == Progress(schedule[..k])
    {
      assert schedule[..k + 1][..k] == schedule[..k];
      match schedule[k] {
        case Producer =>
          if |produced| < Items {
            var data := Label(|produced| + 1);
            var outcome := queue.Give(data, false);
            if outcome.Done? {
              produced := produced + [data];
            }
          }
        case Consumer =>
          if |consumed| < Items {
            var outcome := queue.Take(false);
            if outcome.Done? {
              consumed := consumed + [outcome.value];
            }
          }
      }
      assert Counts(|produced|, |consumed|) == Progress(schedule[..k + 1]);
      assert |queue.buffer| == Buffered(schedule[..k + 1]);
      sizes := sizes + [|queue.buffer|];
      k := k + 1;
    }
    assert schedule[..k] == schedule;
    final := queue.State();
  }

  /** When the two threads take turns, the demo runs to the end and consumes "Data-1" .. "Data-10" in order. */
  method TakingTurns() returns (consumed: seq<string>)
    ensures consumed == DataItems(Items)
  {
    AlternatingCompletes(Items);
    var produced, sizes, final;
    produced, consumed, sizes, final := ProducerConsumer(Alternating(Items));
  }
}
