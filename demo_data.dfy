/**
  The data of the producer/consumer demos: the producer gives "Data-1" ..
  "Data-10" (`"Data-" + i` with Java's decimal rendering of an int), and the two
  demo threads are interleaved by a schedule.
*/
module DemoData {

  /** Which demo thread takes the next step. */
  datatype Thread = Producer | Consumer

  /** How many items each demo thread handles, and the demo queue's capacity. */
  const Items: nat := 10
  const DemoCapacity: nat := 5

  function Digit(d: nat): (c: char)
    requires d < 10
    ensures '0' <= c <= '9'
    ensures c as int - '0' as int == d
  {
    "0123456789"[d]
  }

  /** Decimal rendering of a natural number, as `"" + i` produces it. */
  function NatToString(n: nat): (s: string)
    ensures |s| > 0
    ensures forall k :: 0 <= k < |s| ==> '0' <= s[k] <= '9'
    ensures n >= 10 ==> s[0] != '0'
    decreases n
  {
    if n < 10 then [Digit(n)] else NatToString(n / 10) + [Digit(n % 10)]
  }

  /** The value of a string of decimal digits, most significant first. */
  function DigitsValue(s: string): nat
    requires forall k :: 0 <= k < |s| ==> '0' <= s[k] <= '9'
    decreases |s|
  {
    if s == [] then 0
    else DigitsValue(s[..|s| - 1]) * 10 + (s[|s| - 1] as int - '0' as int)
  }

  /** Reading the rendering back gives the number: the rendering is the decimal one. */
  lemma {:induction false} NatToStringRoundTrip(n: nat)
    ensures DigitsValue(NatToString(n)) == n
    decreases n
  {
    var s := NatToString(n);
    if n >= 10 {
      NatToStringRoundTrip(n / 10);
      assert s[..|s| - 1] == NatToString(n / 10);
      assert s[|s| - 1] == Digit(n % 10);
    } else {
      assert s[..|s| - 1] == [];
    }
  }

  /** The string the producer passes to `give` in its i-th iteration. */
  function Label(i: nat): string {
    "Data-" + NatToString(i)
  }

  /** "Data-1" .. "Data-n", in the order the producer gives them. */
  function DataItems(n: nat): (r: seq<string>)
    ensures |r| == n
    ensures forall i :: 0 <= i < n ==> r[i] == Label(i + 1)
  {
    if n == 0 then [] else DataItems(n - 1) + [Label(n)]
  }

  /** The producer's ten values are exactly the strings Java builds for i = 1 .. 10. */
  lemma DataItemsAreDemoStrings()
    ensures DataItems(Items) == ["Data-1", "Data-2", "Data-3", "Data-4", "Data-5",
                                 "Data-6", "Data-7", "Data-8", "Data-9", "Data-10"]
  {
    assert Label(1) == "Data-1";
    assert Label(2) == "Data-2";
    assert Label(3) == "Data-3";
    assert Label(4) == "Data-4";
    assert Label(5) == "Data-5";
    assert Label(6) == "Data-6";
    assert Label(7) == "Data-7";
    assert Label(8) == "Data-8";
    assert Label(9) == "Data-9";
    assert NatToString(10) == "10";
    assert Label(10) == "Data-10";
  }

  // ---------------------------------------------------------------------
  // Where the two demo threads stand after a schedule, counted without the queue.

  /** How many items the producer has given and the consumer has taken. */
  datatype Counts = Counts(produced: nat, consumed: nat)

  /**
    A producer step advances when the producer is not done and fewer than
    DemoCapacity items are waiting; a consumer step advances when an item is
    waiting. Otherwise the thread is done or blocked and nothing changes.
  */
  function Progress(schedule: seq<Thread>): Counts
    decreases |schedule|
  {
    if schedule == [] then Counts(0, 0)
    else
      var c := Progress(schedule[..|schedule| - 1]);
      match schedule[|schedule| - 1]
      case Producer =>
        if c.produced < Items && c.produced - c.consumed < DemoCapacity
        then c.(produced := c.produced + 1) else c
      case Consumer =>
        if c.consumed < c.produced then c.(consumed := c.consumed + 1) else c
  }

  /** The counts always stay within the demo's bounds. */
  lemma {:induction false} ProgressBounded(schedule: seq<Thread>)
    ensures Progress(schedule).consumed <= Progress(schedule).produced <= Items
    ensures Progress(schedule).produced - Progress(schedule).consumed <= DemoCapacity
    decreases |schedule|
  {
    if schedule != [] {
      ProgressBounded(schedule[..|schedule| - 1]);
    }
  }

  /** How many items are waiting in the demo's queue after `schedule`, by the count. */
  function Buffered(schedule: seq<Thread>): int {
    Progress(schedule).produced - Progress(schedule).consumed
  }

  /** Producer and consumer taking turns, `k` rounds. */
  function Alternating(k: nat): (s: seq<Thread>)
    ensures |s| == 2 * k
  {
    if k == 0 then [] else Alternating(k - 1) + [Producer, Consumer]
  }

  /** Taking turns, both threads finish their loops: all ten items pass through. */
  lemma {:induction false} AlternatingCompletes(k: nat)
    requires k <= Items
    ensures Progress(Alternating(k)) == Counts(k, k)
  {
    if k > 0 {
      AlternatingCompletes(k - 1);
      var s := Alternating(k);
      var prev := Alternating(k - 1);
      assert s[..|s| - 1] == prev + [Producer];
      assert (prev + [Producer])[..|prev|] == prev;
    }
  }
}
