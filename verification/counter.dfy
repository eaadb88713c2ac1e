/** The `Counter` React component: a `count` state initialised from the
    `initialCount` prop (default 0), changed by the increment, decrement and
    reset handlers, each of which reports the new value to `onCountChange`. */
module CounterComponent {
  import opened Wrappers

  class Counter {
    /** The current `initialCount` prop. */
    var initialCount: int
    /** The `count` state. */
    var count: int

    /** Mounting the component; an absent `initialCount` prop means 0. */
    constructor (initialProp: Option<int>)
      ensures initialCount == (if initialProp.Some? then initialProp.value else 0)
      ensures count == initialCount
    {
      initialCount := if initialProp.Some? then initialProp.value else 0;
      count := if initialProp.Some? then initialProp.value else 0;
    }

    /** Re-rendering with new props: the state keeps its value (the `useState`
        initialiser runs only on mount), only the prop that reset uses changes. */
    method Rerender(initialProp: Option<int>)
      modifies this`initialCount
      ensures initialCount == (if initialProp.Some? then initialProp.value else 0)
    {
      initialCount := if initialProp.Some? then initialProp.value else 0;
    }

    /** `handleIncrement`; `notified` is the value passed to `onCountChange`. */
    method Increment() returns (notified: int)
      modifies this`count
      ensures count == old(count) + 1
      ensures notified == count
    {
      count := count + 1;
      notified := count;
    }

    /** `handleDecrement`: no lower bound, the count may become negative. */
    method Decrement() returns (notified: int)
      modifies this`count
      ensures count == old(count) - 1
      ensures notified == count
    {
      count := count - 1;
      notified := count;
    }

    /** `handleReset`: back to the `initialCount` prop, not to 0. */
    method Reset() returns (notified: int)
      modifies this`count
      ensures count == initialCount
      ensures notified == initialCount
    {
      count := initialCount;
      notified := initialCount;
    }
  }

  /** An increment followed by a decrement leaves the count where it was, and
      reports the intermediate and the final value. */
  method IncrementThenDecrement(c: Counter) returns (first: int, second: int)
    modifies c`count
    ensures c.count == old(c.count)
    ensures first == old(c.count) + 1 && second == old(c.count)
  {
    first := c.Increment();
    second := c.Decrement();
  }

  /** Mounted with `initialCount = 5`, two increments show 7 and reset shows
      5 again. */
  method ResetScenario() returns (afterIncrements: int, afterReset: int)
    ensures afterIncrements == 7 && afterReset == 5
  {
    var c := new Counter(Some(5));
    var _ := c.Increment();
    afterIncrements := c.Increment();
    afterReset := c.Reset();
  }

  /** Mounted with `initialCount = 0`, decrementing goes below zero: -1, then -2. */
  method NegativeScenario() returns (first: int, second: int)
    ensures first == -1 && second == -2
  {
    var c := new Counter(Some(0));
    first := c.Decrement();
    second := c.Decrement();
  }
}
