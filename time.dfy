/**
  * Tick timing of `src/time.rs`. An interrupt counts ticks into `counter`;
  * each executor pass copies it into `snapshot`, which is all futures see.
  * `TickDelay` is ready once enough ticks have passed since its start, and
  * `TickInterval` makes delays of a fixed length.
  *
  * The counter type is any unsigned integer; `max` is its largest value
  * (`255` for `u8`, `0xFFFF` for `u16`), and a counter at `max` wraps to 0.
  */
module Time {
  import opened Wrappers

  /** `checked_add` on the counter type: `None` when the sum passes `max`. */
  function CheckedAdd(a: nat, b: nat, max: nat): (r: Option<nat>)
    ensures r.Some? <==> a + b <= max
    ensures r.Some? ==> r.value == a + b
  {
    if a + b <= max then Some(a + b) else None
  }

  /**
    * `elapsed(start, now)`, as written: when the counter has wrapped, `(max - start) + now`.
    * It is never `None` (the wrapped sum stays within the counter type), and it
    * agrees with the true tick count `ElapsedTicks` until the counter wraps and
    * is one tick short after a wrap.
    */
  function Elapsed(start: nat, now: nat, max: nat): (r: Option<nat>)
    requires start <= max && now <= max
    ensures r.Some?
    ensures start <= now ==> r.value == ElapsedTicks(start, now, max)
    ensures start > now ==> r.value + 1 == ElapsedTicks(start, now, max)
  {
    if start > now then CheckedAdd(max - start, now, max) else Some(now - start)
  }

  /** The value `k <= max` ticks after `x`, on a counter that wraps from `max` to 0. */
  function Advance(x: nat, k: nat, max: nat): (r: nat)
    requires x <= max && k <= max
    ensures r <= max
  {
    if x + k <= max then x + k else x + k - (max + 1)
  }

  /** The number of ticks from `start` to `now`, counting the step from `max` to 0 as one tick. */
  function ElapsedTicks(start: nat, now: nat, max: nat): (r: nat)
    requires start <= max && now <= max
    ensures r <= max
  {
    if start > now then max + 1 - start + now else now - start
  }

  /** The corrected count inverts `Advance`: `k` ticks after `start` it reads exactly `k`. */
  lemma ElapsedTicksAdvance(start: nat, k: nat, max: nat)
    requires start <= max && k <= max
    ensures ElapsedTicks(start, Advance(start, k, max), max) == k
  {
  }

  /** A `u8` counter that wrapped from 255 to 0 has ticked once, yet `elapsed` reports 0. */
  lemma ElapsedShortAtWrap()
    ensures Advance(255, 1, 255) == 0
    ensures Elapsed(255, 0, 255) == Some(0)
    ensures ElapsedTicks(255, 0, 255) == 1
  {
  }

  /** `TickCounter`: the live tick count and the executor's copy of it. */
  class TickCounter {
    const max: nat
    var counter: nat
    var snapshot: nat

    ghost predicate Valid()
      reads this
    {
      counter <= max && snapshot <= max
    }

    /** `default` and `new`: both counts 0. */
    constructor (max: nat)
      ensures Valid() && this.max == max && counter == 0 && snapshot == 0
    {
      this.max := max;
      counter := 0;
      snapshot := 0;
    }

    /** `inc`: one tick, wrapping at `max`; the snapshot is untouched. */
    method Inc()
      requires Valid()
      modifies this
      ensures Valid()
      ensures counter == (if old(counter) == max then 0 else old(counter) + 1) && snapshot == old(snapshot)
    {
      counter := if counter == max then 0 else counter + 1;
    }

    /** `get`: the snapshot, not the live counter. */
    function Get(): (t: nat)
      reads this
      ensures t == snapshot
    {
      snapshot
    }

    /** `get_real`: the live counter. */
    function GetReal(): (t: nat)
      reads this
      ensures t == counter
    {
      counter
    }

    /** `State::snapshot`: the counter is copied into the snapshot. */
    method Snapshot()
      requires Valid()
      modifies this
      ensures Valid() && snapshot == old(counter) && counter == old(counter)
    {
      snapshot := counter;
    }

    /** `delay`: a `TickDelay` over this counter. */
    method Delay(delay: nat) returns (d: TickDelay)
      requires Valid() && delay <= max
      ensures fresh(d) && d.Valid() && d.counter == this && d.start == snapshot && d.delay == delay
    {
      d := new TickDelay(this, delay);
    }

    /** `interval`: a `TickInterval` over this counter. */
    method Interval(interval: nat) returns (i: TickInterval)
      requires Valid() && interval <= max
      ensures fresh(i) && i.counter == this && i.interval == interval
    {
      i := new TickInterval(this, interval);
    }
  }

  /**
    * What futures see of the time: a tick moves `get_real` on at once, while
    * `get` keeps the old snapshot until the executor's next snapshot catches
    * it up.
    */
  method GetLagsUntilSnapshot(c: TickCounter) returns (seen: nat, live: nat, seenAfter: nat)
    requires c.Valid()
    modifies c
    ensures seen == old(c.Get())
    ensures live == (if old(c.GetReal()) == c.max then 0 else old(c.GetReal()) + 1)
    ensures seenAfter == live && c.Get() == c.GetReal()
  {
    c.Inc();
    seen := c.Get();
    live := c.GetReal();
    c.Snapshot();
    seenAfter := c.Get();
  }

  /** `k` ticks move the live counter `k` steps on, wrapping at `max`. */
  method Ticks(c: TickCounter, k: nat)
    requires c.Valid() && k <= c.max
    modifies c
    ensures c.Valid() && c.counter == Advance(old(c.counter), k, c.max) && c.snapshot == old(c.snapshot)
  {
    var i := 0;
    while i < k
      invariant i <= k && c.Valid()
      invariant c.counter == Advance(old(c.counter), i, c.max) && c.snapshot == old(c.snapshot)
    {
      c.Inc();
      i := i + 1;
    }
  }

  /** `TickDelay`: the snapshot when it was made, its counter and the ticks to wait. */
  class TickDelay {
    const start: nat
    const counter: TickCounter
    const delay: nat

    ghost predicate Valid()
      reads this, counter
    {
      counter.Valid() && start <= counter.max && delay <= counter.max
    }

    /** `TickDelay::new`: starts at the counter's current snapshot. */
    constructor (tick: TickCounter, delay: nat)
      requires tick.Valid() && delay <= tick.max
      ensures Valid() && start == tick.snapshot && counter == tick && this.delay == delay
    {
      start := tick.Get();
      counter := tick;
      this.delay := delay;
    }

    /**
      * `poll`: ready once `elapsed` from the start to the current snapshot
      * reaches the delay. Before the counter wraps that is exactly when
      * `delay` ticks have passed; across a wrap it is one tick late.
      */
    method Poll() returns (r: Poll<()>)
      requires Valid()
      ensures r == Ready(()) || r == Pending
      ensures start <= counter.snapshot ==> (r.Ready? <==> ElapsedTicks(start, counter.snapshot, counter.max) >= delay)
      ensures start > counter.snapshot ==> (r.Ready? <==> ElapsedTicks(start, counter.snapshot, counter.max) > delay)
    {
      var e := Elapsed(start, counter.Get(), counter.max);
      var ready := match e case Some(x) => x >= delay case None => true;
      r := if ready then Ready(()) else Pending;
    }
  }

  /** `TickInterval`: its counter and the length of each delay. */
  class TickInterval {
    const counter: TickCounter
    const interval: nat

    /** `TickInterval::new`. */
    constructor (tick: TickCounter, interval: nat)
      ensures counter == tick && this.interval == interval
    {
      counter := tick;
      this.interval := interval;
    }

    /** `next`: a fresh delay of `interval` ticks from the counter's current snapshot. */
    method Next() returns (d: TickDelay)
      requires counter.Valid() && interval <= counter.max
      ensures fresh(d) && d.Valid() && d.counter == counter && d.start == counter.snapshot && d.delay == interval
    {
      d := new TickDelay(counter, interval);
    }
  }

  /**
    * A one-tick delay made at snapshot 255 of a `u8` counter: after one tick
    * and a snapshot the counter reads 0 and the delay is still pending, one
    * tick late; after a second tick it is ready.
    */
  method WrapLate() returns (afterOne: Poll<()>, afterTwo: Poll<()>)
    ensures afterOne == Pending && afterTwo == Ready(())
  {
    var c := new TickCounter(255);
    Ticks(c, 255);
    c.Snapshot();
    var d := c.Delay(1);
    c.Inc();
    c.Snapshot();
    afterOne := d.Poll();
    c.Inc();
    c.Snapshot();
    afterTwo := d.Poll();
  }
}
