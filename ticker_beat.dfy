/**
  * The beat counter shared by the application tickers: a timer interrupt
  * every quarter second calls `tick`, which toggles a half-beat flag and, on
  * every second call, advances the beat number modulo 4 and marks it as
  * changed. The executor's `snapshot` publishes a changed beat to every
  * listener slot (and clears the mark) or empties every slot; a listener's
  * `NextTick` takes the value out of its slot.
  */
module TickerBeat {
  import opened Wrappers

  /** The counters of a ticker, without its slots. */
  datatype Beat = Beat(half: bool, changed: bool, current: nat)

  /** The counters of a new ticker. */
  const Initial := Beat(false, false, 0)

  /**
    * `tick`: the first half of a beat only sets `half`; the second clears it,
    * marks the beat as changed and advances it modulo 4. The beat number
    * stays below 4, so the byte it is stored in never overflows.
    */
  function Tick(b: Beat): (r: Beat)
    ensures r.half == !b.half
    ensures r.changed <==> b.changed || b.half
    ensures b.current < 4 ==> r.current < 4
  {
    if b.half then Beat(false, true, (b.current + 1) % 4) else Beat(true, b.changed, b.current)
  }

  /** `k` ticks in a row. */
  function Ticks(b: Beat, k: nat): Beat
  {
    if k == 0 then b else Tick(Ticks(b, k - 1))
  }

  /** What `snapshot` writes to every slot: the beat if it changed, nothing otherwise. */
  function Published(b: Beat): Option<nat>
  {
    if b.changed then Some(b.current) else None
  }

  /** The counters after `snapshot`: the change mark is consumed. */
  function Snapped(b: Beat): (r: Beat)
    ensures r.half == b.half && r.current == b.current && !r.changed
  {
    Beat(b.half, false, b.current)
  }

  /** `Option::take` on a listener's slot: its value, if any, as a ready poll; the slot is left empty. */
  function Take(slot: Option<nat>): (r: (Poll<nat>, Option<nat>))
    ensures r.1 == None
    ensures r.0.Ready? <==> slot.Some?
    ensures slot.Some? ==> r.0.value == slot.value
  {
    match slot
    case Some(v) => (Ready(v), None)
    case None => (Pending, None)
  }

  /** A slot gives its value once: the next take is pending. */
  lemma TakeOnce(slot: Option<nat>)
    ensures Take(Take(slot).1).0 == Pending
  {
  }

  /**
    * Starting at the beginning of a beat, every two ticks advance the beat
    * number by one, modulo 4; the change mark is set once a beat has passed.
    */
  lemma {:induction false} BeatAdvancesEveryOtherTick(b: Beat, k: nat)
    requires !b.half && b.current < 4
    ensures Ticks(b, 2 * k) == Beat(false, b.changed || k > 0, (b.current + k) % 4)
  {
    if k > 0 {
      BeatAdvancesEveryOtherTick(b, k - 1);
      assert Ticks(b, 2 * k) == Tick(Tick(Ticks(b, 2 * (k - 1))));
    }
  }

  /** The beat number runs through its four values and comes back every eight ticks. */
  lemma BeatPeriod(b: Beat, k: nat)
    requires !b.half && b.current < 4
    ensures Ticks(b, 8 * k) == Beat(false, b.changed || k > 0, b.current)
  {
    BeatAdvancesEveryOtherTick(b, 4 * k);
    assert 2 * (4 * k) == 8 * k;
  }

  /** Only the second tick of a beat asks for the executor, and a snapshot in between publishes nothing. */
  lemma WakesOnSecondTick(b: Beat)
    requires !b.half && !b.changed
    ensures !Tick(b).changed && Published(Snapped(Tick(b))) == None
    ensures Tick(Tick(b)).changed && Published(Tick(Tick(b))) == Some((b.current + 1) % 4)
  {
  }

  /** A change is published by one snapshot only: the next one, without a tick between, publishes nothing. */
  lemma PublishedOnce(b: Beat)
    ensures Published(Snapped(b)) == None
    ensures b.changed ==> Published(b) == Some(b.current)
  {
  }
}
