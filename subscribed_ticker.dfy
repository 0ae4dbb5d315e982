/**
  * The ticker of `bpm120/src/main.rs`: the beat counter of the example
  * ticker, with listener slots pushed one by one onto a bounded vector of
  * capacity `N` as listeners subscribe.
  */
module SubscribedTicker {
  import opened Wrappers
  import opened TickerBeat

  /** `TickerListener`: a handle on the slot with this index in the ticker's vector. */
  datatype Listener = Listener(index: nat)

  class Ticker {
    var half: bool
    var changed: bool
    var current: nat
    /** `N`, the capacity of the slot vector. */
    const capacity: nat
    /** The slots pushed so far, one per subscribed listener. */
    var snapshots: seq<Option<nat>>

    function Counters(): Beat
      reads this
    {
      Beat(half, changed, current)
    }

    /** `new`: the initial counters and no slot. */
    constructor (capacity: nat)
      ensures Counters() == Initial && this.capacity == capacity && snapshots == []
    {
      half := false;
      changed := false;
      current := 0;
      this.capacity := capacity;
      snapshots := [];
    }

    /**
      * `subscribe`: while the vector has room, pushes an empty slot and
      * returns a listener on it; once `N` listeners exist it returns `None`
      * and changes nothing.
      */
    method Subscribe() returns (l: Option<Listener>)
      modifies this
      ensures Counters() == old(Counters())
      ensures |old(snapshots)| < capacity ==> snapshots == old(snapshots) + [None] && l == Some(Listener(|old(snapshots)|))
      ensures |old(snapshots)| >= capacity ==> snapshots == old(snapshots) && l == None
    {
      if |snapshots| < capacity {
        snapshots := snapshots + [None];
        l := Some(Listener(|snapshots| - 1));
      } else {
        l := None;
      }
    }

    /** `tick`: one timer period; the result says whether a changed beat awaits a snapshot. */
    method Tick() returns (r: bool)
      modifies this
      ensures Counters() == TickerBeat.Tick(old(Counters())) && snapshots == old(snapshots)
      ensures r == changed
    {
      if half {
        half := false;
        changed := true;
        current := (current + 1) % 4;
      } else {
        half := true;
      }
      r := changed;
    }

    /** `State::snapshot`: every subscribed slot gets the changed beat, or nothing; the change mark is consumed. */
    method Snapshot()
      modifies this
      ensures Counters() == Snapped(old(Counters()))
      ensures |snapshots| == |old(snapshots)|
      ensures forall i :: 0 <= i < |snapshots| ==> snapshots[i] == Published(old(Counters()))
    {
      var beat := Published(Counters());
      snapshots := seq(|snapshots|, _ => beat);
      if changed {
        changed := false;
      }
    }
  }

  /** `NextTick::poll`: takes the listener's slot. */
  method PollNext(t: Ticker, l: Listener) returns (r: Poll<nat>)
    requires l.index < |t.snapshots|
    modifies t
    ensures t.snapshots == old(t.snapshots)[l.index := None] && t.Counters() == old(t.Counters())
    ensures (r, t.snapshots[l.index]) == Take(old(t.snapshots[l.index]))
  {
    r := if t.snapshots[l.index].Some? then Ready(t.snapshots[l.index].value) else Pending;
    t.snapshots := t.snapshots[l.index := None];
  }

  /**
    * Subscribing `N + 1` times to a new ticker: the first `N` calls return
    * listeners on slots `0` to `N - 1`, each on a slot of its own, and the
    * last call returns `None`.
    */
  method SubscribeAll(capacity: nat) returns (t: Ticker, listeners: seq<Option<Listener>>)
    ensures fresh(t) && |t.snapshots| == capacity && |listeners| == capacity + 1
    ensures forall i :: 0 <= i < capacity ==> listeners[i] == Some(Listener(i))
    ensures listeners[capacity] == None
  {
    t := new Ticker(capacity);
    listeners := [];
    while |listeners| <= capacity
      invariant |listeners| <= capacity + 1 && t.capacity == capacity
      invariant |t.snapshots| == if |listeners| <= capacity then |listeners| else capacity
      invariant forall i :: 0 <= i < |listeners| && i < capacity ==> listeners[i] == Some(Listener(i))
      invariant |listeners| == capacity + 1 ==> listeners[capacity] == None
      decreases capacity + 1 - |listeners|
    {
      var l := t.Subscribe();
      listeners := listeners + [l];
    }
  }

  /** Each subscribed listener receives a published beat once, whatever the others do. */
  method EachListenerOnce(t: Ticker, a: Listener, b: Listener) returns (ra: Poll<nat>, rb: Poll<nat>, again: Poll<nat>)
    requires a.index < |t.snapshots| && b.index < |t.snapshots| && a != b && t.changed
    modifies t
    ensures ra == Ready(old(t.current)) && rb == Ready(old(t.current)) && again == Pending
  {
    t.Snapshot();
    ra := PollNext(t, a);
    rb := PollNext(t, b);
    again := PollNext(t, a);
  }
}
