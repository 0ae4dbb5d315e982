/**
  * The ticker of the `bpm120` example (`examples/src/bpm120.rs`): a beat
  * counter with a fixed array of listener slots, and the example's own
  * runtime, whose `ready` flag the timer interrupt raises on a changed beat.
  * As written, `Ticker::new` binds every listener to slot 0.
  */
module ExampleTicker {
  import opened Wrappers
  import opened Wake
  import opened TickerBeat

  /** `TickerListener`: a handle on one slot of a ticker's snapshot array. */
  datatype Listener = Listener(slots: array<Option<nat>>, index: nat)

  class Ticker {
    var half: bool
    var changed: bool
    var current: nat
    /** The snapshot slots, one per listener. */
    const snapshots: array<Option<nat>>

    function Counters(): Beat
      reads this
    {
      Beat(half, changed, current)
    }

    /** The counters of `new`, over `n` empty slots. */
    constructor (n: nat)
      ensures Counters() == Initial
      ensures fresh(snapshots) && snapshots.Length == n
      ensures forall i :: 0 <= i < n ==> snapshots[i] == None
    {
      half := false;
      changed := false;
      current := 0;
      snapshots := new Option<nat>[n](_ => None);
    }

    /** `snapshot`: every slot gets the changed beat, or nothing; the change mark is consumed. */
    method Snapshot()
      modifies this, snapshots
      ensures Counters() == Snapped(old(Counters()))
      ensures forall i :: 0 <= i < snapshots.Length ==> snapshots[i] == Published(old(Counters()))
    {
      if changed {
        forall i | 0 <= i < snapshots.Length {
          snapshots[i] := Some(current);
        }
        changed := false;
      } else {
        forall i | 0 <= i < snapshots.Length {
          snapshots[i] := None;
        }
      }
    }

    /** `tick`: one timer period; the result says whether a changed beat awaits a snapshot. */
    method Tick() returns (r: bool)
      modifies this
      ensures Counters() == TickerBeat.Tick(old(Counters()))
      ensures r == changed
    {
      if half {
        half := false;
        changed := true;
        current := (current + 1) % 4;
      } else {
        half := true;
      }
      r := changed;
    }
  }

  /**
    * `Ticker::new`: a ticker over `n` empty slots and `n` listeners, every
    * one of them bound to slot 0, as written.
    */
  method New(n: nat) returns (t: Ticker, listeners: seq<Listener>)
    ensures fresh(t) && fresh(t.snapshots) && t.Counters() == Initial
    ensures t.snapshots.Length == n && forall i :: 0 <= i < n ==> t.snapshots[i] == None
    ensures |listeners| == n && forall i :: 0 <= i < n ==> listeners[i] == Listener(t.snapshots, 0)
  {
    t := new Ticker(n);
    listeners := [];
    var i := 0;
    while i < n
      invariant i <= n && |listeners| == i
      invariant forall k :: 0 <= k < i ==> listeners[k] == Listener(t.snapshots, 0)
    {
      listeners := listeners + [Listener(t.snapshots, 0)];
      i := i + 1;
    }
  }

  /** `Ticker::new` with listener `i` bound to slot `i`, as the one-slot-per-listener array intends. */
  method NewBound(n: nat) returns (t: Ticker, listeners: seq<Listener>)
    ensures fresh(t) && fresh(t.snapshots) && t.Counters() == Initial
    ensures t.snapshots.Length == n && forall i :: 0 <= i < n ==> t.snapshots[i] == None
    ensures |listeners| == n && forall i :: 0 <= i < n ==> listeners[i] == Listener(t.snapshots, i)
  {
    t := new Ticker(n);
    listeners := [];
    var i := 0;
    while i < n
      invariant i <= n && |listeners| == i
      invariant forall k :: 0 <= k < i ==> listeners[k] == Listener(t.snapshots, k)
    {
      listeners := listeners + [Listener(t.snapshots, i)];
      i := i + 1;
    }
  }

  /** `NextTick::poll`: takes the listener's slot. */
  method PollNext(l: Listener) returns (r: Poll<nat>)
    requires l.index < l.slots.Length
    modifies l.slots
    ensures (r, l.slots[l.index]) == Take(old(l.slots[l.index]))
    ensures l.slots[..] == old(l.slots[..])[l.index := None]
  {
    r := if l.slots[l.index].Some? then Ready(l.slots[l.index].value) else Pending;
    l.slots[l.index] := None;
  }

  /** The results of polling the listeners of the given slots one after the other. */
  function PollSlots(slots: seq<Option<nat>>, order: seq<nat>): (r: seq<Poll<nat>>)
    requires forall k :: 0 <= k < |order| ==> order[k] < |slots|
    ensures |r| == |order|
    decreases |order|
  {
    if order == [] then []
    else
      var (p, s) := Take(slots[order[0]]);
      [p] + PollSlots(slots[order[0] := s], order[1..])
  }

  /**
    * Listeners on distinct slots that all hold `v` each receive `v`: taking
    * one slot leaves the others' values in place.
    */
  lemma {:induction false} DistinctSlotsAllReady(slots: seq<Option<nat>>, order: seq<nat>, v: nat)
    requires forall k :: 0 <= k < |order| ==> order[k] < |slots| && slots[order[k]] == Some(v)
    requires forall j, k :: 0 <= j < k < |order| ==> order[j] != order[k]
    ensures forall k :: 0 <= k < |order| ==> PollSlots(slots, order)[k] == Ready(v)
    decreases |order|
  {
    if order != [] {
      var s := slots[order[0] := None];
      assert forall k :: 0 <= k < |order[1..]| ==> order[1..][k] == order[k + 1];
      DistinctSlotsAllReady(s, order[1..], v);
      assert PollSlots(slots, order) == [Ready(v)] + PollSlots(s, order[1..]);
    }
  }

  /** Listeners sharing an empty slot 0 all stay pending. */
  lemma {:induction false} EmptySharedSlotPending(slots: seq<Option<nat>>, order: seq<nat>)
    requires |slots| > 0 && slots[0] == None && forall k :: 0 <= k < |order| ==> order[k] == 0
    ensures forall k :: 0 <= k < |order| ==> PollSlots(slots, order)[k] == Pending
    decreases |order|
  {
    if order != [] {
      EmptySharedSlotPending(slots[0 := None], order[1..]);
      assert PollSlots(slots, order) == [Pending] + PollSlots(slots[0 := None], order[1..]);
    }
  }

  /**
    * As written, every listener polls slot 0: after a snapshot publishes `v`
    * to every slot, the first listener polled receives it and every other
    * one stays pending, while the other slots keep `v` unread.
    */
  lemma SharedSlotStarves(slots: seq<Option<nat>>, v: nat, order: seq<nat>)
    requires |slots| > 0 && forall i :: 0 <= i < |slots| ==> slots[i] == Some(v)
    requires |order| > 0 && forall k :: 0 <= k < |order| ==> order[k] == 0
    ensures PollSlots(slots, order)[0] == Ready(v)
    ensures forall k :: 1 <= k < |order| ==> PollSlots(slots, order)[k] == Pending
  {
    EmptySharedSlotPending(slots[0 := None], order[1..]);
    assert PollSlots(slots, order) == [Ready(v)] + PollSlots(slots[0 := None], order[1..]);
  }

  /** The example's `Runtime`: the ticker and the `ready` flag; the CPU handle and the LEDs are not modelled. */
  class Runtime {
    const ticker: Ticker
    var ready: bool

    /** `new`, after the hardware set-up: not ready. */
    constructor (ticker: Ticker)
      ensures this.ticker == ticker && !ready
    {
      this.ticker := ticker;
      ready := false;
    }

    /** `is_ready`. */
    function IsReady(): (r: bool)
      reads this
      ensures r <==> ready
    {
      ready
    }

    /** `snapshot`: clears `ready`, then takes the ticker's snapshot. */
    method Snapshot()
      modifies this, ticker, ticker.snapshots
      ensures !ready
      ensures ticker.Counters() == Snapped(old(ticker.Counters()))
      ensures forall i :: 0 <= i < ticker.snapshots.Length ==> ticker.snapshots[i] == Published(old(ticker.Counters()))
    {
      ready := false;
      ticker.Snapshot();
    }

    /** `wake`: sets `ready`. */
    method Wake()
      modifies this
      ensures ready
    {
      ready := true;
    }

    /** `timer1_compa`: ticks; a changed beat wakes the executor and sets `ready`. */
    method Timer1Compa(w: Signal)
      modifies this, ticker, w
      ensures ticker.Counters() == TickerBeat.Tick(old(ticker.Counters()))
      ensures ready == (old(ready) || ticker.changed)
      ensures w.count == old(w.count) + if ticker.changed then 1 else 0
    {
      var changed := ticker.Tick();
      if changed {
        w.Wake();
        Wake();
      }
    }
  }

  /**
    * One beat as the example runs it: after a snapshot at the start of a
    * beat, the first timer interrupt leaves the executor asleep (`is_ready`
    * is false), the second wakes it (`is_ready` is true), and the executor's snapshot hands the next beat number to the
    * listener, once.
    */
  method BeatReachesListener(rt: Runtime, w: Signal, l: Listener)
      returns (readyAtHalf: bool, readyAtBeat: bool, first: Poll<nat>, second: Poll<nat>)
    requires !rt.ready && !rt.ticker.half && !rt.ticker.changed && rt.ticker.current < 4
    requires l.slots == rt.ticker.snapshots && l.index < l.slots.Length
    modifies rt, rt.ticker, rt.ticker.snapshots, w
    ensures !readyAtHalf && readyAtBeat
    ensures first == Ready((old(rt.ticker.current) + 1) % 4) && second == Pending
    ensures w.count == old(w.count) + 1 && !rt.ready
  {
    rt.Timer1Compa(w);
    readyAtHalf := rt.IsReady();
    rt.Timer1Compa(w);
    readyAtBeat := rt.IsReady();
    rt.Snapshot();
    first := PollNext(l);
    second := PollNext(l);
  }
}
