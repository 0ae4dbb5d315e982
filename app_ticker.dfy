/**
  * The application state of `src/main.rs`: the beat counter over a fixed
  * array of listener slots, with `ticker(index)` handing out the listener of
  * one slot. Its `tick` returns nothing.
  */
module AppTicker {
  import opened Wrappers
  import opened TickerBeat

  /** `Ticker`: a handle on one slot of the state's array. */
  datatype Listener = Listener(slots: array<Option<nat>>, index: nat)

  class State {
    var half: bool
    var changed: bool
    var current: nat
    const snapshots: array<Option<nat>>

    function Counters(): Beat
      reads this
    {
      Beat(half, changed, current)
    }

    /** `new` and `Default`: the initial counters over `n` empty slots. */
    constructor (n: nat)
      ensures Counters() == Initial
      ensures fresh(snapshots) && snapshots.Length == n
      ensures forall i :: 0 <= i < n ==> snapshots[i] == None
    {
      half := false;
      changed := false;
      current := 0;
      snapshots := new Option<nat>[n](_ => None);
    }

    /** `ticker`: the listener of slot `index`; indexing past the array panics. */
    function Ticker(index: nat): (l: Listener)
      requires index < snapshots.Length
      ensures l.slots == snapshots && l.index == index && l.index < l.slots.Length
    {
      Listener(snapshots, index)
    }

    /** `tick`: one timer period. */
    method Tick()
      modifies this
      ensures Counters() == TickerBeat.Tick(old(Counters()))
    {
      if half {
        half := false;
        changed := true;
        current := (current + 1) % 4;
      } else {
        half := true;
      }
    }

    /** `snapshot`: every slot gets the changed beat, or nothing; the change mark is consumed. */
    method Snapshot()
      modifies this, snapshots
      ensures Counters() == Snapped(old(Counters()))
      ensures forall i :: 0 <= i < snapshots.Length ==> snapshots[i] == Published(old(Counters()))
    {
      if changed {
        forall i | 0 <= i < snapshots.Length {
          snapshots[i] := Some(current);
        }
        changed := false;
      } else {
        forall i | 0 <= i < snapshots.Length {
          snapshots[i] := None;
        }
      }
    }
  }

  /** `NextTick::poll`: takes the listener's slot. */
  method PollNext(l: Listener) returns (r: Poll<nat>)
    requires l.index < l.slots.Length
    modifies l.slots
    ensures (r, l.slots[l.index]) == Take(old(l.slots[l.index]))
    ensures l.slots[..] == old(l.slots[..])[l.index := None]
  {
    r := if l.slots[l.index].Some? then Ready(l.slots[l.index].value) else Pending;
    l.slots[l.index] := None;
  }

  /**
    * The beats the listener of slot 0 sees: starting from a new state, two
    * ticks and a snapshot per beat hand it the beat number of each pass, one
    * value per snapshot, for any number `m` of beats.
    */
  method Beats(n: nat, m: nat) returns (seen: seq<Poll<nat>>)
    requires n > 0
    ensures |seen| == m
    ensures forall k :: 0 <= k < m ==> seen[k] == Ready((k + 1) % 4)
  {
    var st := new State(n);
    var l := st.Ticker(0);
    seen := [];
    while |seen| < m
      invariant |seen| <= m && !st.half && !st.changed && st.current == |seen| % 4
      invariant forall k :: 0 <= k < |seen| ==> seen[k] == Ready((k + 1) % 4)
      invariant l == Listener(st.snapshots, 0) && st.snapshots.Length == n
      decreases m - |seen|
    {
      st.Tick();
      st.Tick();
      st.Snapshot();
      var r := PollNext(l);
      seen := seen + [r];
    }
  }

  /** Four beats hand the listener 1, 2, 3 and then 0, the count wrapping at 4. */
  method FourBeats(n: nat) returns (seen: seq<Poll<nat>>)
    requires n > 0
    ensures seen == [Ready(1), Ready(2), Ready(3), Ready(0)]
  {
    seen := Beats(n, 4);
    assert seen[3] == Ready(0);
  }
}
