/**
  * The reference-counted pointer of `avr-async/src/sync/arc.rs`: a count and
  * a value share one caller-provided slab; every handle points at it,
  * cloning adds one to the count, dropping takes one off and destroys the
  * value when the count reaches zero.
  */
module Arcs {
  import opened Machine

  /** The `ArcSlab`: the shared count, the value and whether it is destroyed. */
  class ArcSlab<T(0)> {
    var count: nat
    var value: T
    var live: bool
    var drops: nat

    /** An uninitialised slab. */
    constructor ()
      ensures count == 0 && !live && drops == 0
    {
      count := 0;
      live := false;
      drops := 0;
    }
  }

  /** `Arc`: a handle on `slab`. */
  datatype Arc<T(0)> = Arc(slab: ArcSlab<T>)
  {
    /** `strong_count`: the shared count. */
    function StrongCount(): (c: nat)
      reads slab
      ensures c == slab.count
    {
      slab.count
    }

    /** `deref`, `as_ref` and `borrow`: the shared value. */
    function Deref(): (v: T)
      reads slab
      ensures v == slab.value
    {
      slab.value
    }
  }

  /** `Arc::new`: writes count 1 and the value into the slab. */
  method New<T(0)>(slab: ArcSlab<T>, v: T) returns (a: Arc<T>)
    modifies slab
    ensures a.slab == slab && slab.count == 1 && slab.value == v && slab.live
    ensures slab.drops == old(slab.drops)
  {
    slab.count := 1;
    slab.value := v;
    slab.live := true;
    a := Arc(slab);
  }

  /** `clone` (through `inc`): one more handle on the same slab. */
  method Clone<T(0)>(a: Arc<T>) returns (b: Arc<T>)
    requires a.slab.count < USIZE_MAX
    modifies a.slab
    ensures b == a && a.StrongCount() == old(a.StrongCount()) + 1
    ensures a.slab.value == old(a.slab.value) && a.slab.live == old(a.slab.live) && a.slab.drops == old(a.slab.drops)
  {
    a.slab.count := a.slab.count + 1;
    b := Arc(a.slab);
  }

  /**
    * `drop` (through `dec`): one handle fewer; the value's destructor runs
    * exactly when the count reaches zero.
    */
  method Drop<T(0)>(a: Arc<T>)
    requires 1 <= a.slab.count
    modifies a.slab
    ensures a.StrongCount() == old(a.StrongCount()) - 1
    ensures a.slab.drops == old(a.slab.drops) + if a.StrongCount() == 0 then 1 else 0
    ensures a.slab.live == (old(a.slab.live) && a.StrongCount() != 0)
    ensures a.slab.value == old(a.slab.value)
  {
    a.slab.count := a.slab.count - 1;
    if a.slab.count == 0 {
      a.slab.live := false;
      a.slab.drops := a.slab.drops + 1;
    }
  }

  /** `as_ptr`: the address of the shared value. */
  function AsPtr<T(0)>(a: Arc<T>): (p: ArcSlab<T>)
    ensures p == a.slab
  {
    a.slab
  }

  /**
    * `into_raw`: the address of the shared value, with the handle forgotten,
    * so the count keeps counting it.
    */
  method IntoRaw<T(0)>(a: Arc<T>) returns (p: ArcSlab<T>)
    ensures p == AsPtr(a)
  {
    p := AsPtr(a);
  }

  /** `k` clones of `a`: the count grows by `k` and every handle shares the slab. */
  method CloneMany<T(0)>(a: Arc<T>, k: nat) returns (hs: seq<Arc<T>>)
    requires a.slab.count + k <= USIZE_MAX
    modifies a.slab
    ensures |hs| == k && forall i :: 0 <= i < k ==> hs[i] == a
    ensures a.StrongCount() == old(a.StrongCount()) + k
    ensures a.slab.value == old(a.slab.value) && a.slab.live == old(a.slab.live) && a.slab.drops == old(a.slab.drops)
  {
    hs := [];
    while |hs| < k
      invariant |hs| <= k && forall i :: 0 <= i < |hs| ==> hs[i] == a
      invariant a.slab.count == old(a.slab.count) + |hs|
      invariant a.slab.value == old(a.slab.value) && a.slab.live == old(a.slab.live) && a.slab.drops == old(a.slab.drops)
      decreases k - |hs|
    {
      var b := Clone(a);
      hs := hs + [b];
    }
  }

  /**
    * Dropping every handle of `hs`, all on one slab: the count falls by
    * `|hs|` and the value is destroyed once if that brings it to zero.
    */
  method DropAll<T(0)>(s: ArcSlab<T>, hs: seq<Arc<T>>)
    requires forall i :: 0 <= i < |hs| ==> hs[i].slab == s
    requires |hs| <= s.count
    modifies s
    ensures s.count == old(s.count) - |hs|
    ensures s.drops == old(s.drops) + if |hs| > 0 && s.count == 0 then 1 else 0
    ensures s.live == (old(s.live) && (|hs| == 0 || s.count != 0))
    ensures s.value == old(s.value)
  {
    var i := 0;
    while i < |hs|
      invariant i <= |hs| && s.count == old(s.count) - i
      invariant s.drops == old(s.drops) + if i > 0 && s.count == 0 then 1 else 0
      invariant s.live == (old(s.live) && (i == 0 || s.count != 0))
      invariant s.value == old(s.value)
    {
      Drop(hs[i]);
      i := i + 1;
    }
  }

  /**
    * Two handles on one slab, seen through the accessors: both point at the
    * slab the value was placed in, `strong_count` counts both and `deref`
    * reads the value `new` stored.
    */
  method SharedView(v: int) returns (slab: ArcSlab<int>, original: ArcSlab<int>, clone: ArcSlab<int>, count: nat, read: int)
    ensures original == slab && clone == slab
    ensures count == 2 && read == v
  {
    slab := new ArcSlab<int>();
    var a := New(slab, v);
    var b := Clone(a);
    original := AsPtr(a);
    clone := AsPtr(b);
    count := b.StrongCount();
    read := b.Deref();
  }

  /**
    * Handles not leaked keep the count at one plus the clones minus the
    * drops: `k` clones and their `k` drops leave one live handle, and the
    * last drop destroys the value exactly once.
    */
  method Lifecycle(v: int, k: nat) returns (before: nat, after: nat, destroyed: nat)
    requires k < USIZE_MAX
    ensures before == k + 1 && after == 1 && destroyed == 1
  {
    var s := new ArcSlab<int>();
    var a := New(s, v);
    var hs := CloneMany(a, k);
    before := a.StrongCount();
    DropAll(s, hs);
    after := a.StrongCount();
    assert s.live && s.drops == 0;
    Drop(a);
    destroyed := s.drops;
  }
}
