/**
  * The write-once storage of `avr-async/src/slab.rs`. A `Slab` is a handle on
  * one statically allocated, uninitialised cell; `get` consumes it, writes
  * the value and hands out a `SlabBox` over the same cell, whose drop runs
  * the value's destructor in place and frees nothing.
  */
module Slabs {

  /**
    * The static cell behind a slab: the value it holds, whether that value is
    * initialised and not yet destroyed, and how many times a destructor ran
    * on it.
    */
  class Storage<T(0)> {
    var value: T
    var live: bool
    var drops: nat

    /** The `static mut SLAB: MaybeUninit<_>` the `slab!` macro declares. */
    constructor ()
      ensures !live && drops == 0
    {
      live := false;
      drops := 0;
    }
  }

  /**
    * `Slab`: a handle on an uninitialised cell. Rust moves the handle into
    * `get`; here the move is the `taken` flag.
    */
  class Slab<T(0)> {
    const mem: Storage<T>
    var taken: bool

    /** `Slab::new`: a handle on `mem`, not yet used. */
    constructor (mem: Storage<T>)
      ensures this.mem == mem && !taken
    {
      this.mem := mem;
      taken := false;
    }

    /**
      * `get`: writes `v` into the cell and returns a box over that same
      * cell; a slab can do this once.
      */
    method Get(v: T) returns (b: SlabBox<T>)
      requires !taken
      modifies this, mem
      ensures taken && b.mem == mem
      ensures mem.value == v && mem.live && mem.drops == old(mem.drops)
    {
      taken := true;
      mem.value := v;
      mem.live := true;
      b := SlabBox(mem);
    }
  }

  /** `SlabBox`: owns the value in `mem`. `from_ptr` is the constructor. */
  datatype SlabBox<T(0)> = SlabBox(mem: Storage<T>)
  {
    /** `as_ptr` and `as_ptr_mut`: the address the box was built over. */
    function AsPtr(): (p: Storage<T>)
      ensures p == mem
    {
      mem
    }

    /** `deref`, `borrow` and `as_ref`: the value in the cell. */
    function Deref(): (v: T)
      reads mem
      ensures v == mem.value
    {
      mem.value
    }
  }

  /** `deref_mut`, `borrow_mut` and `as_mut`, followed by a write through the reference. */
  method Assign<T(0)>(b: SlabBox<T>, v: T)
    modifies b.mem
    ensures b.Deref() == v
    ensures b.mem.live == old(b.mem.live) && b.mem.drops == old(b.mem.drops)
  {
    b.mem.value := v;
  }

  /** Dropping a `SlabBox`: the value's destructor runs once, in place. */
  method Drop<T(0)>(b: SlabBox<T>)
    requires b.mem.live
    modifies b.mem
    ensures !b.mem.live && b.mem.drops == old(b.mem.drops) + 1
    ensures b.mem.value == old(b.mem.value)
  {
    b.mem.live := false;
    b.mem.drops := b.mem.drops + 1;
  }

  /** `leak`: the address, with the box forgotten, so the value stays live. */
  method Leak<T(0)>(b: SlabBox<T>) returns (p: Storage<T>)
    ensures p == b.mem
  {
    p := b.mem;
  }

  /**
    * A box made by `get` over a cell: `as_ptr` is that cell and `deref`
    * reads the value `get` wrote into it.
    */
  method BoxPointsAtCell(x: int) returns (cell: Storage<int>, p: Storage<int>, v: int)
    ensures p == cell && v == x && cell.live
  {
    cell := new Storage<int>();
    var slab := new Slab(cell);
    var b := slab.Get(x);
    p := b.AsPtr();
    v := b.Deref();
  }

  /**
    * A box reads back what `get` and later writes stored, and only the drop
    * of the box destroys the value; a leaked box never does.
    */
  method BoxLifecycle(x: int, y: int) returns (first: int, second: int, leaked: Storage<int>)
    ensures first == x && second == y
    ensures leaked.live && leaked.drops == 0 && leaked.value == x
  {
    var cell := new Storage<int>();
    var slab := new Slab(cell);
    var b := slab.Get(x);
    first := b.Deref();
    Assign(b, y);
    second := b.Deref();
    Drop(b);
    assert cell.drops == 1 && !cell.live;

    var cell' := new Storage<int>();
    var slab' := new Slab(cell');
    var b' := slab'.Get(x);
    leaked := Leak(b');
  }
}
