/**
  * The byte cursors of `avr-async/src/twi/buffer.rs`: an output buffer that
  * hands out a slice's bytes in order, and an input buffer that stores
  * received bytes into successive slots of a mutable slice.
  */
module TwiBuffer {
  import opened Wrappers

  /** `SliceOutputBuffer`: the slice and the position of the next byte. */
  class SliceOutputBuffer {
    const slice: seq<bv8>
    var pos: nat

    ghost predicate Valid()
      reads this
    {
      pos <= |slice|
    }

    /** `new` and `into_output_buffer`: at the first byte. */
    constructor (slice: seq<bv8>)
      ensures Valid() && this.slice == slice && pos == 0
    {
      this.slice := slice;
      pos := 0;
    }

    /** `next`: the next byte, or `None` once the slice is used up. */
    method Next() returns (r: Option<bv8>)
      requires Valid()
      modifies this
      ensures Valid()
      ensures old(pos) < |slice| ==> r == Some(slice[old(pos)]) && pos == old(pos) + 1
      ensures old(pos) == |slice| ==> r == None && pos == old(pos)
    {
      if pos < |slice| {
        r := Some(slice[pos]);
        pos := pos + 1;
      } else {
        r := None;
      }
    }
  }

  /**
    * Calling `next` until it says `None` yields the rest of the slice in
    * order; every later call says `None` again.
    */
  method DrainOutput(b: SliceOutputBuffer) returns (out: seq<bv8>)
    requires b.Valid()
    modifies b
    ensures b.Valid() && out == old(b.slice[b.pos..]) && b.pos == |b.slice|
  {
    out := [];
    var r := b.Next();
    while r.Some?
      invariant b.Valid() && old(b.pos) <= b.pos
      invariant r.Some? ==> 0 < b.pos && out + [r.value] == b.slice[old(b.pos)..b.pos]
      invariant r.None? ==> out == b.slice[old(b.pos)..] && b.pos == |b.slice|
      decreases |b.slice| - b.pos, r.Some?
    {
      out := out + [r.value];
      r := b.Next();
    }
  }

  /** `SliceInputBuffer`: the slots to fill and the position of the next one. */
  class SliceInputBuffer {
    const slots: array<bv8>
    var pos: nat

    ghost predicate Valid()
      reads this
    {
      pos <= slots.Length
    }

    /** `new` and `into_input_buffer`: at the first slot. */
    constructor (slots: array<bv8>)
      ensures Valid() && this.slots == slots && pos == 0
    {
      this.slots := slots;
      pos := 0;
    }

    /** `push`: stores the byte in the next slot; once every slot is filled the byte is dropped. */
    method Push(byte: bv8)
      requires Valid()
      modifies this, slots
      ensures Valid()
      ensures old(pos) < slots.Length ==> slots[..] == old(slots[..])[old(pos) := byte] && pos == old(pos) + 1
      ensures old(pos) == slots.Length ==> slots[..] == old(slots[..]) && pos == old(pos)
    {
      if pos < slots.Length {
        slots[pos] := byte;
        pos := pos + 1;
      }
    }

    /** `is_last`: exactly one slot is left to fill. */
    function IsLast(): (r: bool)
      reads this
      requires Valid()
      ensures r <==> pos + 1 == slots.Length
    {
      slots.Length - pos == 1
    }
  }

  /**
    * Pushing `bytes` fills the free slots with them in order; bytes beyond
    * the last slot are dropped and the slots before the cursor are kept.
    */
  method Fill(b: SliceInputBuffer, bytes: seq<bv8>)
    requires b.Valid()
    modifies b, b.slots
    ensures b.Valid()
    ensures var k := if |bytes| <= old(b.slots.Length - b.pos) then |bytes| else old(b.slots.Length - b.pos);
      b.pos == old(b.pos) + k &&
      b.slots[..] == old(b.slots[..b.pos]) + bytes[..k] + old(b.slots[..])[old(b.pos) + k..]
  {
    var i := 0;
    while i < |bytes|
      invariant i <= |bytes| && b.Valid()
      invariant var k := if i <= old(b.slots.Length - b.pos) then i else old(b.slots.Length - b.pos);
        b.pos == old(b.pos) + k &&
        b.slots[..] == old(b.slots[..b.pos]) + bytes[..k] + old(b.slots[..])[old(b.pos) + k..]
    {
      b.Push(bytes[i]);
      i := i + 1;
    }
  }
}
