/**
  * Seven-bit TWI (I2C) slave addresses, `avr-async/src/twi/address.rs`. The
  * byte sent after a start condition is the address in the upper seven bits
  * and the R/W bit in bit 0: 0 to write and 1 to read (section 3.1.10 of the
  * NXP I2C-bus specification UM10204).
  */
module TwiAddress {
  import opened Wrappers

  /** `InvalidAddress`: the value does not fit in seven bits. */
  datatype InvalidAddress = InvalidAddress

  /** `Address`: the raw byte, at most `0x7F` when made by `new` or `const_new`. */
  datatype Address = Address(value: bv8)
  {
    /** `as_write_byte`: the address shifted up, with R/W bit 0. */
    function AsWriteByte(): (b: bv8)
      ensures b & 1 == 0
      ensures value <= 0x7F ==> b >> 1 == value
    {
      value << 1
    }

    /** `as_read_byte`: the address shifted up, with R/W bit 1. */
    function AsReadByte(): (b: bv8)
      ensures b & 1 == 1
      ensures value <= 0x7F ==> b >> 1 == value
      ensures b == AsWriteByte() | 1
    {
      (value << 1) | 1
    }
  }

  /** `Address::new`: accepts exactly the values `0..=0x7F`. */
  function New(me: bv8): (r: Result<Address, InvalidAddress>)
    ensures r.Ok? <==> me <= 0x7F
    ensures r.Ok? ==> r.value.value == me
    ensures r.Err? ==> r.error == InvalidAddress
  {
    if me > 0x7F then Err(InvalidAddress) else Ok(Address(me))
  }

  /** `const_new`: panics above `0x7F`, and otherwise gives what `new` gives. */
  function ConstNew(me: bv8): (a: Address)
    requires me <= 0x7F
    ensures New(me) == Ok(a)
  {
    Address(me)
  }

  /** `TryFrom<u8>`: `new`. */
  function TryFrom(value: bv8): (r: Result<Address, InvalidAddress>)
    ensures r == New(value)
  {
    New(value)
  }

  /** `Into<u8>`: the raw byte, which `try_from` turns back into the same address. */
  function Into(a: Address): (b: bv8)
    ensures a.value <= 0x7F ==> TryFrom(b) == Ok(a)
  {
    a.value
  }

  /**
    * No bit of a valid address is lost: both bytes shift back to it, and
    * they differ only in the R/W bit.
    */
  lemma AddressRoundTrip(me: bv8)
    requires New(me).Ok?
    ensures New(me).value.AsWriteByte() >> 1 == me
    ensures New(me).value.AsReadByte() >> 1 == me
    ensures New(me).value.AsWriteByte() != New(me).value.AsReadByte()
  {
  }

  /** Distinct valid addresses give distinct bytes, for either direction. */
  lemma BytesInjective(a: Address, b: Address)
    requires a.value <= 0x7F && b.value <= 0x7F && a != b
    ensures a.AsWriteByte() != b.AsWriteByte() && a.AsReadByte() != b.AsReadByte()
  {
  }
}
