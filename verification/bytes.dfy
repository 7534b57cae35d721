/**
 Raw bytes and the fixed-width big-endian integers of the record header.

 A record header carries a 2-byte type and a 4-byte length, each stored most
 significant byte first. `ToU16` and `ToU32` are the decoders the header is
 read with; `FromU16` and `FromU32` are their inverses, used to state what a
 well-formed byte stream looks like.
 */
module Bytes {

  newtype byte = x: int | 0 <= x < 0x100

  /** An unsigned 16-bit value, the width of a record type. */
  type u16 = x: nat | x < 0x1_0000

  /** An unsigned 32-bit value, the width of a record length. */
  type u32 = x: nat | x < 0x1_0000_0000

  /** Big-endian decode of two bytes: the first byte is the high byte. */
  function ToU16(b: seq<byte>): (r: u16)
    requires |b| == 2
    ensures r / 0x100 == b[0] as nat
    ensures r % 0x100 == b[1] as nat
  {
    b[0] as nat * 0x100 + b[1] as nat
  }

  /** Big-endian decode of four bytes: the first two bytes form the high
      half and the last two bytes the low half. */
  function ToU32(b: seq<byte>): (r: u32)
    requires |b| == 4
    ensures r == ToU16(b[..2]) * 0x1_0000 + ToU16(b[2..])
  {
    b[0] as nat * 0x100_0000 + b[1] as nat * 0x1_0000 + b[2] as nat * 0x100 + b[3] as nat
  }

  /** Big-endian encode of a 16-bit value. */
  function FromU16(x: u16): (b: seq<byte>)
    ensures |b| == 2
  {
    [(x / 0x100) as byte, (x % 0x100) as byte]
  }

  /** Big-endian encode of a 32-bit value: the high half, then the low half. */
  function FromU32(x: u32): (b: seq<byte>)
    ensures |b| == 4
  {
    FromU16(x / 0x1_0000) + FromU16(x % 0x1_0000)
  }

  /** Decoding an encoded 16-bit value gives the value back. */
  lemma U16RoundTrip(x: u16)
    ensures ToU16(FromU16(x)) == x
  {
  }

  /** Every pair of bytes is the encoding of the value it decodes to,
      so the 16-bit decoder is injective. */
  lemma U16Canonical(b: seq<byte>)
    requires |b| == 2
    ensures FromU16(ToU16(b)) == b
  {
  }

  /** Splitting a value into 16-bit halves recovers the halves. */
  lemma SplitHalves(hi: u16, lo: u16)
    ensures (hi * 0x1_0000 + lo) / 0x1_0000 == hi
    ensures (hi * 0x1_0000 + lo) % 0x1_0000 == lo
  {
  }

  /** Decoding an encoded 32-bit value gives the value back. */
  lemma U32RoundTrip(x: u32)
    ensures ToU32(FromU32(x)) == x
  {
    var hi: u16 := x / 0x1_0000;
    var lo: u16 := x % 0x1_0000;
    var b := FromU32(x);
    assert b[..2] == FromU16(hi) && b[2..] == FromU16(lo);
    U16RoundTrip(hi);
    U16RoundTrip(lo);
  }

  /** Every four bytes are the encoding of the value they decode to,
      so the 32-bit decoder is injective. */
  lemma U32Canonical(b: seq<byte>)
    requires |b| == 4
    ensures FromU32(ToU32(b)) == b
  {
    var hi := ToU16(b[..2]);
    var lo := ToU16(b[2..]);
    SplitHalves(hi, lo);
    U16Canonical(b[..2]);
    U16Canonical(b[2..]);
    assert b == b[..2] + b[2..];
  }
}
