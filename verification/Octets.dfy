/** Bytes and the numbers that networks make of them. */
module Octets {
  type Byte = x: int | 0 <= x < 256

  function U16(n: nat): (r: seq<Byte>)
    requires n < 0x1_0000
  {
    [n / 256, n % 256]
  }

  function ReadU16(b: seq<Byte>, i: nat): (n: nat)
    requires i + 2 <= |b|
    ensures n < 0x1_0000
  {
    b[i] as int * 256 + b[i + 1] as int
  }

  function U32(n: nat): (r: seq<Byte>)
    requires n < 0x1_0000_0000
  {
    U16(n / 0x1_0000) + U16(n % 0x1_0000)
  }

  function ReadU32(b: seq<Byte>, i: nat): (n: nat)
    requires i + 4 <= |b|
    ensures n < 0x1_0000_0000
  {
    ReadU16(b, i) * 0x1_0000 + ReadU16(b, i + 2)
  }
}
