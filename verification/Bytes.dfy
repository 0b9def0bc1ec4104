/** Fixed-width C integers and the big-endian accessors of `obsw/util/bytes.h`. */
module Bytes {

  type u8 = x: int | 0 <= x < 0x100
  type u16 = x: int | 0 <= x < 0x1_0000
  type u32 = x: int | 0 <= x < 0x1_0000_0000

  type bytes = seq<u8>

  const U16: int := 0x1_0000
  const U32: int := 0x1_0000_0000

  datatype Option<+T> = None | Some(value: T)

  /** The big-endian 16-bit integer at the front of p. */
  function Be16(p: bytes): (v: u16)
    requires |p| >= 2
  {
    p[0] as int * 0x100 + p[1] as int
  }

  /** The big-endian 32-bit integer at the front of p. */
  function Be32(p: bytes): (v: u32)
    requires |p| >= 4
  {
    Be16(p) as int * U16 + Be16(p[2..])
  }

  function Enc16(v: u16): (p: bytes)
    ensures |p| == 2 && Be16(p) == v
  {
    [v / 0x100, v % 0x100]
  }

  function Enc32(v: u32): (p: bytes)
    ensures |p| == 4 && Be32(p) == v
  {
    var hi, lo := Enc16(v / U16), Enc16(v % U16);
    assert (hi + lo)[2..] == lo;
    hi + lo
  }

  /** Increment of a `uint16_t` counter. */
  function Next16(v: u16): u16 {
    (v + 1) % U16
  }
}
