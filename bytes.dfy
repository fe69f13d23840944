/** Fixed-width unsigned integers and the little-endian byte layout used by
    Samba's SIVAL/SSVAL macros (least significant byte first). */
module Bytes {

  type uint8 = x: int | 0 <= x < 0x100
  type uint16 = x: int | 0 <= x < 0x1_0000
  type uint32 = x: int | 0 <= x < 0x1_0000_0000

  const TWO_TO_THE_16: int := 0x1_0000
  const TWO_TO_THE_32: int := 0x1_0000_0000

  /** C unsigned 32-bit addition, which wraps around. */
  function Add32(a: uint32, b: int): (r: uint32)
    requires 0 <= b
    ensures r < a + b ==> a + b >= TWO_TO_THE_32
    ensures a + b < TWO_TO_THE_32 ==> r == a + b
  {
    (a + b) % TWO_TO_THE_32
  }

  /** C unsigned 32-bit subtraction, which wraps around. */
  function Sub32(a: uint32, b: uint32): (r: uint32)
    ensures b <= a ==> r == a - b
    ensures a < b ==> r == a - b + TWO_TO_THE_32
  {
    (a - b + TWO_TO_THE_32) % TWO_TO_THE_32
  }

  /** The two bytes SSVAL stores for x. */
  function Le16(x: uint16): (r: seq<uint8>)
    ensures |r| == 2
  {
    [x % 0x100, x / 0x100]
  }

  /** The four bytes SIVAL stores for x. */
  function Le32(x: uint32): (r: seq<uint8>)
    ensures |r| == 4
  {
    [x % 0x100, (x / 0x100) % 0x100, (x / 0x1_0000) % 0x100, x / 0x100_0000]
  }

  /** SVAL: the 16-bit value at the start of s. */
  function ReadLe16(s: seq<uint8>): uint16
    requires |s| >= 2
  {
    s[0] as int + 0x100 * (s[1] as int)
  }

  /** IVAL: the 32-bit value at the start of s. */
  function ReadLe32(s: seq<uint8>): uint32
    requires |s| >= 4
  {
    s[0] as int + 0x100 * (s[1] as int) + 0x1_0000 * (s[2] as int) + 0x100_0000 * (s[3] as int)
  }

  lemma Le16RoundTrip(x: uint16)
    ensures ReadLe16(Le16(x)) == x
  {
  }

  lemma Le32RoundTrip(x: uint32)
    ensures ReadLe32(Le32(x)) == x
  {
    var a := x / 0x100;
    var b := a / 0x100;
    assert x == x % 0x100 + 0x100 * a;
    assert a == a % 0x100 + 0x100 * b;
    assert b == b % 0x100 + 0x100 * (b / 0x100);
    assert x / 0x1_0000 == b;
    assert x / 0x100_0000 == b / 0x100;
  }

  /** Reading back the bytes SIVAL wrote gives the value, and the bytes are
      determined by the value: SIVAL is injective. */
  lemma Le32Injective(x: uint32, y: uint32)
    requires Le32(x) == Le32(y)
    ensures x == y
  {
    Le32RoundTrip(x);
    Le32RoundTrip(y);
  }
}
