/**
 * The C integer types of the firmware and the conversions C performs between
 * them. Dafny's integers are unbounded, so every narrowing store of the
 * firmware goes through one of these functions.
 */
module CTypes {
  type uint8 = x: int | 0 <= x < 0x100
  type int8 = x: int | -0x80 <= x < 0x80
  type uint16 = x: int | 0 <= x < 0x1_0000
  type uint32 = x: int | 0 <= x < 0x1_0000_0000
  type int32 = x: int | -0x8000_0000 <= x < 0x8000_0000

  /** Conversion to uint8_t: the value modulo 2^8. */
  function U8(x: int): (r: uint8)
    ensures 0 <= x < 0x100 ==> r == x
    ensures (r - x) % 0x100 == 0
  {
    x % 0x100
  }

  /** Conversion to uint16_t: the value modulo 2^16. */
  function U16(x: int): (r: uint16)
    ensures 0 <= x < 0x1_0000 ==> r == x
    ensures (r - x) % 0x1_0000 == 0
  {
    x % 0x1_0000
  }

  /** Conversion to uint32_t: the value modulo 2^32. */
  function U32(x: int): (r: uint32)
    ensures 0 <= x < 0x1_0000_0000 ==> r == x
    ensures (r - x) % 0x1_0000_0000 == 0
  {
    x % 0x1_0000_0000
  }

  /** Conversion to int8_t: two's complement wrap-around. */
  function I8(x: int): (r: int8)
    ensures -0x80 <= x < 0x80 ==> r == x
    ensures (r - x) % 0x100 == 0
  {
    var m := x % 0x100;
    if m < 0x80 then m else m - 0x100
  }

  /** Conversion to a 32-bit int: two's complement wrap-around. */
  function I32(x: int): (r: int)
    ensures -0x8000_0000 <= r < 0x8000_0000
    ensures -0x8000_0000 <= x < 0x8000_0000 ==> r == x
    ensures (r - x) % 0x1_0000_0000 == 0
  {
    var m := x % 0x1_0000_0000;
    if m < 0x8000_0000 then m else m - 0x1_0000_0000
  }

  /** C's integer division, which truncates toward zero. */
  function CDiv(a: int, b: int): (q: int)
    requires b != 0
    ensures a >= 0 && b > 0 ==> q == a / b
    ensures a < 0 && b > 0 ==> q == -((-a) / b)
  {
    if (a < 0) == (b < 0) then (if a < 0 then -a else a) / (if b < 0 then -b else b)
    else -((if a < 0 then -a else a) / (if b < 0 then -b else b))
  }

  /** C's remainder, which takes the sign of the dividend. */
  function CRem(a: int, b: int): (r: int)
    requires b != 0
    ensures a >= 0 ==> 0 <= r < (if b < 0 then -b else b)
    ensures a < 0 ==> -(if b < 0 then -b else b) < r <= 0
  {
    a - b * CDiv(a, b)
  }

  /** Four bytes read least significant first, as C assembles them with shifts and or. */
  function LittleEndian32(b0: uint8, b1: uint8, b2: uint8, b3: uint8): (r: uint32)
    ensures r % 0x100 == b0 && r / 0x100_0000 == b3
  {
    b0 + b1 * 0x100 + b2 * 0x1_0000 + b3 * 0x100_0000
  }

  /** C's logical and of a value with 0xFF: 1 when the value is non-zero, else 0. */
  function LogicalAnd0xFF(x: int): (r: uint8)
    ensures r <= 1
    ensures r == 1 <==> x != 0
  {
    if x != 0 then 1 else 0
  }

  /** A bool promoted to int: 1 for true, 0 for false. */
  function FromBool(b: bool): (r: nat)
    ensures r <= 1 && (r == 1 <==> b)
  {
    if b then 1 else 0
  }
}
