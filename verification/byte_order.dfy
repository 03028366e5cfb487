/**
 * Fixed-width integers and the byte-order helpers (sys_put_le16, sys_get_le16,
 * sys_put_be16, sys_get_le32) the drivers use to move values in and out of
 * byte buffers. C integer widths are written out explicitly: every wrap-around
 * or truncating cast the drivers rely on goes through one of these functions.
 */
module ByteOrder {

  type byte = x: int | 0 <= x < 0x100
  type u16 = x: int | 0 <= x < 0x1_0000
  type u32 = x: int | 0 <= x < 0x1_0000_0000
  type i32 = x: int | -0x8000_0000 <= x < 0x8000_0000

  /** A sequence of `n` zero bytes. */
  function Zeros(n: nat): (r: seq<byte>)
    ensures |r| == n
    ensures forall i :: 0 <= i < n ==> r[i] == 0
  {
    seq(n, _ => 0)
  }

  /** sys_put_le16: low byte first. */
  function Le16(v: u16): (r: seq<byte>)
    ensures |r| == 2 && r[0] as int + 0x100 * (r[1] as int) == v
  {
    [v % 0x100, v / 0x100]
  }

  /** sys_put_be16: high byte first. */
  function Be16(v: u16): (r: seq<byte>)
    ensures |r| == 2 && 0x100 * (r[0] as int) + r[1] as int == v
  {
    [v / 0x100, v % 0x100]
  }

  /** sys_get_le16 on the two bytes at `s[at]`, `s[at + 1]`. */
  function GetLe16(s: seq<byte>, at: nat): u16
    requires at + 2 <= |s|
  {
    s[at] as int + 0x100 * (s[at + 1] as int)
  }

  /** sys_get_le32 on the four bytes at `s[at..at + 4]`, unsigned. */
  function GetLe32(s: seq<byte>, at: nat): u32
    requires at + 4 <= |s|
  {
    s[at] as int + 0x100 * (s[at + 1] as int) + 0x1_0000 * (s[at + 2] as int) + 0x100_0000 * (s[at + 3] as int)
  }

  /** The four bytes of `v`, least significant first: what sys_get_le32 reads back as `v`. */
  function Le32(v: u32): (r: seq<byte>)
    ensures |r| == 4 && GetLe32(r, 0) == v
  {
    [v % 0x100, (v / 0x100) % 0x100, (v / 0x1_0000) % 0x100, v / 0x100_0000]
  }

  /** Conversion of an unsigned 32-bit value to int32_t (two's complement). */
  function AsI32(v: u32): i32
  {
    if v < 0x8000_0000 then v else v - 0x1_0000_0000
  }

  /** Conversion of any integer to int32_t: keep the low 32 bits, two's complement. */
  function WrapI32(v: int): (r: i32)
    ensures -0x8000_0000 <= v < 0x8000_0000 ==> r == v
    ensures (r - v) % 0x1_0000_0000 == 0
  {
    AsI32(v % 0x1_0000_0000)
  }

  /** Bitwise and of two 16-bit values. */
  function And16(a: u16, b: u16): u16
  {
    ((a as bv16) & (b as bv16)) as int
  }

  /** Bit `k` of a 16-bit value (BIT(k) & v != 0). */
  function Bit(v: u16, k: nat): bool
    requires k < 16
  {
    (v / Pow2(k)) % 2 == 1
  }

  function Pow2(k: nat): (r: nat)
    ensures r >= 1
  {
    if k == 0 then 1 else 2 * Pow2(k - 1)
  }

  /** Conversion of an int to size_t (64-bit), as when `buffer[35] - 2` is passed as a length. */
  function SizeT(v: int): (r: nat)
    ensures 0 <= v < 0x1_0000_0000_0000_0000 ==> r == v
    ensures v < 0 && v >= -0x1_0000_0000_0000_0000 ==> r == v + 0x1_0000_0000_0000_0000
  {
    v % 0x1_0000_0000_0000_0000
  }

  /** C integer division, truncating toward zero. */
  function CDiv(a: int, b: int): (q: int)
    requires b > 0
    ensures a >= 0 ==> q == a / b
    ensures a < 0 ==> q == -((-a) / b)
  {
    if a >= 0 then a / b else -((-a) / b)
  }

  /** C remainder: takes the sign of the dividend, so that CDiv(a, b) * b + CMod(a, b) == a. */
  function CMod(a: int, b: int): (r: int)
    requires b > 0
    ensures CDiv(a, b) * b + r == a
    ensures a >= 0 ==> 0 <= r < b
    ensures a < 0 ==> -b < r <= 0
  {
    a - CDiv(a, b) * b
  }
}
