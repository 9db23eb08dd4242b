/** Fixed-width integers of the Go source, and the conversions between them.
    Go's unsigned arithmetic wraps modulo 2^N and its integer conversions keep the
    low bits; the functions below write that out on unbounded integers. */
module Ints {

  const TWO_32: int := 0x1_0000_0000
  const TWO_64: int := 0x1_0000_0000_0000_0000
  const TWO_31: int := 0x8000_0000

  type u8 = x: int | 0 <= x < 0x100
  type u32 = x: int | 0 <= x < 0x1_0000_0000
  type u64 = x: int | 0 <= x < 0x1_0000_0000_0000_0000
  type i32 = x: int | -0x8000_0000 <= x < 0x8000_0000

  /** The value of a Go uint64 expression whose exact value is x: x modulo 2^64
      (this also covers `uint64(v)` of a negative int32, which sign-extends). */
  function Wrap64(x: int): (r: u64)
    ensures 0 <= x < TWO_64 ==> r == x
    ensures -TWO_64 <= x < 0 ==> r == x + TWO_64
  {
    x % TWO_64
  }

  /** The value of a Go uint32 expression whose exact value is x. */
  function Wrap32(x: int): (r: u32)
    ensures 0 <= x < TWO_32 ==> r == x
    ensures -TWO_32 <= x < 0 ==> r == x + TWO_32
  {
    x % TWO_32
  }

  /** Go's `int32(x)`: the low 32 bits read as two's complement. */
  function ToI32(x: int): (r: i32)
    ensures -TWO_31 <= x < TWO_31 ==> r == x
    ensures (x - r) % TWO_32 == 0
  {
    var w := x % TWO_32;
    if w < TWO_31 then w else w - TWO_32
  }

  /** `minuint64` (object.go): the smaller of two values. */
  function Min64(a: u64, b: u64): (r: u64)
    ensures r <= a && r <= b
    ensures r == a || r == b
  {
    if a > b then b else a
  }
}
