/** Signed 64-bit integers as the Go code sees them. */
module Int64 {

  const MIN_INT64: int := -0x8000_0000_0000_0000
  const MAX_INT64: int := 0x7FFF_FFFF_FFFF_FFFF
  const TWO_TO_64: int := 0x1_0000_0000_0000_0000

  predicate IsInt64(x: int) {
    MIN_INT64 <= x <= MAX_INT64
  }

  type int64 = x: int | IsInt64(x)

  /** `(*big.Int).Int64`: the low 64 bits of x read as a two's-complement int64.
      It is the identity exactly on the values that fit. */
  function Wrap(x: int): (r: int64)
    ensures (x - r) % TWO_TO_64 == 0
    ensures IsInt64(x) <==> r == x
  {
    var low := x % TWO_TO_64;
    if low > MAX_INT64 then low - TWO_TO_64 else low
  }
}
