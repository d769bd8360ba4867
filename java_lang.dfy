/** Java's primitive `long` and the two library value types the entities
    carry without inspecting them. */
module JavaLang {

  const LONG_MIN: int := -0x8000_0000_0000_0000
  const LONG_MAX: int := 0x7fff_ffff_ffff_ffff

  /** A 64-bit two's-complement `long`. */
  newtype Long = x: int | -0x8000_0000_0000_0000 <= x < 0x8000_0000_0000_0000

  /** The value `x++` leaves behind: `x + 1` reduced modulo 2^64 into the
      `long` range, so the largest `long` wraps to the smallest. */
  function Inc(x: Long): (r: Long)
    ensures (r as int - (x as int + 1)) % 0x1_0000_0000_0000_0000 == 0
    ensures x as int < LONG_MAX ==> r as int == x as int + 1
    ensures x as int == LONG_MAX ==> r as int == LONG_MIN
  {
    if x == 0x7fff_ffff_ffff_ffff then -0x8000_0000_0000_0000 else x + 1
  }

  /** `java.util.Date`, held by the entities but never examined by the
      modelled code: only its millisecond count is kept. */
  datatype JavaDate = JavaDate(epochMillis: Long)

  /** `java.time.Duration`, likewise never examined. */
  datatype JavaDuration = JavaDuration(seconds: Long, nanos: int)
}
