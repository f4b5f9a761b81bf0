/** The few Kotlin/JVM primitives the recording logic relies on:
    64-bit `Long` arithmetic with two's-complement wrap-around, `maxOf`,
    32-bit `Float` values (copied, never computed on) and nullable references. */
module Kotlin {

  const LONG_MIN: int := -0x8000_0000_0000_0000
  const LONG_MAX: int := 0x7FFF_FFFF_FFFF_FFFF
  const LONG_MODULUS: int := 0x1_0000_0000_0000_0000

  /** Kotlin's `Long`: a signed 64-bit integer. */
  newtype Long = x: int | -0x8000_0000_0000_0000 <= x < 0x8000_0000_0000_0000

  predicate InLongRange(x: int) {
    LONG_MIN <= x <= LONG_MAX
  }

  /** `a - b` on `Long`: exact when the difference fits, otherwise it wraps
      around modulo 2^64 as the JVM's `lsub` does. */
  function Minus(a: Long, b: Long): (r: Long)
    ensures InLongRange(a as int - b as int) ==> r as int == a as int - b as int
    ensures (r as int - (a as int - b as int)) % LONG_MODULUS == 0
  {
    var d := a as int - b as int;
    if d > LONG_MAX then (d - LONG_MODULUS) as Long
    else if d < LONG_MIN then (d + LONG_MODULUS) as Long
    else d as Long
  }

  /** Kotlin's `maxOf(a, b)` on `Long`. */
  function MaxOf(a: Long, b: Long): (r: Long)
    ensures r >= a && r >= b
    ensures r == a || r == b
  {
    if a >= b then a else b
  }

  /** A 32-bit `Float` held as its IEEE 754 bit pattern. The recording logic
      only copies sensor values, so their bits are all that matters. */
  datatype Float32 = Float32(bits: bv32)

  /** `0.0f`, the initial value of every `FloatArray` element. */
  const FLOAT_ZERO: Float32 := Float32(0)

  /** A nullable reference `T?`. */
  datatype Option<T> = None | Some(value: T)
}
