/** Java value types the relay manipulates, and the Option wrapper used for Java's null. */
module Base {

  /** `None` stands for Java's `null` (or for "nothing came back"). */
  datatype Option<+T> = None | Some(value: T)

  /** A Java `byte`: signed, two's complement, -128..127. */
  newtype jbyte = b: int | -128 <= b < 128

  const LONG_MIN: int := -0x8000_0000_0000_0000
  const LONG_MAX: int := 0x7FFF_FFFF_FFFF_FFFF

  predicate InLongRange(n: int) {
    LONG_MIN <= n <= LONG_MAX
  }

  /** The value a Java `long` holds after a narrowing conversion of `n`: the low 64 bits, read signed. */
  function ToLong(n: int): (r: int)
    ensures InLongRange(r)
    ensures (r - n) % 0x1_0000_0000_0000_0000 == 0
    ensures InLongRange(n) ==> r == n
  {
    (n - LONG_MIN) % 0x1_0000_0000_0000_0000 + LONG_MIN
  }

  /** Java's `/` on integers: the quotient truncated toward zero (Dafny's `/` is Euclidean). */
  function JavaDiv(a: int, d: int): int
    requires d > 0
  {
    if a >= 0 then a / d else -((-a) / d)
  }
}
