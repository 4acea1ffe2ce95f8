/**
 * Java integer semantics that the mod relies on and that differ from Dafny's:
 * `/` and `%` on `int` truncate toward zero (Dafny's are Euclidean), and a
 * `(byte)` cast keeps the low eight bits as a two's-complement value.
 */
module JavaInts {

  /** A Java `byte`. */
  newtype int8 = x: int | -128 <= x < 128

  /** Java's `a / b` for a positive divisor: the quotient truncated toward zero. */
  function TDiv(a: int, b: int): (q: int)
    requires b > 0
    ensures 0 <= a ==> q * b <= a < q * b + b
    ensures a < 0 ==> q * b - b < a <= q * b
  {
    if a >= 0 then a / b else -((-a) / b)
  }

  /** Java's `a % b` for a positive divisor: the remainder takes the sign of `a`. */
  function JRem(a: int, b: int): (r: int)
    requires b > 0
    ensures a == TDiv(a, b) * b + r
    ensures 0 <= a ==> 0 <= r < b
    ensures a < 0 ==> -b < r <= 0
  {
    a - TDiv(a, b) * b
  }

  /** Java's `(byte) v`: the unique byte congruent to `v` modulo 256. */
  function ToInt8(v: int): (r: int8)
    ensures (v - r as int) % 256 == 0
    ensures -128 <= v < 128 ==> r as int == v
  {
    ((v + 128) % 256 - 128) as int8
  }

  /** The byte cast keeps the values 0..255 apart: it is injective on that range. */
  lemma ToInt8Injective(u: int, v: int)
    requires 0 <= u < 256 && 0 <= v < 256
    requires ToInt8(u) == ToInt8(v)
    ensures u == v
  {
  }
}
