/** The JavaScript arithmetic the age computation relies on, written out over
    unbounded integers. Dafny's own `/` and `%` are Euclidean; JavaScript's
    `%` truncates toward zero, and `Math.floor`/`Math.ceil` of a quotient
    round toward the two infinities.
 */
module JsMath {

  /** `Math.abs(a)`. */
  function Abs(a: int): (r: int)
    ensures r >= 0
    ensures r == a || r == -a
  {
    if a < 0 then -a else a
  }

  /** `Math.floor(a / b)` for a positive divisor: the largest `q` with
      `q * b <= a`. */
  function FloorDiv(a: int, b: int): (q: int)
    requires b > 0
    ensures q * b <= a < q * b + b
  {
    a / b
  }

  /** `Math.ceil(a / b)` for a positive divisor: the smallest `q` with
      `a <= q * b`. */
  function CeilDiv(a: int, b: int): (q: int)
    requires b > 0
    ensures q * b - b < a <= q * b
  {
    -((-a) / b)
  }

  /** `Math.trunc(a / b)` for a positive divisor: the quotient rounded toward
      zero. */
  function TruncDiv(a: int, b: int): (q: int)
    requires b > 0
    ensures a >= 0 ==> q * b <= a < q * b + b
    ensures a < 0 ==> q * b - b < a <= q * b
  {
    if a >= 0 then FloorDiv(a, b) else CeilDiv(a, b)
  }

  /** JavaScript's `a % b` for a positive divisor: the remainder takes the
      sign of the dividend. */
  function TruncRem(a: int, b: int): (r: int)
    requires b > 0
    ensures -b < r < b
    ensures a >= 0 ==> r >= 0
    ensures a <= 0 ==> r <= 0
    ensures a == TruncDiv(a, b) * b + r
  {
    if a >= 0 then a % b else -((-a) % b)
  }
}
