/** Go's `int32` on top of Dafny's unbounded integers. */
module Int32 {

  const MAX: int := 0x7fff_ffff
  const MIN: int := -0x8000_0000

  predicate Fits(x: int) {
    MIN <= x <= MAX
  }

  /** Two's-complement wrap-around of a mathematical result. */
  function Wrap(x: int): (r: int)
    ensures Fits(r)
    ensures (x - r) % 0x1_0000_0000 == 0
    ensures Fits(x) ==> r == x
  {
    if Fits(x) then x else (x - MIN) % 0x1_0000_0000 + MIN
  }

  /** Go's `%`: the quotient is truncated toward zero, so the remainder has the sign of `a`. */
  function TruncRem(a: int, n: int): (r: int)
    requires n > 0
    ensures -n < r < n
    ensures a >= 0 ==> r >= 0
    ensures a <= 0 ==> r <= 0
  {
    if a >= 0 then a % n else -((-a) % n)
  }
}
