/**
 * Go's 64-bit `int`: its range, its wrap-around on overflow and its
 * division, which truncates toward zero (Dafny's `/` is Euclidean).
 */
module GoInt {

  const MinInt64: int := -0x8000_0000_0000_0000
  const MaxInt64: int := 0x7fff_ffff_ffff_ffff

  type Int64 = x: int | MinInt64 <= x <= MaxInt64

  /** Two's-complement wrap-around of a mathematical integer into 64 bits. */
  function Wrap(x: int): (r: Int64)
    ensures (r - x) % 0x1_0000_0000_0000_0000 == 0
    ensures MinInt64 <= x <= MaxInt64 ==> r == x
  {
    var m := (x - MinInt64) % 0x1_0000_0000_0000_0000;
    m + MinInt64
  }

  /** Go's `a / 2`: the quotient rounded toward zero. */
  function Half(a: int): (r: int)
    ensures a >= 0 ==> 0 <= 2 * r <= a && a - 2 * r < 2
    ensures a < 0 ==> a <= 2 * r <= 0 && 2 * r - a < 2
  {
    if a >= 0 then a / 2 else -((-a) / 2)
  }

  /** The truncating mean of two ordered values lies between them. */
  lemma HalfOfSumBetween(lo: int, hi: int)
    requires lo <= hi
    ensures lo <= Half(lo + hi) <= hi
  {
  }
}
