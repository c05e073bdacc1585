// Integer facts about multiplication, Euclidean division and remainder that
// the index arithmetic of the ring (`% size`) and of the histogram labels
// (`% interval`) rests on.
module Arith {
  lemma MulMonotone(d: int, a: int, b: int)
    requires d >= 0 && a <= b
    ensures d * a <= d * b
  {
    assert d * b - d * a == d * (b - a);
  }

  lemma MulAwayFromZero(q: int, d: int)
    requires q > 0
    ensures d >= 1 ==> q * d >= q
    ensures d <= -1 ==> q * d <= -q
  {
    if d >= 1 {
      MulMonotone(q, 1, d);
    } else if d <= -1 {
      MulMonotone(q, d, -1);
    }
  }

  /** Quotient and remainder are determined by `x == q * k + r` with `0 <= r < q`. */
  lemma DivModUnique(x: int, q: int, k: int, r: int)
    requires q > 0 && 0 <= r < q && x == q * k + r
    ensures x / q == k && x % q == r
  {
    var k2, r2 := x / q, x % q;
    assert q * (k - k2) == r2 - r;
    MulAwayFromZero(q, k - k2);
  }

  /** Reducing a value that is at most one lap out of range. */
  lemma ModWrap(x: int, n: int)
    requires n > 0 && -n <= x < 2 * n
    ensures x % n == if x < 0 then x + n else if x < n then x else x - n
  {
    if x < 0 {
      DivModUnique(x, n, -1, x + n);
    } else if x < n {
      DivModUnique(x, n, 0, x);
    } else {
      DivModUnique(x, n, 1, x - n);
    }
  }

  /** The successor of a multiple of `q >= 2` is not a multiple of `q`. */
  lemma NoAdjacentMultiples(i: int, q: int)
    requires q >= 2 && i % q == 0
    ensures (i + 1) % q == 1
  {
    DivModUnique(i, q, i / q, 0);
    DivModUnique(i + 1, q, i / q, 1);
  }
}
