/** Facts about products, quotients and sizes that the other modules share. */
module Arithmetic {

  lemma NonNegative(a: int, b: int)
    requires a >= 0 && b >= 0
    ensures a * b >= 0
  {
  }

  lemma Scale(b: int, m: int, n: int)
    requires b >= 0 && m <= n
    ensures b * m <= b * n && m * b <= n * b
  {
  }

  lemma AtLeastOnce(b: int, k: int)
    requires b > 0 && k > 0
    ensures b * k >= b
  {
  }

  lemma Distributes(b: int, m: int, n: int)
    ensures b * n - b * m == b * (n - m)
  {
  }

  lemma MultiplesApart(b: int, m: int, n: int)
    requires b > 0
    ensures m < n ==> b * m + b <= b * n
    ensures n < m ==> b * n + b <= b * m
  {
    Distributes(b, m, n);
    Distributes(b, n, m);
    if m < n {
      AtLeastOnce(b, n - m);
    } else if n < m {
      AtLeastOnce(b, m - n);
    }
  }

  lemma QuotientUnique(a: int, b: int, q: int)
    requires b > 0 && b * q <= a < b * q + b
    ensures a / b == q
  {
    MultiplesApart(b, a / b, q);
  }

  lemma ProductBounds(a: nat, b: nat, a0: nat, a1: nat, b0: nat, b1: nat)
    requires a0 <= a <= a1 && b0 <= b <= b1
    ensures a0 * b0 <= a * b <= a1 * b1
  {
  }

  lemma QuotientBounds(a: nat, b: nat)
    requires b > 0
    ensures b * (a / b) <= a < b * (a / b) + b && a / b <= a
  {
    assert a == b * (a / b) + a % b;
    Scale(a / b, 1, b);
  }

  lemma CancelsAbove(b: nat, x: nat, y: nat)
    requires b > 0 && b * x <= b * y
    ensures x <= y
  {
  }

  /** Rounding up: the least multiple that covers. */
  lemma CeilingCovers(a: nat, b: nat)
    requires a > 0 && b > 0
    ensures var q := (a + b - 1) / b; q > 0 && q * b >= a && (q - 1) * b < a && (q - 1) * b + b == q * b
  {
  }

  lemma MultipleHasNoRest(b: nat, q: nat)
    requires b > 0
    ensures (q * b) % b == 0
  {
    QuotientUnique(q * b, b, q);
  }

  /** A value equals its rounding up exactly if it is a multiple. */
  lemma WholeIsCeiling(a: nat, b: nat)
    requires a > 0 && b > 0
    ensures (a + b - 1) / b * b <= a <==> a % b == 0
  {
    CeilingCovers(a, b);
    var q, x := (a + b - 1) / b, a / b;
    assert a == b * x + a % b;
    MultiplesApart(b, x, q);
    MultiplesApart(b, q - 1, x);
    MultipleHasNoRest(b, q);
  }

  /** What bounds a value in multiples bounds its rounding up, and whatever is above that covers the value. */
  lemma CeilingBounds(a: nat, b: nat, limit: nat)
    requires a > 0 && b > 0
    ensures var q := (a + b - 1) / b; (a <= limit * b ==> q <= limit) && (q <= limit ==> a <= limit * b)
  {
    CeilingCovers(a, b);
    var q := (a + b - 1) / b;
    MultiplesApart(b, limit, q - 1);
    if q <= limit {
      Scale(b, q, limit);
    }
    if a <= limit * b && q > limit {
      Scale(b, limit, q - 1);
      assert false;
    }
  }

  lemma SubsetSize<T(!new)>(a: set<T>, b: set<T>)
    requires a <= b
    ensures |a| <= |b|
  {
    assert b == a + (b - a);
  }
}
