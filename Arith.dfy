/** Integer facts shared by the index arithmetic of the frame codec and the aspect-ratio measurement. */
module Arith {

  /** A positive multiple of a positive number is at least that number. */
  lemma MulAtLeast(a: int, d: int)
    requires a >= 1 && d > 0
    ensures a * d >= d
  {
    assert a * d == (a - 1) * d + d;
    assert (a - 1) * d >= 0;
  }

  /** Euclidean division is determined by its quotient/remainder decomposition. */
  lemma DivModUnique(n: int, d: int, q: int, r: int)
    requires d > 0 && 0 <= r < d && n == q * d + r
    ensures n / d == q && n % d == r
  {
    var q', r' := n / d, n % d;
    assert n == q' * d + r';
    assert (q - q') * d == r' - r by {
      assert (q - q') * d == q * d - q' * d;
    }
    if q > q' {
      MulAtLeast(q - q', d);
    } else if q < q' {
      MulAtLeast(q' - q, d);
    }
  }

  /** Doubling one factor doubles the product. */
  lemma MulDouble(a: int, b: int)
    ensures a * (2 * b) == 2 * (a * b)
  {
  }

  /** Scaling both operands by the same positive factor does not change an integer quotient. */
  lemma DivScale(n: nat, d: int, k: int)
    requires d > 0 && k > 0
    ensures (k * n) / (k * d) == n / d
  {
    var q, r := n / d, n % d;
    assert n == q * d + r;
    assert k * n == q * (k * d) + k * r by {
      assert k * n == k * (q * d + r);
    }
    assert k * r < k * d by {
      assert k * d - k * r == k * (d - r);
      MulAtLeast(d - r, k);
    }
    DivModUnique(k * n, k * d, q, k * r);
  }

  /** Multiplication by a natural number is monotone. */
  lemma MulMonotoneNat(a: nat, b: nat, c: nat)
    requires a <= b
    ensures a * c <= b * c
  {
    assert b * c - a * c == (b - a) * c;
  }

  /** A strict inequality between multiples of a positive number holds between the factors. */
  lemma MulCancelLess(a: int, b: int, c: int)
    requires c > 0 && a * c < b * c
    ensures a < b
  {
    assert (b - a) * c == b * c - a * c;
  }

  /** The difference of two even numbers is even. */
  lemma EvenDifference(a: int, b: int)
    requires a % 2 == 0 && b % 2 == 0
    ensures (a - b) % 2 == 0
  {
    assert a - b == 2 * (a / 2 - b / 2);
  }
}
