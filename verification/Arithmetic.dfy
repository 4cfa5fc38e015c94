/** Facts about integer products and quotients that the solver should meet one at a time. */
module Arithmetic {
  lemma ProductNonNegative(a: nat, n: nat)
    ensures a * n >= 0
  {
  }

  lemma ProductDistributes(q: int, r: int, n: int)
    ensures (q - r) * n == q * n - r * n
  {
  }

  lemma ProductStep(q: int, n: int)
    ensures (q - 1) * n == q * n - n
  {
  }

  lemma ProductMonotone(q: int, r: int, n: int)
    requires q <= r && n > 0
    ensures q * n <= r * n
  {
    ProductNonNegative(r - q, n);
    ProductDistributes(r, q, n);
  }

  lemma ProductGap(q: int, r: int, n: int)
    requires q > r && n > 0
    ensures q * n >= r * n + n
  {
    ProductMonotone(r, q - 1, n);
    ProductStep(q, n);
  }

  /** No multiple of `n` lies strictly between zero and `n`. */
  lemma MultiplesApart(k: int, n: int)
    requires n > 0
    ensures k * n <= 0 || k * n >= n
  {
    if k >= 1 {
      ProductGap(k, 0, n);
    } else {
      ProductMonotone(k, 0, n);
    }
  }

  lemma FloorMonotone(a: int, b: int, n: int)
    requires n > 0 && a <= b
    ensures a / n <= b / n
  {
    var q, r := a / n, b / n;
    assert a == q * n + a % n && b == r * n + b % n;
    if q > r {
      ProductGap(q, r, n);
    }
  }

  lemma MultipleLeavesNothing(q: int, n: int)
    requires n > 0
    ensures (q * n) % n == 0
  {
    var r := (q * n) / n;
    assert q * n == r * n + (q * n) % n;
    ProductDistributes(q, r, n);
    MultiplesApart(q - r, n);
  }
}
