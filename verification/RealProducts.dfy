/** A named product of reals, so that proofs can hide the multiplication and meet its laws one at a time. */
module RealProducts {
  function Times(a: real, b: real): real {
    a * b
  }

  lemma TimesUnits(a: real)
    ensures Times(0.0, a) == 0.0 == Times(a, 0.0)
    ensures Times(1.0, a) == a == Times(a, 1.0)
    ensures Times(a, -1.0) == -a
  {
  }

  lemma TimesNegates(a: real, b: real)
    ensures Times(-a, b) == -Times(a, b)
  {
  }

  lemma TimesAdds(a: real, x: real, y: real)
    ensures Times(a, x + y) == Times(a, x) + Times(a, y)
    ensures Times(x + y, a) == Times(x, a) + Times(y, a)
  {
  }

  lemma TimesSubtracts(a: real, x: real, y: real)
    ensures Times(a, x - y) == Times(a, x) - Times(a, y)
  {
  }

  lemma TimesQuotient(a: real, b: real)
    requires b != 0.0
    ensures Times(b, a / b) == a
  {
  }

  lemma TimesMonotone(a: real, b: real, factor: real)
    requires a <= b && factor >= 0.0
    ensures Times(a, factor) <= Times(b, factor)
    ensures Times(factor, a) <= Times(factor, b)
  {
  }

  lemma TimesStrict(a: real, b: real, factor: real)
    requires a < b && factor > 0.0
    ensures Times(a, factor) < Times(b, factor)
    ensures Times(factor, a) < Times(factor, b)
  {
  }

  lemma TimesReflects(a: real, b: real, factor: real)
    requires factor > 0.0 && Times(a, factor) <= Times(b, factor)
    ensures a <= b
  {
    assert (b - a) * factor >= 0.0;
  }
}
