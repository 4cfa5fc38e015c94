/** The risk measures by rank: a percentile is the sorted observation at its rank, linear in between. */
module RiskMeasures {
  import opened Prelude
  import opened RealProducts
  import opened ValueAtRisk

  /** The sample in ascending order. */
  ghost predicate Arranges(sorted: seq<real>, xs: seq<real>) {
    Ascending(sorted) && multiset(sorted) == multiset(xs)
  }

  lemma {:induction false} AscendingIsUnique(a: seq<real>, b: seq<real>)
    requires Ascending(a) && Ascending(b) && multiset(a) == multiset(b)
    ensures a == b
    decreases |a|
  {
    assert |a| == |multiset(a)| == |multiset(b)| == |b|;
    if a != [] {
      LastIsLargest(a, b);
      LastIsLargest(b, a);
      WithoutLast(a);
      WithoutLast(b);
      FrontAscends(a);
      FrontAscends(b);
      hide Ascending;
      AscendingIsUnique(Front(a), Front(b));
    }
  }

  lemma WithoutLast(a: seq<real>)
    requires a != []
    ensures a == Front(a) + [Last(a)] && multiset(Front(a)) == multiset(a) - multiset{Last(a)}
  {
    assert a == Front(a) + [Last(a)];
  }

  lemma FrontAscends(a: seq<real>)
    requires a != [] && Ascending(a)
    ensures Ascending(Front(a))
  {
  }

  lemma LastIsLargest(a: seq<real>, b: seq<real>)
    requires a != [] && b != [] && Ascending(b) && multiset(a) == multiset(b)
    ensures Last(a) <= Last(b)
  {
    assert Last(a) in multiset(a);
    assert Last(a) in b;
  }

  /** MAIN: the percentile at rank k of an ascending sample is its k-th observation, and at a rank in between it is the
      mean of its two neighbours weighted by nearness; the rank is the fraction of the way from first to last. */
  lemma PercentileIsRanked(xs: seq<real>, fraction: real, sorted: seq<real>, k: nat, part: real)
    requires xs != [] && 0.0 <= fraction <= 1.0 && Arranges(sorted, xs)
    requires Times(fraction, (|xs| - 1) as real) == k as real + part && 0.0 <= part < 1.0
    ensures k < |sorted| == |xs|
    ensures part == 0.0 ==> Percentile(xs, fraction) == sorted[k]
    ensures part > 0.0 ==>
              && k + 1 < |sorted|
              && Percentile(xs, fraction) == Times(1.0 - part, sorted[k]) + Times(part, sorted[k + 1])
  {
    SortSorts(xs);
    AscendingIsUnique(sorted, Sort(xs));
    IndexInRange(|xs| - 1, fraction);
    FloorIs(Times(fraction, (|xs| - 1) as real), k, part);
    if k + 1 < |sorted| {
      Weighted(part, sorted[k], sorted[k + 1]);
    }
    hide Times, Sort, Arranges;
  }

  lemma FloorIs(h: real, k: nat, part: real)
    requires h == k as real + part && 0.0 <= part < 1.0
    ensures h.Floor == k
  {
  }

  lemma Weighted(part: real, low: real, high: real)
    ensures low + Times(part, high - low) == Times(1.0 - part, low) + Times(part, high)
    ensures part == 0.0 ==> Times(part, high - low) == 0.0
  {
  }

  /** The tail keeps every observation at or below the cut, as often as it was made, and no other. */
  lemma {:induction false} TailCounts(xs: seq<real>, q: real, x: real)
    ensures multiset(Tail(xs, q))[x] == if x <= q then multiset(xs)[x] else 0
  {
    if xs != [] {
      TailCounts(xs[1..], q, x);
      assert xs == [xs[0]] + xs[1..];
    }
  }

  lemma {:induction false} SumAppends(xs: seq<real>, x: real)
    ensures Sum(xs + [x]) == Sum(xs) + x
  {
    if xs != [] {
      assert (xs + [x])[1..] == xs[1..] + [x];
      SumAppends(xs[1..], x);
    }
  }

  /** Both measures are losses: the value at risk is the percentile with its sign turned, and the shortfall the mean of
      the tail, negative ones counting as zero; an empty history risks nothing. */
  lemma MeasuresMean(history: seq<real>, confidence: real)
    requires 0.0 <= confidence <= 1.0
    ensures history == [] ==> VaR(history, confidence) == 0.0 == CVaR(history, confidence)
    ensures history != [] ==>
              var cut := Percentile(history, 1.0 - confidence);
              var tail := Tail(history, cut);
              && tail != []
              && (if cut <= 0.0 then VaR(history, confidence) == -cut else VaR(history, confidence) == 0.0)
              && (if Sum(tail) <= 0.0 then Times(CVaR(history, confidence), |tail| as real) == -Sum(tail)
                  else CVaR(history, confidence) == 0.0)
  {
    if history != [] {
      RiskMeasuresCohere(history, confidence, confidence);
      var tail := Tail(history, Cut(history, confidence));
      MeanIs(tail);
    }
    hide Percentile, Tail, Times, Sum, Mean;
  }

  lemma MeanIs(xs: seq<real>)
    requires xs != []
    ensures Times(Mean(xs), |xs| as real) == Sum(xs) && Times(-Mean(xs), |xs| as real) == -Sum(xs)
    ensures Mean(xs) <= 0.0 <==> Sum(xs) <= 0.0
  {
    hide Sum;
    var n := |xs| as real;
    assert Mean(xs) * n == Sum(xs);
    if Mean(xs) > 0.0 {
      TimesStrict(0.0, Mean(xs), n);
    } else {
      TimesMonotone(Mean(xs), 0.0, n);
    }
  }
}
