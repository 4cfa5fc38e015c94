/** Historical value at risk and expected shortfall of execution/risk_manager.py, in exact arithmetic:
    numpy's linearly interpolated percentile and the mean of the tail at or below it. */
module ValueAtRisk {
  import opened Prelude
  import opened RealProducts

  function Insert(x: real, sorted: seq<real>): seq<real> {
    if sorted == [] || x <= sorted[0] then [x] + sorted else [sorted[0]] + Insert(x, sorted[1..])
  }

  function Sort(xs: seq<real>): (sorted: seq<real>)
    ensures |sorted| == |xs|
  {
    if xs == [] then []
    else
      InsertLength(xs[0], Sort(xs[1..]));
      Insert(xs[0], Sort(xs[1..]))
  }

  lemma {:induction false} InsertLength(x: real, sorted: seq<real>)
    ensures |Insert(x, sorted)| == |sorted| + 1
  {
    if sorted != [] && x > sorted[0] {
      InsertLength(x, sorted[1..]);
    }
  }

  ghost predicate Ascending(xs: seq<real>) {
    forall i, j | 0 <= i <= j < |xs| :: xs[i] <= xs[j]
  }

  lemma {:induction false} InsertPermutes(x: real, sorted: seq<real>)
    ensures multiset(Insert(x, sorted)) == multiset(sorted) + multiset{x}
  {
    if sorted != [] && x > sorted[0] {
      InsertPermutes(x, sorted[1..]);
      assert sorted == [sorted[0]] + sorted[1..];
    }
  }

  ghost predicate AtLeast(xs: seq<real>, bound: real) {
    forall i | 0 <= i < |xs| :: bound <= xs[i]
  }

  lemma {:induction false} InsertBounded(x: real, sorted: seq<real>, bound: real)
    requires AtLeast(sorted, bound) && bound <= x
    ensures AtLeast(Insert(x, sorted), bound)
  {
    if sorted != [] && x > sorted[0] {
      assert forall i | 0 <= i < |sorted[1..]| :: sorted[1..][i] == sorted[i + 1];
      InsertBounded(x, sorted[1..], bound);
    }
  }

  lemma {:induction false} InsertSorts(x: real, sorted: seq<real>)
    requires Ascending(sorted)
    ensures Ascending(Insert(x, sorted))
  {
    if sorted != [] && x > sorted[0] {
      var head, tail := sorted[0], sorted[1..];
      assert forall i | 0 <= i < |tail| :: tail[i] == sorted[i + 1];
      InsertSorts(x, tail);
      InsertBounded(x, tail, head);
      hide Insert;
      Prepend(head, Insert(x, tail));
    }
  }

  lemma Prepend(head: real, tail: seq<real>)
    requires Ascending(tail) && AtLeast(tail, head)
    ensures Ascending([head] + tail)
  {
    var all := [head] + tail;
    assert forall i | 1 <= i < |all| :: all[i] == tail[i - 1];
  }

  lemma {:induction false} SortSorts(xs: seq<real>)
    ensures Ascending(Sort(xs)) && multiset(Sort(xs)) == multiset(xs)
  {
    if xs != [] {
      SortSorts(xs[1..]);
      InsertSorts(xs[0], Sort(xs[1..]));
      InsertPermutes(xs[0], Sort(xs[1..]));
      assert xs == [xs[0]] + xs[1..];
    }
  }

  /** The value at a fractional index of a sorted sample. */
  function ValueAt(sorted: seq<real>, h: real): real
    requires 0.0 <= h <= (|sorted| - 1) as real
  {
    var k := h.Floor;
    if k + 1 >= |sorted| then sorted[k] else sorted[k] + Times(h - k as real, sorted[k + 1] - sorted[k])
  }

  /** numpy.percentile, with the percentage given as a fraction. */
  function Percentile(xs: seq<real>, fraction: real): real
    requires xs != [] && 0.0 <= fraction <= 1.0
  {
    IndexInRange(|xs| - 1, fraction);
    ValueAt(Sort(xs), Times(fraction, (|xs| - 1) as real))
  }

  lemma IndexInRange(last: nat, fraction: real)
    requires 0.0 <= fraction <= 1.0
    ensures 0.0 <= Times(fraction, last as real) <= last as real
  {
    Fraction(fraction, last as real);
  }

  function Tail(xs: seq<real>, q: real): seq<real> {
    if xs == [] then [] else (if xs[0] <= q then [xs[0]] else []) + Tail(xs[1..], q)
  }

  function Sum(xs: seq<real>): real {
    if xs == [] then 0.0 else xs[0] + Sum(xs[1..])
  }

  function Mean(xs: seq<real>): real
    requires xs != []
  {
    Sum(xs) / |xs| as real
  }

  /** The quantile that both measures are about. */
  function Cut(history: seq<real>, confidence: real): real
    requires history != [] && 0.0 <= confidence <= 1.0
  {
    Percentile(history, 1.0 - confidence)
  }

  function VaR(history: seq<real>, confidence: real): real
    requires 0.0 <= confidence <= 1.0
  {
    if history == [] then 0.0 else MaxReal(0.0, -Cut(history, confidence))
  }

  function CVaR(history: seq<real>, confidence: real): real
    requires 0.0 <= confidence <= 1.0
  {
    if history == [] then 0.0
    else
      var tail := Tail(history, Cut(history, confidence));
      if tail == [] then 0.0 else MaxReal(0.0, -Mean(tail))
  }

  // ---------------------------------------------------------------- percentiles

  lemma ValueBetween(sorted: seq<real>, h: real)
    requires Ascending(sorted) && 0.0 <= h <= (|sorted| - 1) as real
    ensures sorted[h.Floor] <= ValueAt(sorted, h)
    ensures h.Floor + 1 < |sorted| ==> ValueAt(sorted, h) <= sorted[h.Floor + 1]
  {
    var k := h.Floor;
    if k + 1 < |sorted| {
      var gap := sorted[k + 1] - sorted[k];
      assert gap >= 0.0;
      Fraction(h - k as real, gap);
    }
  }

  lemma Fraction(part: real, gap: real)
    requires 0.0 <= part <= 1.0 && gap >= 0.0
    ensures 0.0 <= Times(part, gap) <= gap
  {
    TimesMonotone(0.0, part, gap);
    TimesMonotone(part, 1.0, gap);
  }

  lemma ValueMonotone(sorted: seq<real>, a: real, b: real)
    requires Ascending(sorted) && 0.0 <= a <= b <= (|sorted| - 1) as real
    ensures ValueAt(sorted, a) <= ValueAt(sorted, b)
  {
    var j, k := a.Floor, b.Floor;
    ValueBetween(sorted, a);
    ValueBetween(sorted, b);
    if j == k {
      if k + 1 < |sorted| {
        TimesMonotone(a - k as real, b - k as real, sorted[k + 1] - sorted[k]);
      }
    } else {
      assert j + 1 <= k && sorted[j + 1] <= sorted[k];
    }
  }

  lemma PercentileMonotone(xs: seq<real>, a: real, b: real)
    requires xs != [] && 0.0 <= a <= b <= 1.0
    ensures Percentile(xs, a) <= Percentile(xs, b)
  {
    var last := (|xs| - 1) as real;
    IndexInRange(|xs| - 1, a);
    IndexInRange(|xs| - 1, b);
    TimesMonotone(a, b, last);
    SortSorts(xs);
    hide Times, Sort;
    ValueMonotone(Sort(xs), Times(a, last), Times(b, last));
  }

  /** Some observation is at or below every percentile. */
  lemma PercentileReached(xs: seq<real>, fraction: real) returns (x: real)
    requires xs != [] && 0.0 <= fraction <= 1.0
    ensures x in xs && x <= Percentile(xs, fraction)
  {
    var h := Times(fraction, (|xs| - 1) as real);
    IndexInRange(|xs| - 1, fraction);
    SortSorts(xs);
    hide Times, Sort;
    ValueBetween(Sort(xs), h);
    x := Sort(xs)[h.Floor];
    assert x in multiset(Sort(xs));
  }

  // ---------------------------------------------------------------- tails

  lemma {:induction false} TailMembers(xs: seq<real>, q: real)
    ensures forall x | x in xs && x <= q :: x in Tail(xs, q)
  {
    if xs != [] {
      TailMembers(xs[1..], q);
    }
  }

  /** A wider tail adds observations above the narrower cut. */
  lemma {:induction false} TailsCompare(xs: seq<real>, low: real, high: real)
    requires low <= high
    ensures |Tail(xs, low)| <= |Tail(xs, high)|
    ensures Sum(Tail(xs, low)) <= Times(|Tail(xs, low)| as real, low)
    ensures Sum(Tail(xs, high)) >= Sum(Tail(xs, low)) + Times((|Tail(xs, high)| - |Tail(xs, low)|) as real, low)
  {
    if xs != [] {
      TailsCompare(xs[1..], low, high);
      var a, b := Tail(xs[1..], low), Tail(xs[1..], high);
      OneMore(|a| as real, low);
      OneMore((|b| - |a|) as real, low);
      hide Times;
      assert Tail(xs, low) == if xs[0] <= low then [xs[0]] + a else a;
      assert Tail(xs, high) == if xs[0] <= high then [xs[0]] + b else b;
      assert ([xs[0]] + a)[1..] == a && ([xs[0]] + b)[1..] == b;
    }
  }

  lemma OneMore(n: real, x: real)
    ensures Times(n + 1.0, x) == Times(n, x) + x
  {
  }

  /** Adding observations above a bound on the mean cannot lower the mean. */
  lemma MeanGrows(s1: real, n1: real, s2: real, n2: real, bound: real)
    requires 0.0 < n1 <= n2 && s1 <= Times(n1, bound) && s2 >= s1 + Times(n2 - n1, bound)
    ensures s1 / n1 <= s2 / n2
    ensures s1 / n1 <= bound
  {
    var mean := s1 / n1;
    assert s1 == mean * n1;
    assert (mean - bound) * n1 <= 0.0;
    assert (bound - mean) * (n2 - n1) >= 0.0;
    assert s2 >= mean * n2;
    QuotientAtLeast(s2, n2, mean);
  }

  lemma QuotientAtLeast(value: real, n: real, mean: real)
    requires n > 0.0 && value >= mean * n
    ensures value / n >= mean
  {
  }

  lemma TailMeans(xs: seq<real>, low: real, high: real, x: real)
    requires low <= high && x in xs && x <= low
    ensures Tail(xs, low) != [] && Tail(xs, high) != []
    ensures Mean(Tail(xs, low)) <= Mean(Tail(xs, high)) && Mean(Tail(xs, low)) <= low
  {
    TailMembers(xs, low);
    TailMembers(xs, high);
    TailsCompare(xs, low, high);
    hide Times, Sum, Tail;
    MeanGrows(Sum(Tail(xs, low)), |Tail(xs, low)| as real, Sum(Tail(xs, high)), |Tail(xs, high)| as real, low);
  }

  /** MAIN: for every nonempty return history the tail is never empty, the shortfall is at least the value
      at risk, and both grow with the confidence level. */
  lemma RiskMeasuresCohere(history: seq<real>, c: real, d: real)
    requires history != [] && 0.0 <= c <= d <= 1.0
    ensures Tail(history, Cut(history, c)) != []
    ensures 0.0 <= VaR(history, c) <= CVaR(history, c)
    ensures VaR(history, c) <= VaR(history, d)
    ensures CVaR(history, c) <= CVaR(history, d)
  {
    PercentileMonotone(history, 1.0 - d, 1.0 - c);
    var x := PercentileReached(history, 1.0 - d);
    hide Percentile, Tail, Mean;
    TailMeans(history, Cut(history, d), Cut(history, c), x);
    TailMeans(history, Cut(history, c), Cut(history, c), x);
  }

  // ---------------------------------------------------------------- the history window

  /** record_return: append and keep the newest `window` returns; a window of zero slices off nothing. */
  function RecordReturn(history: seq<real>, window: nat, r: real): seq<real> {
    var added := history + [r];
    if |added| > window && window > 0 then added[|added| - window..] else added
  }

  function RecordAll(window: nat, rs: seq<real>): seq<real> {
    if rs == [] then [] else RecordReturn(RecordAll(window, Front(rs)), window, Last(rs))
  }

  /** MAIN: after any run the history is the newest `window` returns, or all of them when there are fewer or
      the window is zero. */
  lemma {:induction false} HistoryIsNewest(window: nat, rs: seq<real>)
    ensures RecordAll(window, rs)
         == if window > 0 && |rs| > window then rs[|rs| - window..] else rs
  {
    if rs != [] {
      HistoryIsNewest(window, Front(rs));
      assert rs == Front(rs) + [Last(rs)];
    }
  }
}
