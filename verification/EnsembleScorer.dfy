/** Ensemble weights of engine/ensemble_scorer.py. Weights, priors and predictions are listed in model order. */
module EnsembleScoring {
  import opened Prelude
  import opened RealProducts

  const LEARNING_RATE := 0.01
  const WEIGHT_FLOOR := 0.01

  /** What one call of the update learns: each model's prediction, the calibrated one and the outcome. */
  datatype Round = Round(predictions: seq<real>, calibrated: real, actual: real)

  function Total(ws: seq<real>): real
    decreases |ws|
  {
    if ws == [] then 0.0 else Total(Front(ws)) + Last(ws)
  }

  /** A named quotient, so that proofs can hide the division. */
  function Quotient(a: real, b: real): real
    requires b > 0.0
  {
    a / b
  }

  function Shares(ws: seq<real>, total: real): (shares: seq<real>)
    requires total > 0.0
    ensures |shares| == |ws|
  {
    seq(|ws|, i requires 0 <= i < |ws| => Quotient(ws[i], total))
  }

  function Clamped(ws: seq<real>): (clamped: seq<real>)
    ensures |clamped| == |ws|
  {
    seq(|ws|, i requires 0 <= i < |ws| => MaxReal(0.0, ws[i]))
  }

  function Ones(n: nat): (ones: seq<real>)
    ensures |ones| == n
  {
    seq(n, i => 1.0)
  }

  /** Negative weights count as zero; weights without a positive total become uniform. */
  function Normalized(ws: seq<real>): (shares: seq<real>)
    requires ws != []
    ensures |shares| == |ws|
  {
    var clamped := Clamped(ws);
    if Total(clamped) <= 0.0 then Shares(Ones(|ws|), |ws| as real) else Shares(clamped, Total(clamped))
  }

  /** One model's weight before normalisation: models nearer the outcome than the ensemble gain, others lose half
      as much. */
  function Moved(w: real, prediction: real, calibrated: real, actual: real): real {
    var error := AbsReal(actual - calibrated);
    MaxReal(WEIGHT_FLOOR,
            w + if AbsReal(actual - prediction) < error then LEARNING_RATE * error else -LEARNING_RATE * error * 0.5)
  }

  function Adjusted(ws: seq<real>, r: Round): (adjusted: seq<real>)
    requires |r.predictions| == |ws|
    ensures |adjusted| == |ws|
  {
    seq(|ws|, i requires 0 <= i < |ws| => Moved(ws[i], r.predictions[i], r.calibrated, r.actual))
  }

  function Updated(ws: seq<real>, r: Round): (updated: seq<real>)
    requires ws != [] && |r.predictions| == |ws|
    ensures |updated| == |ws|
  {
    Normalized(Adjusted(ws, r))
  }

  function Blended(ws: seq<real>, prior: seq<real>): (blended: seq<real>)
    requires |ws| == |prior|
    ensures |blended| == |ws|
  {
    seq(|ws|, i requires 0 <= i < |ws| => Times(ws[i], prior[i]))
  }

  function Dot(predictions: seq<real>, ws: seq<real>): real
    requires |predictions| == |ws|
  {
    Total(Blended(predictions, ws))
  }

  /** The ensemble output before it is clipped. */
  function Unclipped(predictions: seq<real>, ws: seq<real>): real
    requires |predictions| == |ws|
  {
    if Total(ws) > 0.0 then Quotient(Dot(predictions, ws), Total(ws)) else 0.5
  }

  function Clip(x: real): real {
    MinReal(MaxReal(x, 0.0), 1.0)
  }

  class EnsembleScorer {
    const models: nat
    var weights: seq<real>
    var regimeWeights: map<string, seq<real>>

    ghost predicate Valid()
      reads this
    {
      && models > 0
      && |weights| == models
      && Simplex(weights)
      && forall regime <- regimeWeights :: |regimeWeights[regime]| == models
    }

    constructor (defaultWeights: seq<real>)
      requires defaultWeights != []
      ensures Valid() && models == |defaultWeights| && weights == Normalized(defaultWeights)
      ensures regimeWeights == map[]
    {
      models := |defaultWeights|;
      weights := Normalized(defaultWeights);
      regimeWeights := map[];
      NormalizedIsSimplex(defaultWeights);
    }

    method SetRegimeWeights(regime: string, prior: seq<real>)
      requires Valid() && |prior| == models
      modifies this`regimeWeights
      ensures Valid() && regimeWeights == old(regimeWeights)[regime := Clamped(prior)]
    {
      regimeWeights := regimeWeights[regime := Clamped(prior)];
    }

    /** The weights in force for a regime; a regime without a prior keeps the learned weights' proportions. */
    function RegimeWeights(regime: string): (ws: seq<real>)
      requires Valid()
      reads this
      ensures |ws| == models
    {
      Normalized(Blended(weights, if regime in regimeWeights then regimeWeights[regime] else Ones(models)))
    }

    /** MAIN: under every regime, the unclipped output lies between any bounds on the models' predictions, so
        clipping does nothing to models that predict probabilities. */
    method Predict(predictions: seq<real>, regime: string, useRegimeWeights: bool) returns (raw: real)
      requires Valid() && |predictions| == models
      ensures var ws := if useRegimeWeights then RegimeWeights(regime) else weights;
              raw == Clip(Dot(predictions, ws)) && Simplex(ws)
      ensures forall lo, hi :: 0.0 <= lo <= hi <= 1.0 && Within(predictions, lo, hi) ==> lo <= raw <= hi
    {
      hide Total, Clip, Normalized, Blended;
      var ws := if useRegimeWeights then RegimeWeights(regime) else weights;
      NormalizedIsSimplex(Blended(weights, if regime in regimeWeights then regimeWeights[regime] else Ones(models)));
      raw := Clip(Unclipped(predictions, ws));
      UnclippedOnSimplex(predictions, ws);
      forall lo, hi | 0.0 <= lo <= hi <= 1.0 && Within(predictions, lo, hi)
        ensures lo <= raw <= hi
      {
        OutputIsConvex(predictions, ws, lo, hi);
        ClipInside(Unclipped(predictions, ws), lo, hi);
      }
    }

    method UpdateWeights(r: Round)
      requires Valid() && |r.predictions| == models
      modifies this`weights
      ensures Valid() && weights == Updated(old(weights), r)
    {
      var error := r.actual - r.calibrated;
      for i := 0 to models
        invariant |weights| == models
        invariant weights[i..] == old(weights)[i..]
        invariant weights[..i] == Adjusted(old(weights), r)[..i]
      {
        var modelError := r.actual - r.predictions[i];
        var adjustment := if AbsReal(modelError) < AbsReal(error) then LEARNING_RATE * AbsReal(error)
                          else -LEARNING_RATE * AbsReal(error) * 0.5;
        weights := weights[i := MaxReal(WEIGHT_FLOOR, weights[i] + adjustment)];
      }
      assert weights == Adjusted(old(weights), r);
      NormalizedIsSimplex(weights);
      weights := Normalized(weights);
    }
  }

  // ---------------------------------------------------------------- quotients and totals

  lemma QuotientAdds(a: real, b: real, t: real)
    requires t > 0.0
    ensures Quotient(a + b, t) == Quotient(a, t) + Quotient(b, t)
  {
  }

  lemma QuotientOfZero(t: real)
    requires t > 0.0
    ensures Quotient(0.0, t) == 0.0 && Quotient(t, t) == 1.0
  {
  }

  lemma QuotientByOne(a: real)
    ensures Quotient(a, 1.0) == a
  {
  }

  lemma QuotientMonotone(a: real, b: real, t: real)
    requires t > 0.0 && a <= b
    ensures Quotient(a, t) <= Quotient(b, t)
  {
  }

  lemma QuotientAntitone(a: real, t: real, u: real)
    requires a >= 0.0 && 0.0 < t <= u
    ensures Quotient(a, u) <= Quotient(a, t)
  {
    var q := Quotient(a, u);
    assert q * u == a && q >= 0.0;
    assert q * t <= a;
    assert Quotient(q * t, t) == q;
    QuotientMonotone(q * t, a, t);
  }

  lemma {:induction false} TotalOfShares(ws: seq<real>, t: real)
    requires t > 0.0
    ensures Total(Shares(ws, t)) == Quotient(Total(ws), t)
    decreases |ws|
  {
    hide Quotient;
    QuotientOfZero(t);
    if ws != [] {
      TotalOfShares(Front(ws), t);
      assert Front(Shares(ws, t)) == Shares(Front(ws), t);
      QuotientAdds(Total(Front(ws)), Last(ws), t);
    }
  }

  lemma {:induction false} TotalOfOnes(n: nat)
    ensures Total(Ones(n)) == n as real
    decreases n
  {
    if n > 0 {
      TotalOfOnes(n - 1);
      assert Front(Ones(n)) == Ones(n - 1);
    }
  }

  lemma {:induction false} TotalAtMost(a: seq<real>, b: seq<real>, step: real)
    requires |a| == |b| && forall i :: 0 <= i < |a| ==> a[i] <= b[i] + step
    ensures Total(a) <= Total(b) + Times(step, |a| as real)
    decreases |a|
  {
    hide Times;
    TimesUnits(step);
    if a != [] {
      TotalAtMost(Front(a), Front(b), step);
      TimesAdds(step, (|a| - 1) as real, 1.0);
      assert |a| as real == (|a| - 1) as real + 1.0;
    }
  }

  lemma {:induction false} TotalNonNegative(ws: seq<real>, low: real)
    requires low >= 0.0 && AtLeast(ws, low)
    ensures Total(ws) >= 0.0 && (ws != [] ==> Total(ws) >= low)
    decreases |ws|
  {
    if ws != [] {
      TotalNonNegative(Front(ws), low);
    }
  }

  // ---------------------------------------------------------------- the simplex and its floor

  predicate AtLeast(ws: seq<real>, low: real) {
    forall i :: 0 <= i < |ws| ==> ws[i] >= low
  }

  /** A distribution over the models. */
  predicate Simplex(ws: seq<real>) {
    ws != [] && AtLeast(ws, 0.0) && Total(ws) == 1.0
  }

  lemma SharesAreSimplex(ws: seq<real>)
    requires ws != [] && AtLeast(ws, 0.0) && Total(ws) > 0.0
    ensures Simplex(Shares(ws, Total(ws)))
  {
    hide Quotient, Total;
    var t := Total(ws);
    TotalOfShares(ws, t);
    QuotientOfZero(t);
    forall i | 0 <= i < |ws|
      ensures Shares(ws, t)[i] >= 0.0
    {
      QuotientMonotone(0.0, ws[i], t);
    }
  }

  lemma NormalizedIsSimplex(ws: seq<real>)
    requires ws != []
    ensures Simplex(Normalized(ws))
  {
    hide Total, Simplex, Quotient;
    TotalOfOnes(|ws|);
    if Total(Clamped(ws)) <= 0.0 {
      SharesAreSimplex(Ones(|ws|));
    } else {
      SharesAreSimplex(Clamped(ws));
    }
  }

  /** The smallest weight any of n models can fall to. */
  function Floor(n: nat): real {
    Quotient(WEIGHT_FLOOR, 1.0 + Times(LEARNING_RATE, n as real))
  }

  predicate Probability(x: real) {
    0.0 <= x <= 1.0
  }

  lemma AdjustedBounds(ws: seq<real>, r: Round)
    requires Simplex(ws) && |r.predictions| == |ws| && Probability(r.calibrated) && Probability(r.actual)
    ensures AtLeast(Adjusted(ws, r), WEIGHT_FLOOR)
    ensures 0.0 < Total(Adjusted(ws, r)) <= 1.0 + Times(LEARNING_RATE, |ws| as real)
  {
    hide Times, Total;
    TotalAtMost(Adjusted(ws, r), ws, LEARNING_RATE);
    TotalNonNegative(Adjusted(ws, r), WEIGHT_FLOOR);
  }

  /** One update keeps the simplex and lifts every weight to the floor. */
  lemma UpdateHasFloor(ws: seq<real>, r: Round)
    requires Simplex(ws) && |r.predictions| == |ws| && Probability(r.calibrated) && Probability(r.actual)
    ensures Simplex(Updated(ws, r)) && AtLeast(Updated(ws, r), Floor(|ws|))
  {
    hide Times, Total, Quotient, Adjusted;
    var adjusted := Adjusted(ws, r);
    var t := Total(adjusted);
    AdjustedBounds(ws, r);
    NormalizedIsSimplex(adjusted);
    assert Clamped(adjusted) == adjusted;
    forall i | 0 <= i < |ws|
      ensures Updated(ws, r)[i] >= Floor(|ws|)
    {
      QuotientMonotone(WEIGHT_FLOOR, adjusted[i], t);
      QuotientAntitone(WEIGHT_FLOOR, t, 1.0 + Times(LEARNING_RATE, |ws| as real));
    }
  }

  ghost predicate Usable(rounds: seq<Round>, n: nat) {
    forall r <- rounds :: |r.predictions| == n && Probability(r.calibrated) && Probability(r.actual)
  }

  function UpdatedAll(ws: seq<real>, rounds: seq<Round>): (updated: seq<real>)
    requires ws != [] && forall r <- rounds :: |r.predictions| == |ws|
    ensures |updated| == |ws|
    decreases |rounds|
  {
    if rounds == [] then ws else Updated(UpdatedAll(ws, Front(rounds)), Last(rounds))
  }

  /** MAIN: after any nonempty run of updates the weights are a distribution and every model keeps at least
      0.01 / (1 + 0.01 n), whatever the models predicted and whatever default weights the scorer began with. */
  lemma {:induction false} WeightsKeepFloor(defaults: seq<real>, rounds: seq<Round>)
    requires defaults != [] && Usable(rounds, |defaults|)
    ensures var ws := UpdatedAll(Normalized(defaults), rounds);
            && Simplex(ws)
            && (rounds != [] ==> AtLeast(ws, Floor(|defaults|)))
    decreases |rounds|
  {
    hide Normalized, Simplex, Updated, Floor, Probability;
    NormalizedIsSimplex(defaults);
    if rounds != [] {
      WeightsKeepFloor(defaults, Front(rounds));
      UpdateHasFloor(UpdatedAll(Normalized(defaults), Front(rounds)), Last(rounds));
    }
  }

  /** A model with at least another's weight that predicted at least as well keeps at least its weight. */
  lemma UpdateKeepsRank(ws: seq<real>, r: Round, i: nat, j: nat)
    requires Simplex(ws) && |r.predictions| == |ws| && Probability(r.calibrated) && Probability(r.actual)
    requires i < |ws| && j < |ws| && ws[i] >= ws[j]
    requires AbsReal(r.actual - r.predictions[i]) <= AbsReal(r.actual - r.predictions[j])
    ensures Updated(ws, r)[i] >= Updated(ws, r)[j]
  {
    hide Times, Total, Quotient;
    var adjusted := Adjusted(ws, r);
    AdjustedBounds(ws, r);
    assert Clamped(adjusted) == adjusted;
    QuotientMonotone(adjusted[j], adjusted[i], Total(adjusted));
  }

  // ---------------------------------------------------------------- the output

  predicate Within(predictions: seq<real>, lo: real, hi: real) {
    forall i :: 0 <= i < |predictions| ==> lo <= predictions[i] <= hi
  }

  lemma {:induction false} DotWithin(predictions: seq<real>, ws: seq<real>, lo: real, hi: real)
    requires |predictions| == |ws| && Within(predictions, lo, hi) && AtLeast(ws, 0.0)
    ensures Times(lo, Total(ws)) <= Dot(predictions, ws) <= Times(hi, Total(ws))
    decreases |ws|
  {
    hide Times;
    TimesUnits(lo);
    TimesUnits(hi);
    if ws != [] {
      DotWithin(Front(predictions), Front(ws), lo, hi);
      assert Front(Blended(predictions, ws)) == Blended(Front(predictions), Front(ws));
      TimesAdds(lo, Total(Front(ws)), Last(ws));
      TimesAdds(hi, Total(Front(ws)), Last(ws));
      TimesMonotone(lo, Last(predictions), Last(ws));
      TimesMonotone(Last(predictions), hi, Last(ws));
    }
  }

  lemma UnclippedOnSimplex(predictions: seq<real>, ws: seq<real>)
    requires |predictions| == |ws| && Simplex(ws)
    ensures Unclipped(predictions, ws) == Dot(predictions, ws)
  {
    hide Quotient, Dot, Total;
    QuotientByOne(Dot(predictions, ws));
  }

  /** On a distribution the unclipped output is a convex combination: within any bounds on the predictions. */
  lemma OutputIsConvex(predictions: seq<real>, ws: seq<real>, lo: real, hi: real)
    requires |predictions| == |ws| && Simplex(ws) && Within(predictions, lo, hi)
    ensures lo <= Unclipped(predictions, ws) <= hi
  {
    hide Times, Dot, Total, Unclipped;
    UnclippedOnSimplex(predictions, ws);
    DotWithin(predictions, ws, lo, hi);
    TimesUnits(lo);
    TimesUnits(hi);
  }

  lemma ClipInside(x: real, lo: real, hi: real)
    requires 0.0 <= lo <= x <= hi <= 1.0
    ensures Clip(x) == x
  {
  }
}
