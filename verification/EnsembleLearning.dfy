/** What the ensemble learns: proportions, and who gains on whom. */
module EnsembleLearning {
  import opened Prelude
  import opened RealProducts
  import opened EnsembleScoring

  lemma QuotientTimes(a: real, b: real)
    requires b > 0.0
    ensures Times(Quotient(a, b), b) == a
  {
  }

  lemma {:induction false} TotalAtLeastEach(ws: seq<real>, i: nat)
    requires AtLeast(ws, 0.0) && i < |ws|
    ensures Total(ws) >= ws[i]
    decreases |ws|
  {
    TotalNonNegative(Front(ws), 0.0);
    if i < |ws| - 1 {
      TotalAtLeastEach(Front(ws), i);
    }
  }

  lemma {:induction false} TotalOfNothing(ws: seq<real>)
    requires forall i | 0 <= i < |ws| :: ws[i] == 0.0
    ensures Total(ws) == 0.0
    decreases |ws|
  {
    if ws != [] {
      TotalOfNothing(Front(ws));
    }
  }

  /** MAIN: normalised weights are a distribution in the proportions of the positive weights, or uniform when no
      weight is positive. */
  lemma NormalizedInProportion(ws: seq<real>) returns (total: real)
    requires ws != []
    ensures Simplex(Normalized(ws)) && total > 0.0
    ensures if exists k | 0 <= k < |ws| :: ws[k] > 0.0
            then forall i | 0 <= i < |ws| :: Times(Normalized(ws)[i], total) == MaxReal(0.0, ws[i])
            else forall i | 0 <= i < |ws| :: Times(Normalized(ws)[i], |ws| as real) == 1.0
  {
    NormalizedIsSimplex(ws);
    var clamped := Clamped(ws);
    if k :| 0 <= k < |ws| && ws[k] > 0.0 {
      TotalAtLeastEach(clamped, k);
      total := Total(clamped);
      hide Times, Quotient, Total, Simplex;
      forall i | 0 <= i < |ws|
        ensures Times(Normalized(ws)[i], total) == MaxReal(0.0, ws[i])
      {
        QuotientTimes(clamped[i], total);
      }
    } else {
      TotalOfNothing(clamped);
      total := 1.0;
      hide Times, Quotient, Total, Simplex;
      QuotientTimes(1.0, |ws| as real);
    }
  }

  /** Strictly nearer the outcome than the calibrated output. */
  predicate Beats(prediction: real, r: Round) {
    AbsReal(prediction - r.actual) < AbsReal(r.calibrated - r.actual)
  }

  /** MAIN: an update raises every model that beat the calibrated output by a hundredth of its error and lowers
      the others by half as much, never below a hundredth, and then scales all by one factor. */
  lemma UpdateInProportion(ws: seq<real>, r: Round) returns (total: real)
    requires ws != [] && |r.predictions| == |ws|
    ensures Simplex(Updated(ws, r)) && total > 0.0
    ensures var error := AbsReal(r.calibrated - r.actual);
            forall i | 0 <= i < |ws| ::
              Times(Updated(ws, r)[i], total)
              == MaxReal(0.01, if Beats(r.predictions[i], r) then ws[i] + error / 100.0 else ws[i] - error / 200.0)
  {
    var adjusted := Adjusted(ws, r);
    total := NormalizedInProportion(adjusted);
    assert adjusted[0] > 0.0;
    hide Times, Normalized, Simplex;
  }

  /** MAIN: whenever the calibrated output was wrong, every model that beat it gains weight relative to every model that
      did not, as long as neither was below the floor. */
  lemma BetterModelGains(ws: seq<real>, r: Round, i: nat, j: nat)
    requires |r.predictions| == |ws| && i < |ws| && j < |ws| && AtLeast(ws, WEIGHT_FLOOR)
    requires r.calibrated != r.actual && Beats(r.predictions[i], r) && !Beats(r.predictions[j], r)
    ensures Times(Updated(ws, r)[i], ws[j]) > Times(Updated(ws, r)[j], ws[i])
  {
    var total := UpdateInProportion(ws, r);
    var updated := Updated(ws, r);
    hide Updated, Times, Simplex;
    RatioGrows(updated[i], updated[j], ws[i], ws[j], total);
  }

  lemma RatioGrows(u: real, v: real, a: real, b: real, total: real)
    requires a > 0.0 && b > 0.0 && total > 0.0
    requires Times(u, total) > a && Times(v, total) <= b
    ensures Times(u, b) > Times(v, a)
  {
    TimesStrict(a, Times(u, total), b);
    TimesMonotone(Times(v, total), b, a);
    assert Times(Times(u, total), b) == Times(Times(u, b), total);
    assert Times(Times(v, total), a) == Times(Times(v, a), total);
    assert Times(b, a) == Times(a, b);
    if Times(u, b) <= Times(v, a) {
      TimesMonotone(Times(u, b), Times(v, a), total);
      assert false;
    }
  }

  /** These weights are in the proportions of the positive products of learned weight and prior, or uniform when no
      product is positive. */
  ghost predicate InProportion(ws: seq<real>, learned: seq<real>, prior: seq<real>, total: real)
    requires |ws| == |learned| == |prior|
  {
    if exists k | 0 <= k < |ws| :: Times(learned[k], prior[k]) > 0.0
    then forall i | 0 <= i < |ws| :: Times(ws[i], total) == MaxReal(0.0, Times(learned[i], prior[i]))
    else forall i | 0 <= i < |ws| :: Times(ws[i], |ws| as real) == 1.0
  }

  lemma BlendInProportion(learned: seq<real>, prior: seq<real>) returns (total: real)
    requires |learned| == |prior| && learned != []
    ensures Simplex(Normalized(Blended(learned, prior))) && total > 0.0
    ensures InProportion(Normalized(Blended(learned, prior)), learned, prior, total)
  {
    var blended := Blended(learned, prior);
    total := NormalizedInProportion(blended);
    hide Times, Simplex, Normalized;
    if k :| 0 <= k < |learned| && Times(learned[k], prior[k]) > 0.0 {
      assert blended[k] > 0.0;
    } else {
      assert forall k | 0 <= k < |blended| :: !(blended[k] > 0.0);
    }
  }

  /** Under a regime the weights are in the proportions of the learned weights times its prior; without a prior they
      are the learned weights. */
  lemma RegimeInProportion(scorer: EnsembleScorer, regime: string) returns (total: real)
    requires scorer.Valid()
    ensures total > 0.0 && Simplex(scorer.RegimeWeights(regime))
    ensures if regime in scorer.regimeWeights
            then InProportion(scorer.RegimeWeights(regime), scorer.weights, scorer.regimeWeights[regime], total)
            else scorer.RegimeWeights(regime) == scorer.weights
  {
    hide Simplex, InProportion, Normalized;
    if regime in scorer.regimeWeights {
      total := BlendInProportion(scorer.weights, scorer.regimeWeights[regime]);
    } else {
      total := 1.0;
      BlendedWithOnes(scorer.weights);
      NormalizedOfSimplex(scorer.weights);
    }
  }

  lemma BlendedWithOnes(ws: seq<real>)
    ensures Blended(ws, Ones(|ws|)) == ws
  {
    forall i | 0 <= i < |ws|
      ensures Blended(ws, Ones(|ws|))[i] == ws[i]
    {
      TimesUnits(ws[i]);
    }
    hide Times;
  }

  /** A distribution is already normalised. */
  lemma NormalizedOfSimplex(ws: seq<real>)
    requires Simplex(ws)
    ensures Normalized(ws) == ws
  {
    hide Total, Quotient;
    assert Clamped(ws) == ws;
    forall i | 0 <= i < |ws|
      ensures Normalized(ws)[i] == ws[i]
    {
      QuotientByOne(ws[i]);
    }
  }
}
