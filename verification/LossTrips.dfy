/** When the loss breaker of execution/risk_manager.py is tripped, read off the recorded results alone. */
module LossTrips {
  import opened Prelude
  import opened RealProducts
  import opened RiskDesk
  import opened RiskLedger

  const FRESH := LossBreaker(0.0, 0.0, false, 0)

  /** Everything the losing results lost. */
  function Lost(events: seq<LossEvent>): real {
    if events == [] then 0.0
    else Lost(Front(events)) + if Last(events).Loss? && Last(events).pnlPct < 0.0 then -Last(events).pnlPct else 0.0
  }

  /** The highest recorded equity, and at least zero. */
  function Peak(events: seq<LossEvent>): real {
    if events == [] then 0.0
    else if Last(events).Loss? && Last(events).equity > Peak(Front(events)) then Last(events).equity
    else Peak(Front(events))
  }

  lemma {:induction false} PeakIsHighest(events: seq<LossEvent>)
    ensures forall e | e in events && e.Loss? :: e.equity <= Peak(events)
    ensures Peak(events) == 0.0 || exists e :: e in events && e.Loss? && e.equity == Peak(events)
    ensures Peak(events) >= 0.0
  {
    if events != [] {
      PeakIsHighest(Front(events));
      assert events == Front(events) + [Last(events)];
    }
  }

  lemma DrawdownReaches(peak: real, equity: real, limit: real)
    requires peak >= 0.0
    ensures Drawdown(peak, equity) >= limit <==> Fell(peak, equity, limit)
  {
    if peak > 0.0 {
      var ratio := (peak - equity) / peak;
      assert Times(ratio, peak) == peak - equity;
      if ratio >= limit {
        TimesMonotone(limit, ratio, peak);
      } else {
        TimesStrict(ratio, limit, peak);
      }
      hide Times;
    }
  }

  /** The equity lies at least this fraction of the peak below the peak. */
  predicate Fell(peak: real, equity: real, limit: real) {
    if peak > 0.0 then equity <= peak - Times(limit, peak) else limit <= 0.0
  }

  /** The last of these events is a result that breaks a limit. */
  predicate Trips(limits: LossLimits, events: seq<LossEvent>) {
    && events != [] && Last(events).Loss?
    && (Lost(events) >= limits.maxDailyLoss || Fell(Peak(events), Last(events).equity, limits.maxDrawdown))
  }

  /** How many events there were when the breaker last tripped, or none. */
  function LastTrip(limits: LossLimits, events: seq<LossEvent>): (n: nat)
    ensures n <= |events|
    ensures n > 0 ==> Trips(limits, events[..n])
    ensures forall m | n < m <= |events| :: !Trips(limits, events[..m])
  {
    assert events[..|events|] == events;
    if events == [] then 0
    else if Trips(limits, events) then |events|
    else
      assert forall m | 0 <= m < |events| :: Front(events)[..m] == events[..m];
      LastTrip(limits, Front(events))
  }

  /** Read too early to clear the flag. */
  predicate StillPaused(limits: LossLimits, e: LossEvent, tripTime: int) {
    e.Read? ==> limits.pauseSeconds <= 0 || e.now < tripTime + limits.pauseSeconds
  }

  lemma {:induction false} LossesAccumulate(limits: LossLimits, events: seq<LossEvent>)
    ensures AfterLosses(FRESH, limits, events).dailyLoss == -Lost(events) <= 0.0
    ensures AfterLosses(FRESH, limits, events).peakEquity == Peak(events) >= 0.0
  {
    if events != [] {
      LossesAccumulate(limits, Front(events));
    }
    hide Drawdown;
  }

  lemma StepTrips(limits: LossLimits, events: seq<LossEvent>)
    requires events != []
    ensures var before, after := AfterLosses(FRESH, limits, Front(events)), AfterLosses(FRESH, limits, events);
            if Trips(limits, events) then after.tripped && after.tripTime == Last(events).now
            else after.tripTime == before.tripTime
                 && (after.tripped <==> before.tripped && StillPaused(limits, Last(events), before.tripTime))
  {
    LossesAccumulate(limits, Front(events));
    PeakIsHighest(events);
    if Last(events).Loss? {
      DrawdownReaches(Peak(events), Last(events).equity, limits.maxDrawdown);
    }
    hide Drawdown, Fell;
  }

  /** MAIN: over every run of results and readings between two daily resets, the breaker is tripped exactly when some
      result broke the loss limit or the drawdown limit and no reading since the last such result came after the
      pause; its time is that of this result. */
  lemma {:induction false} TrippedIff(limits: LossLimits, events: seq<LossEvent>)
    ensures var b, n := AfterLosses(FRESH, limits, events), LastTrip(limits, events);
            && (b.tripped <==>
                  n > 0 && forall j | n <= j < |events| :: StillPaused(limits, events[j], events[n - 1].now))
            && (n > 0 ==> b.tripTime == events[n - 1].now)
    decreases |events|
  {
    hide Trips, StillPaused, AfterLosses;
    if events == [] {
      AfterNothing(limits);
    } else {
      TrippedIff(limits, Front(events));
      StepTrips(limits, events);
      assert forall j | 0 <= j < |events| - 1 :: events[j] == Front(events)[j];
    }
  }

  lemma AfterNothing(limits: LossLimits)
    ensures AfterLosses(FRESH, limits, []) == FRESH
  {
  }
}
