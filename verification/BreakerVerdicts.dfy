/** When the breaker opens, refuses, goes on trial and closes, read off the events alone. */
module BreakerVerdicts {
  import opened Prelude
  import opened CircuitBreaker

  predicate IsFailure(e: Event) {
    e.Fail? && e.expected
  }

  /** Recorded failures since the last success, reset or closing. */
  function Streak(cfg: Settings, events: seq<Event>, n: nat): nat
    requires n <= |events|
  {
    if n == 0 then 0
    else
      var e := events[n - 1];
      if e.Succeed? || e.ResetAll? || (e.Close? && After(cfg, events, n - 1).state.HALF_OPEN?) then 0
      else Streak(cfg, events, n - 1) + if IsFailure(e) then 1 else 0
  }

  lemma {:induction false} ClosedCountsStreak(cfg: Settings, events: seq<Event>, n: nat)
    requires n <= |events| && Run(cfg, events)
    ensures After(cfg, events, n).state.CLOSED? ==> After(cfg, events, n).failureCount == Streak(cfg, events, n)
    decreases n
  {
    hide After;
    if n > 0 {
      ClosedCountsStreak(cfg, events, n - 1);
      AfterUnfolds(cfg, events, n);
    } else {
      AfterZero(cfg, events);
    }
  }

  /** MAIN: on every run a closed breaker opens exactly at a recorded failure that makes the failures since the
      last success, reset or closing reach the threshold; with a positive threshold they then equal it. */
  lemma OpensAtThreshold(cfg: Settings, events: seq<Event>, n: nat)
    requires n < |events| && Run(cfg, events) && After(cfg, events, n).state.CLOSED?
    ensures After(cfg, events, n + 1).state.OPEN?
       <==> IsFailure(events[n]) && Streak(cfg, events, n + 1) >= cfg.failureThreshold
    ensures !After(cfg, events, n + 1).state.OPEN? ==> After(cfg, events, n + 1).state.CLOSED?
    ensures cfg.failureThreshold >= 1 ==> Streak(cfg, events, n + 1) <= cfg.failureThreshold
  {
    ClosedCountsStreak(cfg, events, n);
    AfterUnfolds(cfg, events, n + 1);
    if cfg.failureThreshold >= 1 {
      ClosedBelowThreshold(cfg, events, n);
    }
    hide After;
  }

  /** The time of the last recorded failure, or of the epoch if there is none. */
  function LastFailure(events: seq<Event>, n: nat): int
    requires n <= |events|
  {
    if n == 0 then 0 else if IsFailure(events[n - 1]) then events[n - 1].now else LastFailure(events, n - 1)
  }

  lemma {:induction false} OpenSinceLastFailure(cfg: Settings, events: seq<Event>, n: nat)
    requires n <= |events| && Run(cfg, events)
    ensures After(cfg, events, n).state.OPEN? ==> After(cfg, events, n).lastFailureTime == LastFailure(events, n)
    decreases n
  {
    hide After;
    if n > 0 {
      OpenSinceLastFailure(cfg, events, n - 1);
      AfterUnfolds(cfg, events, n);
    } else {
      AfterZero(cfg, events);
    }
  }

  /** MAIN: an arriving call is refused exactly while the breaker is open and the recovery timeout has not passed
      since the last recorded failure; one admitted by an open breaker puts it on trial, and nothing else changes. */
  lemma RefusedIff(cfg: Settings, events: seq<Event>, n: nat)
    requires n < |events| && Run(cfg, events) && events[n].Arrive?
    ensures var b, now := After(cfg, events, n), events[n].now;
            && (!Admit(b, cfg, now).1 <==> b.state.OPEN? && now - LastFailure(events, n) < cfg.recoveryTimeout)
            && After(cfg, events, n + 1)
               == if b.state.OPEN? && Admit(b, cfg, now).1 then b.(state := HALF_OPEN, successCount := 0) else b
  {
    OpenSinceLastFailure(cfg, events, n);
    AfterUnfolds(cfg, events, n + 1);
    hide After;
  }

  /** An open breaker leaves that state exactly for a trial call, a recovery timeout after the last recorded failure,
      or a reset. */
  lemma OpenEnds(cfg: Settings, events: seq<Event>, n: nat)
    requires n < |events| && Run(cfg, events) && After(cfg, events, n).state.OPEN?
    ensures var state, e := After(cfg, events, n + 1).state, events[n];
            && (state.HALF_OPEN? <==> e.Arrive? && e.now - LastFailure(events, n) >= cfg.recoveryTimeout)
            && (state.CLOSED? <==> e.ResetAll?)
  {
    OpenSinceLastFailure(cfg, events, n);
    AfterUnfolds(cfg, events, n + 1);
    hide After;
  }

  lemma TrialStep(b: Breaker, cfg: Settings, e: Event)
    requires b.state.HALF_OPEN? && Enabled(b, e)
    ensures var c := Next(b, cfg, e);
            && (c.state.OPEN? <==> IsFailure(e))
            && (c.state.CLOSED? <==> e.Close? || e.ResetAll?)
            && (!e.Close? ==> c.closing == if e.Succeed? && b.successCount >= 1 then b.closing + [e.now] else b.closing)
  {
  }

  /** MAIN: a breaker on trial opens again exactly at a recorded failure and closes exactly when a close task
      runs, or at a reset; a success schedules a close task exactly when the trial has seen two successes. */
  lemma TrialEnds(cfg: Settings, events: seq<Event>, n: nat) returns (start: nat)
    requires n < |events| && Run(cfg, events) && After(cfg, events, n).state.HALF_OPEN?
    ensures start < n && Episode(cfg, events, start, n)
    ensures var b, c, e := After(cfg, events, n), After(cfg, events, n + 1), events[n];
            && (c.state.OPEN? <==> IsFailure(e))
            && (c.state.CLOSED? <==> e.Close? || e.ResetAll?)
            && (!e.Close? ==>
                  c.closing == if e.Succeed? && Successes(events[start + 1..n + 1]) >= 2 then b.closing + [e.now]
                               else b.closing)
  {
    hide After, Next, Run, Successes, Episode, Enabled;
    AfterUnfolds(cfg, events, n + 1);
    TrialStep(After(cfg, events, n), cfg, events[n]);
    start := EpisodeOf(cfg, events, n);
    SuccessesGrow(events, start + 1, n + 1);
  }
}
