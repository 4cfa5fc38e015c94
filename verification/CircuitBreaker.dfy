/** The three-state breaker of core/circuit_breaker.py. asyncio switches tasks only at awaits and the
    lock never guards one, so each event below is one atomic step; closing is a deferred task. */
module CircuitBreaker {
  import opened Prelude

  datatype State = CLOSED | OPEN | HALF_OPEN

  datatype Settings = Settings(failureThreshold: int, recoveryTimeout: int)

  const HALF_OPEN_SUCCESS_THRESHOLD := 2

  /** `closing` holds the scheduling times of the close tasks that have not run yet. */
  datatype Breaker = Breaker(
    state: State,
    failureCount: int,
    successCount: int,
    lastFailureTime: int,
    closing: seq<int>)

  const NEW_BREAKER := Breaker(CLOSED, 0, 0, 0, [])

  function Admit(b: Breaker, cfg: Settings, now: int): (Breaker, bool) {
    if b.state.OPEN? then
      if now - b.lastFailureTime >= cfg.recoveryTimeout then (b.(state := HALF_OPEN, successCount := 0), true)
      else (b, false)
    else (b, true)
  }

  function RecordSuccess(b: Breaker, now: int): Breaker {
    if b.state.HALF_OPEN? then
      var counted := b.(successCount := b.successCount + 1);
      if counted.successCount >= HALF_OPEN_SUCCESS_THRESHOLD then counted.(closing := counted.closing + [now])
      else counted
    else if b.state.CLOSED? then b.(failureCount := 0)
    else b
  }

  function RecordFailure(b: Breaker, cfg: Settings, now: int): Breaker {
    var counted := b.(failureCount := b.failureCount + 1, lastFailureTime := now);
    if b.state.HALF_OPEN? || counted.failureCount >= cfg.failureThreshold
    then counted.(state := OPEN, successCount := 0)
    else counted
  }

  function RunCloseTask(b: Breaker, task: nat): Breaker
    requires task < |b.closing|
  {
    var taken := b.(closing := b.closing[..task] + b.closing[task + 1..]);
    if b.state.HALF_OPEN? then taken.(state := CLOSED, failureCount := 0) else taken
  }

  /** Resetting does not recall the close tasks already scheduled. */
  function Reset(b: Breaker): Breaker {
    NEW_BREAKER.(closing := b.closing)
  }

  datatype Event =
    | Arrive(now: int)                   // a call is admitted or rejected
    | Succeed(now: int)                  // an admitted call returned
    | Fail(now: int, expected: bool)     // an admitted call raised
    | Close(now: int, task: nat)         // a scheduled close task runs
    | ResetAll(now: int)

  predicate Enabled(b: Breaker, e: Event) {
    e.Close? ==> e.task < |b.closing|
  }

  function Next(b: Breaker, cfg: Settings, e: Event): Breaker
    requires Enabled(b, e)
  {
    match e
    case Arrive(now) => Admit(b, cfg, now).0
    case Succeed(now) => RecordSuccess(b, now)
    case Fail(now, expected) => if expected then RecordFailure(b, cfg, now) else b
    case Close(_, task) => RunCloseTask(b, task)
    case ResetAll(_) => Reset(b)
  }

  /** The breaker object, updated in place. */
  class Guard {
    var breaker: Breaker
    const cfg: Settings

    constructor (cfg: Settings)
      ensures breaker == NEW_BREAKER && this.cfg == cfg
    {
      this.cfg := cfg;
      breaker := NEW_BREAKER;
    }

    method Arrive(now: int) returns (admitted: bool)
      modifies this`breaker
      ensures (breaker, admitted) == Admit(old(breaker), cfg, now)
    {
      admitted := true;
      if breaker.state == OPEN {
        if now - breaker.lastFailureTime >= cfg.recoveryTimeout {
          TransitionToHalfOpen();
        } else {
          admitted := false;
        }
      }
    }

    method TransitionToHalfOpen()
      modifies this`breaker
      ensures breaker == if old(breaker).state.OPEN? then old(breaker).(state := HALF_OPEN, successCount := 0)
                         else old(breaker)
    {
      if breaker.state == OPEN {
        breaker := breaker.(state := HALF_OPEN);
        breaker := breaker.(successCount := 0);
      }
    }

    method OnSuccess(now: int)
      modifies this`breaker
      ensures breaker == RecordSuccess(old(breaker), now)
    {
      if breaker.state == HALF_OPEN {
        breaker := breaker.(successCount := breaker.successCount + 1);
        if breaker.successCount >= HALF_OPEN_SUCCESS_THRESHOLD {
          breaker := breaker.(closing := breaker.closing + [now]);
        }
      } else if breaker.state == CLOSED {
        breaker := breaker.(failureCount := 0);
      }
    }

    method OnFailure(now: int)
      modifies this`breaker
      ensures breaker == RecordFailure(old(breaker), cfg, now)
    {
      breaker := breaker.(failureCount := breaker.failureCount + 1, lastFailureTime := now);
      if breaker.state == HALF_OPEN {
        breaker := breaker.(state := OPEN, successCount := 0);
      } else if breaker.failureCount >= cfg.failureThreshold {
        breaker := breaker.(state := OPEN, successCount := 0);
      }
    }
  }

  // ---------------------------------------------------------------- runs

  /** Times never run backwards and every event can happen when it does. */
  ghost predicate Run(cfg: Settings, events: seq<Event>) {
    && (forall i, j | 0 <= i < j < |events| :: events[i].now <= events[j].now)
    && forall n | 0 <= n < |events| :: Enabled(After(cfg, events, n), events[n])
  }

  /** The breaker after the first `n` events. */
  function After(cfg: Settings, events: seq<Event>, n: nat): Breaker
    requires n <= |events|
  {
    if n == 0 then NEW_BREAKER
    else
      var before := After(cfg, events, n - 1);
      if Enabled(before, events[n - 1]) then Next(before, cfg, events[n - 1]) else before
  }

  lemma {:induction false} ClosedBelowThreshold(cfg: Settings, events: seq<Event>, n: nat)
    requires n <= |events| && cfg.failureThreshold >= 1
    ensures After(cfg, events, n).state.CLOSED? ==> After(cfg, events, n).failureCount < cfg.failureThreshold
  {
    if n > 0 {
      ClosedBelowThreshold(cfg, events, n - 1);
    }
  }

  ghost predicate ClosedAlwaysBelow(cfg: Settings) {
    forall events: seq<Event>, n: nat | n <= |events| ::
      After(cfg, events, n).state.CLOSED? ==> After(cfg, events, n).failureCount < cfg.failureThreshold
  }

  /** MAIN: over every run a closed breaker is below its failure threshold, exactly when that threshold is
      positive. */
  lemma ClosedBelowThresholdIff(cfg: Settings)
    ensures ClosedAlwaysBelow(cfg) <==> cfg.failureThreshold >= 1
  {
    if cfg.failureThreshold >= 1 {
      forall events: seq<Event>, n: nat | n <= |events|
        ensures After(cfg, events, n).state.CLOSED? ==> After(cfg, events, n).failureCount < cfg.failureThreshold
      {
        ClosedBelowThreshold(cfg, events, n);
      }
    } else {
      var none: seq<Event> := [];
      assert After(cfg, none, 0) == NEW_BREAKER;
    }
  }

  /** While open, the stored time is that of the last recorded failure. */
  lemma {:induction false} OpenRemembersFailures(cfg: Settings, events: seq<Event>, n: nat)
    requires n <= |events| && Run(cfg, events)
    ensures After(cfg, events, n).state.OPEN? ==>
              forall i | 0 <= i < n && events[i].Fail? && events[i].expected ::
                events[i].now <= After(cfg, events, n).lastFailureTime
  {
    hide After;
    if n > 0 {
      OpenRemembersFailures(cfg, events, n - 1);
      AfterUnfolds(cfg, events, n);
      assert events[n - 1].Fail? && events[n - 1].expected ==>
               After(cfg, events, n).lastFailureTime == events[n - 1].now;
    } else {
      AfterZero(cfg, events);
    }
  }

  lemma AfterUnfolds(cfg: Settings, events: seq<Event>, n: nat)
    requires 0 < n <= |events| && Run(cfg, events)
    ensures Enabled(After(cfg, events, n - 1), events[n - 1])
    ensures After(cfg, events, n) == Next(After(cfg, events, n - 1), cfg, events[n - 1])
  {
  }

  /** MAIN: HALF_OPEN is entered only by an arriving call, and only once the recovery timeout has passed
      since every failure recorded so far. */
  lemma HalfOpenWaits(cfg: Settings, events: seq<Event>, n: nat)
    requires n < |events| && Run(cfg, events)
    requires !After(cfg, events, n).state.HALF_OPEN? && After(cfg, events, n + 1).state.HALF_OPEN?
    ensures events[n].Arrive?
    ensures forall i | 0 <= i < n && events[i].Fail? && events[i].expected ::
              events[n].now - events[i].now >= cfg.recoveryTimeout
  {
    OpenRemembersFailures(cfg, events, n);
    AfterUnfolds(cfg, events, n + 1);
  }

  // ---------------------------------------------------------------- closing

  /** Every close task runs less than `latency` after it was scheduled. */
  ghost predicate Prompt(cfg: Settings, events: seq<Event>, latency: int) {
    forall n | 0 <= n < |events| && events[n].Close? && events[n].task < |After(cfg, events, n).closing| ::
      events[n].now < After(cfg, events, n).closing[events[n].task] + latency
  }

  /** What the pending close tasks owe to the past: one that is too old to run promptly, or one whose
      episode already has its successes. */
  ghost predicate TasksAccounted(b: Breaker, cfg: Settings, now: int) {
    forall i | 0 <= i < |b.closing| ::
      && b.closing[i] <= now
      && (b.state.OPEN? ==> b.closing[i] <= b.lastFailureTime)
      && (b.state.HALF_OPEN? ==>
            b.successCount >= HALF_OPEN_SUCCESS_THRESHOLD || b.closing[i] + cfg.recoveryTimeout <= now)
  }

  lemma TasksStayAccounted(b: Breaker, cfg: Settings, e: Event, now: int)
    requires TasksAccounted(b, cfg, now) && now <= e.now && Enabled(b, e)
    ensures TasksAccounted(Next(b, cfg, e), cfg, e.now)
  {
    if e.Close? {
      var kept := b.closing[..e.task] + b.closing[e.task + 1..];
      assert forall i | 0 <= i < |kept| :: kept[i] == b.closing[if i < e.task then i else i + 1];
    }
  }

  lemma {:induction false} TasksAreAccounted(cfg: Settings, events: seq<Event>, n: nat)
    requires 0 < n <= |events| && Run(cfg, events)
    ensures TasksAccounted(After(cfg, events, n), cfg, events[n - 1].now)
  {
    AfterUnfolds(cfg, events, n);
    if n > 1 {
      TasksAreAccounted(cfg, events, n - 1);
    } else {
      assert TasksAccounted(NEW_BREAKER, cfg, events[0].now);
    }
    hide After, TasksAccounted;
    AfterZero(cfg, events);
    TasksStayAccounted(After(cfg, events, n - 1), cfg, events[n - 1],
                       if n > 1 then events[n - 2].now else events[0].now);
  }

  lemma AfterZero(cfg: Settings, events: seq<Event>)
    ensures After(cfg, events, 0) == NEW_BREAKER
  {
  }

  function Successes(events: seq<Event>): nat {
    if events == [] then 0 else Successes(Front(events)) + if Last(events).Succeed? then 1 else 0
  }

  /** Events [start, n) are one half-open episode: opened by the arrival at `start`, half-open ever since. */
  ghost predicate Episode(cfg: Settings, events: seq<Event>, start: nat, n: nat)
    requires start < n <= |events|
  {
    && events[start].Arrive?
    && forall i | start < i <= n :: After(cfg, events, i).state.HALF_OPEN?
  }

  lemma SuccessesGrow(events: seq<Event>, from: nat, n: nat)
    requires from < n <= |events|
    ensures Successes(events[from..n]) == Successes(events[from..n - 1]) + if events[n - 1].Succeed? then 1 else 0
  {
    assert Front(events[from..n]) == events[from..n - 1];
  }

  /** A half-open breaker counts the successes of its current episode. */
  lemma {:induction false} EpisodeOf(cfg: Settings, events: seq<Event>, n: nat) returns (start: nat)
    requires n <= |events| && Run(cfg, events) && After(cfg, events, n).state.HALF_OPEN?
    ensures start < n && Episode(cfg, events, start, n)
    ensures After(cfg, events, n).successCount == Successes(events[start + 1..n])
  {
    AfterZero(cfg, events);
    hide After;
    AfterUnfolds(cfg, events, n);
    if After(cfg, events, n - 1).state.HALF_OPEN? {
      start := EpisodeOf(cfg, events, n - 1);
      SuccessesGrow(events, start + 1, n);
    } else {
      start := n - 1;
      assert events[start + 1..n] == [];
    }
  }

  lemma {:induction false} NoFailureInEpisode(cfg: Settings, events: seq<Event>, start: nat, n: nat, i: nat)
    requires Run(cfg, events) && start < i < n <= |events| && Episode(cfg, events, start, n)
    ensures !(events[i].Fail? && events[i].expected)
  {
    AfterUnfolds(cfg, events, i + 1);
    hide After;
    assert After(cfg, events, i).state.HALF_OPEN? && After(cfg, events, i + 1).state.HALF_OPEN?;
  }

  /** An episode that began with a trial call and saw at least two successes and no recorded failure. */
  ghost predicate Recovered(cfg: Settings, events: seq<Event>, start: nat, n: nat) {
    && start < n <= |events| && Episode(cfg, events, start, n)
    && Successes(events[start + 1..n]) >= HALF_OPEN_SUCCESS_THRESHOLD
    && forall i | start < i < n :: !(events[i].Fail? && events[i].expected)
  }

  /** The event at `n`, not being a reset, closes the breaker. */
  ghost predicate ClosesAt(cfg: Settings, events: seq<Event>, n: nat) {
    && n < |events| && !events[n].ResetAll?
    && !After(cfg, events, n).state.CLOSED? && After(cfg, events, n + 1).state.CLOSED?
  }

  ghost predicate ClosesOnlyRecovered(cfg: Settings, events: seq<Event>) {
    forall n: nat | ClosesAt(cfg, events, n) :: exists start: nat :: Recovered(cfg, events, start, n)
  }

  /** One way: a task that runs in time closes only a recovered episode. */
  lemma ClosesOnlyAfterRecovery(cfg: Settings, events: seq<Event>, latency: int, n: nat) returns (start: nat)
    requires Run(cfg, events) && Prompt(cfg, events, latency) && latency <= Max(0, cfg.recoveryTimeout)
    requires ClosesAt(cfg, events, n)
    ensures Recovered(cfg, events, start, n)
  {
    AfterUnfolds(cfg, events, n + 1);
    AfterZero(cfg, events);
    hide After;
    start := EpisodeOf(cfg, events, n);
    TasksAreAccounted(cfg, events, n);
    forall i | start < i < n
      ensures !(events[i].Fail? && events[i].expected)
    {
      NoFailureInEpisode(cfg, events, start, n, i);
    }
  }

  /** Enough failures to open the breaker. */
  function Opening(cfg: Settings): nat {
    Max(1, cfg.failureThreshold)
  }

  /** Opened, a trial succeeds twice and schedules its close task, which is still pending when that trial fails and
      the next one begins. */
  function StaleRun(cfg: Settings): seq<Event> {
    var t := Max(0, cfg.recoveryTimeout);
    seq(Opening(cfg), i => Fail(0, true))
    + [Arrive(t), Succeed(t), Succeed(t), Fail(t, true), Arrive(2 * t), Close(2 * t, 0)]
  }

  lemma {:induction false} StaleRunOpens(cfg: Settings, n: nat)
    requires n <= Opening(cfg)
    ensures After(cfg, StaleRun(cfg), n)
         == Breaker(if n == Opening(cfg) then OPEN else CLOSED, n, 0, 0, [])
  {
    if n > 0 {
      StaleRunOpens(cfg, n - 1);
    }
  }

  lemma StaleRunStates(cfg: Settings)
    ensures var t, k := Max(0, cfg.recoveryTimeout), Opening(cfg);
            && After(cfg, StaleRun(cfg), k + 3) == Breaker(HALF_OPEN, k, 2, 0, [t])
            && After(cfg, StaleRun(cfg), k + 4) == Breaker(OPEN, k + 1, 0, t, [t])
            && After(cfg, StaleRun(cfg), k + 5) == Breaker(HALF_OPEN, k + 1, 0, t, [t])
            && After(cfg, StaleRun(cfg), k + 6) == Breaker(CLOSED, 0, 0, t, [])
  {
    var t, k, events := Max(0, cfg.recoveryTimeout), Opening(cfg), StaleRun(cfg);
    StaleRunOpens(cfg, k);
    assert events[k] == Arrive(t) && events[k + 1] == Succeed(t) && events[k + 2] == Succeed(t);
    assert events[k + 3] == Fail(t, true) && events[k + 4] == Arrive(2 * t) && events[k + 5] == Close(2 * t, 0);
    assert After(cfg, events, k + 1) == Breaker(HALF_OPEN, k, 0, 0, []);
    assert After(cfg, events, k + 2) == Breaker(HALF_OPEN, k, 1, 0, []);
    assert After(cfg, events, k + 3) == Breaker(HALF_OPEN, k, 2, 0, [t]);
    assert After(cfg, events, k + 4) == Breaker(OPEN, k + 1, 0, t, [t]);
    assert After(cfg, events, k + 5) == Breaker(HALF_OPEN, k + 1, 0, t, [t]);
    assert [t][..0] + [t][1..] == [];
  }

  lemma StaleRunIsRun(cfg: Settings, latency: int)
    requires latency > Max(0, cfg.recoveryTimeout)
    ensures Run(cfg, StaleRun(cfg)) && Prompt(cfg, StaleRun(cfg), latency)
  {
    var k, events := Opening(cfg), StaleRun(cfg);
    StaleRunStates(cfg);
    hide After;
    assert events[k + 5] == Close(2 * Max(0, cfg.recoveryTimeout), 0);
    assert forall i | 0 <= i < |events| && events[i].Close? :: i == k + 5;
  }

  lemma StaleNotRecovered(cfg: Settings, start: nat)
    ensures !Recovered(cfg, StaleRun(cfg), start, Opening(cfg) + 5)
  {
    var k, events := Opening(cfg), StaleRun(cfg);
    StaleRunStates(cfg);
    hide After;
    if start == k + 4 {
      assert Successes([]) == 0;
      assert events[start + 1..k + 5] == [];
    } else if start < k + 4 {
      assert !After(cfg, events, k + 4).state.HALF_OPEN?;
    }
  }

  /** A close task that may wait for a whole recovery timeout closes the breaker right after the next trial call
      arrives, before that call has succeeded; this happens under every setting. */
  lemma StaleCloseTask(cfg: Settings, latency: int)
    requires latency > Max(0, cfg.recoveryTimeout)
    ensures Run(cfg, StaleRun(cfg)) && Prompt(cfg, StaleRun(cfg), latency) && !ClosesOnlyRecovered(cfg, StaleRun(cfg))
  {
    hide After, Recovered, Run, Prompt;
    var n := Opening(cfg) + 5;
    StaleRunStates(cfg);
    StaleRunIsRun(cfg, latency);
    assert ClosesAt(cfg, StaleRun(cfg), n);
    forall start: nat
      ensures !Recovered(cfg, StaleRun(cfg), start, n)
    {
      StaleNotRecovered(cfg, start);
    }
  }

  /** MAIN: when every close task runs less than `latency` after it was scheduled, the breaker closes again, other
      than by a reset, only at the end of a recovered episode, on every run, if and only if the latency is at most
      the recovery timeout. A timeout below zero counts as zero. */
  lemma PromptnessIsExact(cfg: Settings, latency: int)
    ensures (forall events: seq<Event> | Run(cfg, events) && Prompt(cfg, events, latency) ::
               ClosesOnlyRecovered(cfg, events))
       <==> latency <= Max(0, cfg.recoveryTimeout)
  {
    hide Run, Prompt, ClosesAt, Recovered, StaleRun;
    if latency <= Max(0, cfg.recoveryTimeout) {
      forall events: seq<Event>, n: nat | Run(cfg, events) && Prompt(cfg, events, latency) && ClosesAt(cfg, events, n)
        ensures exists start: nat :: Recovered(cfg, events, start, n)
      {
        var start := ClosesOnlyAfterRecovery(cfg, events, latency, n);
      }
    } else {
      StaleCloseTask(cfg, latency);
    }
  }
}
