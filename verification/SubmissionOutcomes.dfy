/** How an order's call ends, and when the executor's breaker opens, counted on the events of the run. */
module SubmissionOutcomes {
  import opened Prelude
  import opened Idempotency
  import IdempotencyWindow
  import opened IdempotencyLog
  import opened IdempotencyVerdicts
  import opened Submission
  import opened SubmissionRetries
  import CB = CircuitBreaker

  /** What has happened to a task: attempts rejected by the breaker, failed replies and good ones. */
  datatype Tally = Tally(rejected: nat, failed: nat, answered: nat)

  function TallyOf(cfg: Settings, events: seq<Event>, task: nat): Tally {
    if events == [] then Tally(0, 0, 0)
    else
      Tallied(After(cfg, Front(events)), Last(events), task, TallyOf(cfg, Front(events), task))
  }

  function Tallied(w: World, e: Event, task: nat, t: Tally): Tally {
    if !Enabled(w, e) then t
    else if e.Attempt? && e.task == task && w.breaker.state.OPEN? then t.(rejected := t.rejected + 1)
    else if e.Reply? && e.task == task then
      if e.ok then t.(answered := t.answered + 1) else t.(failed := t.failed + 1)
    else t
  }

  /** What the tally of a task says about its phase and the orders it has sent. */
  predicate Fits(phase: Phase, sent: nat, breakerOpen: bool, cfg: Settings, t: Tally) {
    && sent == t.failed + t.answered + (if phase.Waiting? then 1 else 0)
    && (t.rejected > 0 ==> breakerOpen)
    && match phase
       case Ready(attempt) => attempt == t.rejected + t.failed + 1 <= cfg.maxAttempts && t.answered == 0
       case Waiting(attempt) => attempt == t.rejected + t.failed + 1 <= cfg.maxAttempts && t.answered == 0
       case Finished(outcome) =>
         && t.answered == (if outcome.Placed? && !cfg.paperTrading then 1 else 0)
         && if outcome.Failed? then t.rejected + t.failed == cfg.maxAttempts
            else t.rejected + t.failed < cfg.maxAttempts
  }

  predicate Accounted(w: World, cfg: Settings, t: Tally, task: nat) {
    if task >= |w.tasks| then t == Tally(0, 0, 0) && SentBy(w.sent, task) == 0
    else Fits(w.tasks[task].phase, SentBy(w.sent, task), w.breaker.state.OPEN?, cfg, t)
  }

  /** Calls never wait for a reply in paper trading. */
  ghost predicate NoPaperWaits(w: World, cfg: Settings) {
    cfg.paperTrading ==> forall i | 0 <= i < |w.tasks| :: !w.tasks[i].phase.Waiting?
  }

  lemma NextNoPaperWaits(w: World, cfg: Settings, e: Event)
    requires Enabled(w, e) && NoPaperWaits(w, cfg)
    ensures NoPaperWaits(Next(w, cfg, e), cfg)
  {
    hide CheckAndSet;
  }

  lemma AttemptAccounted(w: World, cfg: Settings, e: Event, task: nat, t: Tally)
    requires Enabled(w, e) && e.Attempt? && SentInRange(w) && Accounted(w, cfg, t, task)
    requires w.breaker.state.CLOSED? || w.breaker.state.OPEN?
    ensures Accounted(Next(w, cfg, e), cfg, Tallied(w, e, task, t), task)
  {
    hide CheckAndSet, SentBy;
    SentGrows(w.sent, Sent(e.task, if Keyed(w.tasks[e.task].key) then Some(|w.calls|) else None), task);
  }

  lemma NextAccounted(w: World, cfg: Settings, e: Event, task: nat, t: Tally)
    requires Enabled(w, e) && SentInRange(w) && Accounted(w, cfg, t, task) && NoPaperWaits(w, cfg)
    requires w.breaker.state.CLOSED? || w.breaker.state.OPEN?
    ensures Accounted(Next(w, cfg, e), cfg, Tallied(w, e, task, t), task)
  {
    hide Next, Accounted, Tallied;
    match e
    case Begin(_) => BeginAccounted(w, cfg, e, task, t);
    case Attempt(_, _, _, _) => AttemptAccounted(w, cfg, e, task, t);
    case Reply(_, _, _) => ReplyAccounted(w, cfg, e, task, t);
    case ReadFailed(_) => ReadAccounted(w, cfg, e, task, t);
  }

  lemma BeginAccounted(w: World, cfg: Settings, e: Event, task: nat, t: Tally)
    requires e.Begin? && Accounted(w, cfg, t, task)
    ensures Accounted(Next(w, cfg, e), cfg, Tallied(w, e, task, t), task)
  {
    NewFits(cfg, w.breaker.state.OPEN?);
    hide SentBy, Gate, Fits;
  }

  lemma NewFits(cfg: Settings, breakerOpen: bool)
    ensures Fits(if cfg.maxAttempts > 0 then Ready(1) else Finished(Failed), 0, breakerOpen, cfg, Tally(0, 0, 0))
  {
  }

  lemma BreakerStaysOpen(b: CB.Breaker, cfg: CB.Settings, at: int)
    requires b.state.OPEN?
    ensures CB.RecordSuccess(b, at).state.OPEN? && CB.RecordFailure(b, cfg, at).state.OPEN?
  {
  }

  lemma ReplyAccounted(w: World, cfg: Settings, e: Event, task: nat, t: Tally)
    requires Enabled(w, e) && e.Reply? && Accounted(w, cfg, t, task) && NoPaperWaits(w, cfg)
    ensures Accounted(Next(w, cfg, e), cfg, Tallied(w, e, task, t), task)
  {
    hide SentBy, Gate, CB.RecordSuccess, CB.RecordFailure;
    if w.breaker.state.OPEN? {
      BreakerStaysOpen(w.breaker, cfg.breaker, e.at);
    }
  }

  lemma ReadAccounted(w: World, cfg: Settings, e: Event, task: nat, t: Tally)
    requires e.ReadFailed? && Accounted(w, cfg, t, task)
    ensures Accounted(Next(w, cfg, e), cfg, Tallied(w, e, task, t), task)
  {
    hide SentBy, Gate, CB.RecordFailure;
    if w.breaker.state.OPEN? {
      BreakerStaysOpen(w.breaker, cfg.breaker, e.at);
    }
  }

  lemma {:induction false} RunAccounted(cfg: Settings, events: seq<Event>, task: nat)
    ensures Accounted(After(cfg, events), cfg, TallyOf(cfg, events, task), task)
    ensures NoPaperWaits(After(cfg, events), cfg)
  {
    hide Accounted, NoPaperWaits, Next, Tallied, Enabled;
    if events == [] {
      StartAccounted(cfg, task);
    } else {
      var before := After(cfg, Front(events));
      RunAccounted(cfg, Front(events), task);
      RetriesBounded(cfg, Front(events));
      if Enabled(before, Last(events)) {
        NextAccounted(before, cfg, Last(events), task, TallyOf(cfg, Front(events), task));
        NextNoPaperWaits(before, cfg, Last(events));
      } else {
        NothingTallied(before, Last(events), task, TallyOf(cfg, Front(events), task));
      }
    }
  }

  lemma StartAccounted(cfg: Settings, task: nat)
    ensures Accounted(START, cfg, Tally(0, 0, 0), task) && NoPaperWaits(START, cfg)
  {
  }

  lemma NothingTallied(w: World, e: Event, task: nat, t: Tally)
    requires !Enabled(w, e)
    ensures Tallied(w, e, task, t) == t
  {
  }

  /** MAIN: over every interleaving, a call fails exactly when all of its `maxAttempts` attempts have raised, each sent
      and failed or rejected by the open breaker; outside paper trading it is placed exactly when the exchange has
      answered it; and it has sent one order for each failed reply, for the answer, and for the reply it is still
      waiting for. As long as the breaker is closed none of its attempts was rejected. */
  lemma CallEndsIff(cfg: Settings, events: seq<Event>, task: nat)
    requires task < |After(cfg, events).tasks|
    ensures var w, t := After(cfg, events), TallyOf(cfg, events, task);
            var phase := w.tasks[task].phase;
            && (phase == Finished(Failed) <==> t.rejected + t.failed == cfg.maxAttempts)
            && t.rejected + t.failed <= cfg.maxAttempts && t.answered <= 1
            && (!cfg.paperTrading ==> (phase == Finished(Placed) <==> t.answered == 1))
            && SentBy(w.sent, task) == t.failed + t.answered + (if phase.Waiting? then 1 else 0)
            && (phase.Ready? || phase.Waiting? ==> phase.attempt == t.rejected + t.failed + 1)
            && (!w.breaker.state.OPEN? ==> t.rejected == 0)
  {
    RunAccounted(cfg, events, task);
    hide After, TallyOf, SentBy;
  }

  /** While the breaker is closed, a call that fails has sent exactly `maxAttempts` orders, all of which failed. */
  lemma FailureTookAllAttempts(cfg: Settings, events: seq<Event>, task: nat)
    requires var w := After(cfg, events);
             task < |w.tasks| && w.tasks[task].phase == Finished(Failed) && !w.breaker.state.OPEN?
    ensures SentBy(After(cfg, events).sent, task) == TallyOf(cfg, events, task).failed == cfg.maxAttempts
  {
    RunAccounted(cfg, events, task);
    hide After, TallyOf, SentBy;
  }

  // ---------------------------------------------------------------- the executor's breaker

  /** A failed reply or book read, at this point of a run. */
  predicate IsFailure(w: World, e: Event) {
    Enabled(w, e) && ((e.Reply? && !e.ok) || e.ReadFailed?)
  }

  /** Failures since the exchange last answered an order. */
  function Streak(cfg: Settings, events: seq<Event>): nat {
    if events == [] then 0
    else
      var w, e := After(cfg, Front(events)), Last(events);
      if Enabled(w, e) && e.Reply? && e.ok then 0
      else Streak(cfg, Front(events)) + if IsFailure(w, e) then 1 else 0
  }

  /** The last event is a failure that makes the streak reach the threshold. */
  ghost predicate BreaksAt(cfg: Settings, events: seq<Event>) {
    && events != [] && IsFailure(After(cfg, Front(events)), Last(events))
    && Streak(cfg, events) >= cfg.breaker.failureThreshold
  }

  lemma {:induction false} ExecutorStreak(cfg: Settings, events: seq<Event>)
    ensures var b := After(cfg, events).breaker;
            b.state.CLOSED? ==> b.failureCount == Streak(cfg, events)
  {
    if events != [] {
      ExecutorStreak(cfg, Front(events));
      RetriesBounded(cfg, Front(events));
      hide Gate, AttemptsBound;
    }
  }

  /** MAIN: the executor's breaker is open exactly when some failure on the way made the failures since the exchange
      last answered an order reach the threshold; from then on, by OpenIsForever, nothing is sent. */
  lemma {:induction false} ExecutorOpensIff(cfg: Settings, events: seq<Event>)
    ensures After(cfg, events).breaker.state.OPEN? <==> exists n | 0 < n <= |events| :: BreaksAt(cfg, events[..n])
    decreases |events|
  {
    if events == [] {
    } else {
      var before := After(cfg, Front(events));
      ExecutorOpensIff(cfg, Front(events));
      ExecutorStep(cfg, events);
      assert forall n | 0 < n < |events| :: events[..n] == Front(events)[..n];
      assert events[..|events|] == events;
      hide After, Streak, IsFailure, BreaksAt;
      if before.breaker.state.OPEN? {
        var n :| 0 < n <= |Front(events)| && BreaksAt(cfg, Front(events)[..n]);
        assert BreaksAt(cfg, events[..n]);
      }
    }
  }

  lemma ExecutorStep(cfg: Settings, events: seq<Event>)
    requires events != []
    ensures var before, after := After(cfg, Front(events)).breaker.state, After(cfg, events).breaker.state;
            && (before.OPEN? ==> after.OPEN?)
            && (!before.OPEN? ==> (after.OPEN? <==> BreaksAt(cfg, events)))
  {
    ExecutorStreak(cfg, Front(events));
    RetriesBounded(cfg, Front(events));
    hide Gate, AttemptsBound;
  }

  // ---------------------------------------------------------------- attempts that send nothing

  /** An attempt that meets an open breaker ends there: the idempotency table is not consulted and nothing is sent. */
  lemma RejectedAttempt(cfg: Settings, events: seq<Event>, e: Event)
    requires var w := After(cfg, events); e.Attempt? && Enabled(w, e) && w.breaker.state.OPEN?
    ensures var w, v := After(cfg, events), After(cfg, events + [e]);
            var attempt := w.tasks[e.task].phase.attempt;
            && v == w.(tasks := v.tasks) && |v.tasks| == |w.tasks|
            && (forall i | 0 <= i < |w.tasks| && i != e.task :: v.tasks[i] == w.tasks[i])
            && v.tasks[e.task]
               == Task(w.tasks[e.task].key, if attempt == cfg.maxAttempts then Finished(Failed) else Ready(attempt + 1))
  {
    RetriesBounded(cfg, events);
    assert AttemptsBound(After(cfg, events), cfg, e.task);
    assert Front(events + [e]) == events;
    AfterStep(cfg, events + [e]);
    hide After, SentBy;
  }

  /** In paper trading an attempt is checked, recorded and told DUPLICATE like a real one, and otherwise ends as placed
      without being sent. */
  lemma PaperAttempt(cfg: Settings, events: seq<Event>, epoch: int, e: Event)
    requires Orderly(events + [e], epoch) && e.Attempt? && Enabled(After(cfg, events), e) && cfg.paperTrading
    requires !After(cfg, events).breaker.state.OPEN?
    ensures var w, v := After(cfg, events), After(cfg, events + [e]);
            var keyed := Keyed(w.tasks[e.task].key);
            var log := LogWith(w, e);
            && v.sent == w.sent == [] && v.breaker == w.breaker && v.calls == (if keyed then log else w.calls)
            && v.tasks == MoveTo(w, e.task, v.tasks[e.task].phase)
            && (v.tasks[e.task].phase == Finished(Placed) <==>
                  keyed ==> forall a: nat | Latest(cfg.limits, log, a, |w.calls|) ::
                              FarApart(cfg.limits, log, a, |w.calls|))
            && v.tasks[e.task].phase in {Finished(Placed), Finished(Duplicate)}
  {
    hide After, Records, Latest, FarApart, Orderly, IdempotencyWindow.Orderly, TableAfter, CheckAndSet;
    var w := After(cfg, events);
    LogIsOrderly(cfg, events, epoch, e);
    RunExplained(cfg, events, epoch);
    RetriesBounded(cfg, events);
    LogHasTable(w, cfg, epoch, ClockAfter(events, epoch));
    PaperRecords(w, cfg, e);
    assert Front(events + [e]) == events;
    AfterStep(cfg, events + [e]);
    RecordsIff(cfg.limits, LogWith(w, e), epoch, |w.calls|);
  }

  lemma PaperRecords(w: World, cfg: Settings, e: Event)
    requires e.Attempt? && Enabled(w, e) && !w.breaker.state.OPEN? && cfg.paperTrading
    requires w.table == TableAfter(cfg.limits, w.calls)
    ensures var v, keyed := Next(w, cfg, e), Keyed(w.tasks[e.task].key);
            && v.sent == w.sent && v.breaker == w.breaker && v.calls == (if keyed then LogWith(w, e) else w.calls)
            && v.tasks == MoveTo(w, e.task,
                                 Finished(if keyed ==> Records(cfg.limits, LogWith(w, e), |w.calls|) then Placed
                                          else Duplicate))
  {
    hide CheckAndSet, TableAfter;
    var log := LogWith(w, e);
    assert log[..|w.calls|] == w.calls && log[|w.calls|] == CallOf(w, e);
  }
}
