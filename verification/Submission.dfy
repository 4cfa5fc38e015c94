/** Exactly-once submission in execution/binance_executor.py: place_order under the retry decorator, with
    the breaker and the idempotency table, as interleaved atomic steps. A step ends where the code
    awaits: at the exchange call and at the pause between attempts. */
module Submission {
  import opened Prelude
  import opened Idempotency
  import opened IdempotencyWindow
  import opened IdempotencyLog
  import CB = CircuitBreaker

  datatype Settings = Settings(limits: Limits, breaker: CB.Settings, maxAttempts: nat, paperTrading: bool)

  datatype Verdict = Rejected | AlreadySeen | Simulated | Send

  datatype Gated = Gated(table: seq<Record<()>>, verdict: Verdict)

  /** An empty key counts as no key. */
  predicate Keyed(key: Key) {
    key != ""
  }

  /** The body of place_order up to the exchange call. */
  function Gate(state: CB.State, table: seq<Record<()>>, cfg: Settings, call: Call): Gated {
    if state.OPEN? then Gated(table, Rejected)
    else if Keyed(call.key) then
      var answer := CheckAndSet(table, cfg.limits, call);
      Gated(answer.records, if answer.duplicate then AlreadySeen else if cfg.paperTrading then Simulated else Send)
    else Gated(table, if cfg.paperTrading then Simulated else Send)
  }

  datatype Outcome = Placed | Duplicate | Failed

  datatype Phase = Ready(attempt: nat) | Waiting(attempt: nat) | Finished(outcome: Outcome)

  datatype Task = Task(key: Key, phase: Phase)

  /** `calls` logs every check of the idempotency table, `sent` every exchange call: its task and, if it
      has a key, the position of its check in `calls`. */
  datatype Sent = Sent(task: nat, check: Option<nat>)

  datatype World =
    World(breaker: CB.Breaker, table: seq<Record<()>>, tasks: seq<Task>, calls: seq<Call>, sent: seq<Sent>)

  const START := World(CB.NEW_BREAKER, [], [], [], [])

  datatype Event =
    | Begin(key: Key)
    | Attempt(task: nat, cleanedAt: int, checkedAt: int, recordedAt: int)
    | Reply(task: nat, ok: bool, at: int)
    | ReadFailed(at: int)                // an order-book read, which shares the breaker, raised

  predicate Enabled(w: World, e: Event) {
    match e
    case Begin(_) => true
    case Attempt(task, _, _, _) => task < |w.tasks| && w.tasks[task].phase.Ready?
    case Reply(task, _, _) => task < |w.tasks| && w.tasks[task].phase.Waiting?
    case ReadFailed(_) => true
  }

  function CallOf(w: World, e: Event): Call
    requires e.Attempt? && Enabled(w, e)
  {
    Call(w.tasks[e.task].key, e.cleanedAt, e.checkedAt, e.recordedAt)
  }

  /** An exception ends the attempt: the decorator retries it, up to its last attempt. */
  function AfterRaise(cfg: Settings, attempt: nat): Phase {
    if attempt < cfg.maxAttempts then Ready(attempt + 1) else Finished(Failed)
  }

  function MoveTo(w: World, task: nat, phase: Phase): seq<Task>
    requires task < |w.tasks|
  {
    w.tasks[task := w.tasks[task].(phase := phase)]
  }

  function Next(w: World, cfg: Settings, e: Event): World
    requires Enabled(w, e)
  {
    match e
    case Begin(key) =>
      w.(tasks := w.tasks + [Task(key, if cfg.maxAttempts > 0 then Ready(1) else Finished(Failed))])
    case Attempt(task, _, _, _) =>
      var call := CallOf(w, e);
      var gated := Gate(w.breaker.state, w.table, cfg, call);
      var checked := Keyed(call.key) && !gated.verdict.Rejected?;
      var attempt := w.tasks[task].phase.attempt;
      World(w.breaker, gated.table,
            MoveTo(w, task, match gated.verdict
                            case Rejected => AfterRaise(cfg, attempt)
                            case AlreadySeen => Finished(Duplicate)
                            case Simulated => Finished(Placed)
                            case Send => Waiting(attempt)),
            if checked then w.calls + [call] else w.calls,
            if gated.verdict.Send? then w.sent + [Sent(task, if checked then Some(|w.calls|) else None)] else w.sent)
    case Reply(task, ok, at) =>
      if ok then
        w.(breaker := CB.RecordSuccess(w.breaker, at), tasks := MoveTo(w, task, Finished(Placed)))
      else
        w.(breaker := CB.RecordFailure(w.breaker, cfg.breaker, at),
           tasks := MoveTo(w, task, AfterRaise(cfg, w.tasks[task].phase.attempt)))
    case ReadFailed(at) => w.(breaker := CB.RecordFailure(w.breaker, cfg.breaker, at))
  }

  function After(cfg: Settings, events: seq<Event>): World {
    if events == [] then START
    else
      var before := After(cfg, Front(events));
      if Enabled(before, Last(events)) then Next(before, cfg, Last(events)) else before
  }

  /** Clock readings never run backwards over the run; a Begin reads no clock. */
  function Started(e: Event, now: int): int {
    match e
    case Begin(_) => now
    case Attempt(_, cleanedAt, _, _) => cleanedAt
    case Reply(_, _, at) => at
    case ReadFailed(at) => at
  }

  function Ended(e: Event, now: int): int {
    match e
    case Begin(_) => now
    case Attempt(_, _, _, recordedAt) => recordedAt
    case Reply(_, _, at) => at
    case ReadFailed(at) => at
  }

  function ClockAfter(events: seq<Event>, epoch: int): int {
    if events == [] then epoch else Ended(Last(events), ClockAfter(Front(events), epoch))
  }

  ghost predicate Orderly(events: seq<Event>, epoch: int) {
    events == [] ||
    (var now := ClockAfter(Front(events), epoch);
     && Orderly(Front(events), epoch)
     && now <= Started(Last(events), now)
     && (Last(events).Attempt? ==> Last(events).cleanedAt <= Last(events).checkedAt <= Last(events).recordedAt))
  }

  // ---------------------------------------------------------------- the log explains the table

  /** The key of a sent order was checked, and answered False, at the logged position. */
  ghost predicate SentWasChecked(w: World, cfg: Settings, s: Sent) {
    && s.task < |w.tasks|
    && (s.check.Some? <==> Keyed(w.tasks[s.task].key))
    && (s.check.Some? ==>
          var c := s.check.value;
          && Records(cfg.limits, w.calls, c) && w.calls[c].key == w.tasks[s.task].key)
  }

  lemma CheckedStays(w: World, v: World, cfg: Settings, s: Sent)
    requires SentWasChecked(w, cfg, s)
    requires w.calls <= v.calls && |w.tasks| <= |v.tasks|
    requires forall i | 0 <= i < |w.tasks| :: v.tasks[i].key == w.tasks[i].key
    ensures SentWasChecked(v, cfg, s)
  {
    hide CheckAndSet, TableAfter;
    if s.check.Some? {
      assert v.calls[..s.check.value] == w.calls[..s.check.value];
    }
  }

  lemma NextKeepsKeys(w: World, cfg: Settings, e: Event)
    requires Enabled(w, e)
    ensures var v := Next(w, cfg, e);
            && w.calls <= v.calls && |w.tasks| <= |v.tasks|
            && forall i | 0 <= i < |w.tasks| :: v.tasks[i].key == w.tasks[i].key
  {
    hide Gate;
  }

  ghost predicate LogExplains(w: World, cfg: Settings, epoch: int, now: int) {
    && w.table == TableAfter(cfg.limits, w.calls)
    && IdempotencyWindow.Orderly(w.calls, epoch) && (w.calls == [] || Last(w.calls).recordedAt <= now) && epoch <= now
  }

  ghost predicate SentExplained(w: World, cfg: Settings) {
    && (forall i | 0 <= i < |w.sent| :: SentWasChecked(w, cfg, w.sent[i]))
    && (forall i, j | 0 <= i < j < |w.sent| && w.sent[i].check.Some? && w.sent[j].check.Some? ::
          w.sent[i].check.value < w.sent[j].check.value)
  }

  lemma NextLogExplains(w: World, cfg: Settings, e: Event, epoch: int, now: int)
    requires Enabled(w, e) && LogExplains(w, cfg, epoch, now)
    requires now <= Started(e, now) && (e.Attempt? ==> e.cleanedAt <= e.checkedAt <= e.recordedAt)
    ensures LogExplains(Next(w, cfg, e), cfg, epoch, Ended(e, now))
  {
    hide CheckAndSet;
    if e.Attempt? {
      var call := CallOf(w, e);
      if Keyed(call.key) && !Gate(w.breaker.state, w.table, cfg, call).verdict.Rejected? {
        OrderlyAppend(w.calls, call, epoch);
        RunCallsAppend<()>([], cfg.limits, w.calls, [call]);
      }
    }
  }

  /** One more order was sent, and its check, if it has a key, is the next of the log. */
  ghost predicate OneMoreSent(w: World, v: World, cfg: Settings) {
    && |v.sent| == |w.sent| + 1 && v.sent[..|w.sent|] == w.sent && SentWasChecked(v, cfg, v.sent[|w.sent|])
    && (v.sent[|w.sent|].check.Some? ==> v.sent[|w.sent|].check.value == |w.calls|)
  }

  /** What was sent stays explained when the log grows, and so is one more order with a check of its own. */
  lemma GrownSentExplained(w: World, v: World, cfg: Settings)
    requires SentExplained(w, cfg) && w.calls <= v.calls && |w.tasks| <= |v.tasks|
    requires forall i | 0 <= i < |w.tasks| :: v.tasks[i].key == w.tasks[i].key
    requires v.sent == w.sent || OneMoreSent(w, v, cfg)
    ensures SentExplained(v, cfg)
  {
    hide TableAfter, CheckAndSet;
    forall i | 0 <= i < |w.sent|
      ensures SentWasChecked(v, cfg, w.sent[i])
    {
      CheckedStays(w, v, cfg, w.sent[i]);
    }
  }

  lemma NewlySentWasChecked(w: World, cfg: Settings, e: Event)
    requires Enabled(w, e) && |Next(w, cfg, e).sent| > |w.sent| && w.table == TableAfter(cfg.limits, w.calls)
    ensures var v := Next(w, cfg, e);
            && v.sent == w.sent + [Last(v.sent)] && SentWasChecked(v, cfg, Last(v.sent))
            && (Last(v.sent).check.Some? ==> Last(v.sent).check.value == |w.calls|)
  {
    hide CheckAndSet, TableAfter;
    var v := Next(w, cfg, e);
    var call := CallOf(w, e);
    if Keyed(call.key) {
      assert v.calls == w.calls + [call] && v.calls[..|w.calls|] == w.calls && v.calls[|w.calls|] == call;
    }
  }

  lemma SentGrowsByOne(w: World, cfg: Settings, e: Event)
    requires Enabled(w, e) && w.table == TableAfter(cfg.limits, w.calls)
    ensures var v := Next(w, cfg, e);
            v.sent == w.sent || OneMoreSent(w, v, cfg)
  {
    hide CheckAndSet, TableAfter, SentWasChecked;
    if |Next(w, cfg, e).sent| > |w.sent| {
      NewlySentWasChecked(w, cfg, e);
    }
  }

  lemma {:induction false} RunExplained(cfg: Settings, events: seq<Event>, epoch: int)
    requires Orderly(events, epoch)
    ensures LogExplains(After(cfg, events), cfg, epoch, ClockAfter(events, epoch))
    ensures SentExplained(After(cfg, events), cfg)
  {
    hide LogExplains, SentExplained, Next;
    if events == [] {
      StartExplained(cfg, epoch);
    } else {
      RunExplained(cfg, Front(events), epoch);
      var before, now := After(cfg, Front(events)), ClockAfter(Front(events), epoch);
      if Enabled(before, Last(events)) {
        NextLogExplains(before, cfg, Last(events), epoch, now);
        LogHasTable(before, cfg, epoch, now);
        NextKeepsKeys(before, cfg, Last(events));
        SentGrowsByOne(before, cfg, Last(events));
        GrownSentExplained(before, Next(before, cfg, Last(events)), cfg);
      } else {
        LogWaits(before, cfg, epoch, now, Ended(Last(events), now));
      }
    }
  }

  lemma StartExplained(cfg: Settings, epoch: int)
    ensures LogExplains(START, cfg, epoch, epoch) && SentExplained(START, cfg)
  {
  }

  lemma LogHasTable(w: World, cfg: Settings, epoch: int, now: int)
    requires LogExplains(w, cfg, epoch, now)
    ensures w.table == TableAfter(cfg.limits, w.calls)
  {
  }

  lemma LogWaits(w: World, cfg: Settings, epoch: int, now: int, later: int)
    requires LogExplains(w, cfg, epoch, now) && now <= later
    ensures LogExplains(w, cfg, epoch, later)
  {
  }

  // ---------------------------------------------------------------- at most once

  /** The orders sent at `p` and at `q` carry the same key. */
  ghost predicate SameKeySent(w: World, p: nat, q: nat) {
    && p < q < |w.sent| && w.sent[p].check.Some? && w.sent[q].check.Some?
    && w.sent[p].task < |w.tasks| && w.sent[q].task < |w.tasks|
    && w.tasks[w.sent[p].task].key == w.tasks[w.sent[q].task].key
  }

  /** MAIN: over every interleaving of place_order calls, their internal retries and the exchange's
      replies, each exchange call with a key was let through by a check that recorded the key anew, and two
      such checks of one key are at least the record's lifetime apart, unless enough other keys were recorded
      in between to evict it. */
  lemma AtMostOnce(cfg: Settings, events: seq<Event>, epoch: int, p: nat, q: nat)
    requires Orderly(events, epoch) && SameKeySent(After(cfg, events), p, q)
    ensures var w := After(cfg, events);
            && SentWasChecked(w, cfg, w.sent[p]) && SentWasChecked(w, cfg, w.sent[q])
            && FarApart(cfg.limits, w.calls, w.sent[p].check.value, w.sent[q].check.value)
  {
    var w := After(cfg, events);
    RunExplained(cfg, events, epoch);
    hide After, CheckAndSet, TableAfter, OthersBetween;
    assert SentWasChecked(w, cfg, w.sent[p]) && SentWasChecked(w, cfg, w.sent[q]);
    TwoRecordings(cfg.limits, w.calls, epoch, w.sent[p].check.value, w.sent[q].check.value);
  }

  // ---------------------------------------------------------------- retries

  function SentBy(sent: seq<Sent>, task: nat): nat {
    if sent == [] then 0 else SentBy(Front(sent), task) + if Last(sent).task == task then 1 else 0
  }

  /** A task has sent at most one order per attempt, and without an open breaker it has sent one for every
      attempt it has left behind. */
  ghost predicate AttemptsBound(w: World, cfg: Settings, task: nat)
    requires task < |w.tasks|
  {
    match w.tasks[task].phase
    case Ready(attempt) =>
      1 <= attempt <= cfg.maxAttempts && SentBy(w.sent, task) <= attempt - 1
      && (!w.breaker.state.OPEN? ==> SentBy(w.sent, task) == attempt - 1)
    case Waiting(attempt) => 1 <= attempt <= cfg.maxAttempts && SentBy(w.sent, task) <= attempt
      && (!w.breaker.state.OPEN? ==> SentBy(w.sent, task) == attempt)
    case Finished(_) => SentBy(w.sent, task) <= cfg.maxAttempts
  }

  ghost predicate SentInRange(w: World) {
    forall s | s in w.sent :: s.task < |w.tasks|
  }

  lemma {:induction false} NoneSentBy(sent: seq<Sent>, task: nat)
    requires forall s | s in sent :: s.task != task
    ensures SentBy(sent, task) == 0
  {
    if sent != [] {
      assert Last(sent) in sent;
      NoneSentBy(Front(sent), task);
    }
  }

  lemma SentGrows(sent: seq<Sent>, s: Sent, task: nat)
    ensures SentBy(sent + [s], task) == SentBy(sent, task) + if s.task == task then 1 else 0
  {
    assert Front(sent + [s]) == sent;
  }

  lemma NextAttemptsBound(w: World, cfg: Settings, e: Event, task: nat)
    requires Enabled(w, e) && SentInRange(w) && task < |Next(w, cfg, e).tasks|
    requires task < |w.tasks| ==> AttemptsBound(w, cfg, task)
    requires w.breaker.state.CLOSED? || w.breaker.state.OPEN?
    ensures AttemptsBound(Next(w, cfg, e), cfg, task)
  {
    hide CheckAndSet, SentBy;
    if task >= |w.tasks| {
      NoneSentBy(w.sent, task);
    }
    if e.Attempt? {
      AttemptKeepsBound(w, cfg, e, task);
    }
  }

  lemma AttemptKeepsBound(w: World, cfg: Settings, e: Event, task: nat)
    requires Enabled(w, e) && e.Attempt? && task < |w.tasks| && AttemptsBound(w, cfg, task)
    ensures |Next(w, cfg, e).tasks| == |w.tasks| && AttemptsBound(Next(w, cfg, e), cfg, task)
  {
    hide CheckAndSet, SentBy;
    SentGrows(w.sent, Sent(e.task, if Keyed(w.tasks[e.task].key) then Some(|w.calls|) else None), task);
  }

  /** MAIN: neither orders nor order-book reads call the breaker's admission step, so the breaker is only ever
      closed or open; every task sends at most one order per attempt and at most `maxAttempts` in all. */
  lemma {:induction false} RetriesBounded(cfg: Settings, events: seq<Event>)
    ensures var w := After(cfg, events);
            && (w.breaker.state.CLOSED? || w.breaker.state.OPEN?) && w.breaker.closing == []
            && SentInRange(w) && (cfg.paperTrading ==> w.sent == [])
            && forall task | 0 <= task < |w.tasks| :: AttemptsBound(w, cfg, task)
  {
    if events != [] {
      var before := After(cfg, Front(events));
      RetriesBounded(cfg, Front(events));
      hide After, AttemptsBound;
      if Enabled(before, Last(events)) {
        var w := Next(before, cfg, Last(events));
        forall task | 0 <= task < |w.tasks|
          ensures AttemptsBound(w, cfg, task)
        {
          NextAttemptsBound(before, cfg, Last(events), task);
        }
        NextKeepsKeys(before, cfg, Last(events));
        assert forall s | s in w.sent :: s in before.sent || s.task < |before.tasks|;
        AfterStep(cfg, events);
      } else {
        AfterStep(cfg, events);
      }
    }
  }

  lemma AfterStep(cfg: Settings, events: seq<Event>)
    requires events != []
    ensures var before := After(cfg, Front(events));
            After(cfg, events) == if Enabled(before, Last(events)) then Next(before, cfg, Last(events)) else before
  {
  }

  /** MAIN: once the executor's breaker opens it stays open and nothing is ever sent again. */
  lemma {:induction false} OpenIsForever(cfg: Settings, events: seq<Event>, more: seq<Event>)
    requires After(cfg, events).breaker.state.OPEN?
    ensures After(cfg, events + more).breaker.state.OPEN?
    ensures After(cfg, events + more).sent == After(cfg, events).sent
    decreases |more|
  {
    if more == [] {
      assert events + more == events;
    } else {
      OpenIsForever(cfg, events, Front(more));
      assert Front(events + more) == events + Front(more) && Last(events + more) == Last(more);
      hide After;
      AfterStep(cfg, events + more);
    }
  }

  lemma {:induction false} SomeSentBy(sent: seq<Sent>, task: nat) returns (p: nat)
    requires SentBy(sent, task) > 0
    ensures p < |sent| && sent[p].task == task
  {
    if Last(sent).task == task {
      p := |sent| - 1;
    } else {
      p := SomeSentBy(Front(sent), task);
    }
  }

  /** Nothing guards an order without a key: while the breaker is closed and trading is real, every one of its attempts
      sends it, the first and the retries alike. */
  lemma UnkeyedAttemptSends(cfg: Settings, events: seq<Event>, e: Event)
    requires e.Attempt? && Enabled(After(cfg, events), e) && !cfg.paperTrading
    requires var w := After(cfg, events); !Keyed(w.tasks[e.task].key) && !w.breaker.state.OPEN?
    ensures var w, v := After(cfg, events), After(cfg, events + [e]);
            && v.sent == w.sent + [Sent(e.task, None)]
            && SentBy(v.sent, e.task) == w.tasks[e.task].phase.attempt
  {
    RetriesBounded(cfg, events);
    var w := After(cfg, events);
    assert AttemptsBound(w, cfg, e.task);
    assert Front(events + [e]) == events;
    AfterStep(cfg, events + [e]);
    hide After;
    SentGrows(w.sent, Sent(e.task, None), e.task);
  }
}
