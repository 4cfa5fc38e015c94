/** Exactly when an attempt of an order with a key is sent, and what a retry is told otherwise. */
module SubmissionRetries {
  import opened Prelude
  import opened Idempotency
  import IdempotencyWindow
  import opened IdempotencyLog
  import opened IdempotencyVerdicts
  import opened Submission
  import CB = CircuitBreaker

  /** The log once this attempt's check has been made. */
  function LogWith(w: World, e: Event): seq<Call>
    requires e.Attempt? && Enabled(w, e)
  {
    w.calls + [CallOf(w, e)]
  }

  lemma KeyedAttemptRecords(w: World, cfg: Settings, e: Event)
    requires e.Attempt? && Enabled(w, e) && Keyed(w.tasks[e.task].key) && !w.breaker.state.OPEN? && !cfg.paperTrading
    requires w.table == TableAfter(cfg.limits, w.calls)
    ensures var v := Next(w, cfg, e);
            && v.calls == LogWith(w, e)
            && (v.sent == w.sent + [Sent(e.task, Some(|w.calls|))] <==> Records(cfg.limits, v.calls, |w.calls|))
            && (!Records(cfg.limits, v.calls, |w.calls|) ==>
                  v == w.(table := v.table, calls := v.calls, tasks := MoveTo(w, e.task, Finished(Duplicate))))
  {
    hide CheckAndSet, TableAfter;
    var log := LogWith(w, e);
    assert log[..|w.calls|] == w.calls && log[|w.calls|] == CallOf(w, e);
  }

  lemma LogIsOrderly(cfg: Settings, events: seq<Event>, epoch: int, e: Event)
    requires Orderly(events + [e], epoch) && e.Attempt? && Enabled(After(cfg, events), e)
    ensures Orderly(events, epoch) && IdempotencyWindow.Orderly(LogWith(After(cfg, events), e), epoch)
  {
    assert Front(events + [e]) == events;
    RunExplained(cfg, events, epoch);
    hide After, TableAfter;
    OrderlyAppend(After(cfg, events).calls, CallOf(After(cfg, events), e), epoch);
  }

  /** MAIN: over every interleaving, with a closed breaker and real trading, an attempt of an order that has a key is
      sent if and only if the latest recording of that key, by whichever call, has expired when the table is consulted
      or was followed by enough other keys to evict it; otherwise it ends as DUPLICATE. */
  lemma KeyedAttemptSendsIff(cfg: Settings, events: seq<Event>, epoch: int, e: Event)
    requires Orderly(events + [e], epoch) && e.Attempt? && Enabled(After(cfg, events), e) && !cfg.paperTrading
    requires var w := After(cfg, events); Keyed(w.tasks[e.task].key) && !w.breaker.state.OPEN?
    ensures var w, v := After(cfg, events), After(cfg, events + [e]);
            && v.calls == LogWith(w, e)
            && (v.sent == w.sent + [Sent(e.task, Some(|w.calls|))]
                <==> forall a: nat | Latest(cfg.limits, v.calls, a, |w.calls|) ::
                       FarApart(cfg.limits, v.calls, a, |w.calls|))
            && (v.sent != w.sent + [Sent(e.task, Some(|w.calls|))] ==>
                  v == w.(table := v.table, calls := v.calls, tasks := MoveTo(w, e.task, Finished(Duplicate))))
  {
    hide After, Next, TableAfter, Records, Latest, FarApart, Orderly, IdempotencyWindow.Orderly;
    var w := After(cfg, events);
    LogIsOrderly(cfg, events, epoch, e);
    RunExplained(cfg, events, epoch);
    LogHasTable(w, cfg, epoch, ClockAfter(events, epoch));
    KeyedAttemptRecords(w, cfg, e);
    assert Front(events + [e]) == events;
    AfterStep(cfg, events + [e]);
    RecordsIff(cfg.limits, LogWith(w, e), epoch, |w.calls|);
  }

  /** The task's own first attempt recorded its key. */
  lemma RetryWasRecorded(cfg: Settings, events: seq<Event>, epoch: int, e: Event) returns (p: nat)
    requires Orderly(events, epoch) && e.Attempt? && Enabled(After(cfg, events), e)
    requires var w := After(cfg, events);
             w.tasks[e.task].phase.attempt >= 2 && Keyed(w.tasks[e.task].key) && !w.breaker.state.OPEN?
    ensures var w := After(cfg, events);
            && !cfg.paperTrading && p < |w.sent| && w.sent[p].task == e.task && w.sent[p].check.Some?
            && Records(cfg.limits, w.calls, w.sent[p].check.value)
            && w.calls[w.sent[p].check.value].key == w.tasks[e.task].key
  {
    hide After, Records, Orderly;
    var w := After(cfg, events);
    RetriesBounded(cfg, events);
    assert AttemptsBound(w, cfg, e.task);
    p := SomeSentBy(w.sent, e.task);
    RunExplained(cfg, events, epoch);
    assert SentWasChecked(w, cfg, w.sent[p]);
  }

  /** MAIN: a retry of an order that has a key, while the breaker is closed, sends it again if and only if the latest
      recording of the key, which is its own or a later one, has expired or was followed by enough other keys to evict
      it. Otherwise the retry is told DUPLICATE and returns normally although the attempt before it failed. */
  lemma RetrySendsIff(cfg: Settings, events: seq<Event>, epoch: int, e: Event) returns (p: nat, a: nat)
    requires Orderly(events + [e], epoch) && e.Attempt? && Enabled(After(cfg, events), e)
    requires var w := After(cfg, events);
             w.tasks[e.task].phase.attempt >= 2 && Keyed(w.tasks[e.task].key) && !w.breaker.state.OPEN?
    ensures var w, v := After(cfg, events), After(cfg, events + [e]);
            && p < |w.sent| && w.sent[p].task == e.task && w.sent[p].check.Some? && w.sent[p].check.value <= a
            && v.calls == LogWith(w, e) && Latest(cfg.limits, v.calls, a, |w.calls|)
            && (v.sent == w.sent + [Sent(e.task, Some(|w.calls|))] <==>
                  || e.checkedAt >= v.calls[a].recordedAt + cfg.limits.ttl
                  || |OthersBetween(cfg.limits, v.calls, a, |w.calls|)| >= cfg.limits.maxSize)
            && (v.sent != w.sent + [Sent(e.task, Some(|w.calls|))] ==>
                  v == w.(table := v.table, calls := v.calls, tasks := MoveTo(w, e.task, Finished(Duplicate))))
  {
    hide After, Next, TableAfter, OthersBetween, Orderly, Records;
    var w, v := After(cfg, events), After(cfg, events + [e]);
    LogIsOrderly(cfg, events, epoch, e);
    p := RetryWasRecorded(cfg, events, epoch, e);
    KeyedAttemptSendsIff(cfg, events, epoch, e);
    a := LatestAfter(cfg.limits, w.calls, CallOf(w, e), w.sent[p].check.value);
    forall other: nat | Latest(cfg.limits, v.calls, other, |w.calls|)
      ensures other == a
    {
      LatestIsOne(cfg.limits, v.calls, a, other, |w.calls|);
    }
  }

  /** A recording in a log has a latest one behind the log's next check of its key, itself or later. */
  lemma LatestAfter(limits: Limits, calls: seq<Call>, next: Call, c: nat) returns (a: nat)
    requires Records(limits, calls, c) && calls[c].key == next.key
    ensures c <= a && Latest(limits, calls + [next], a, |calls|)
  {
    hide CheckAndSet, TableAfter;
    var log := calls + [next];
    assert log[..c] == calls[..c] && log[c] == calls[c];
    hide Records;
    a := LatestExists(limits, log, |calls|, |calls|);
  }

  /** Under every setting that retries at all and does not open on one failure: an order fails once, is retried within
      the lifetime of its record, and is told DUPLICATE. */
  lemma FailedThenDuplicate(cfg: Settings)
    requires cfg.maxAttempts >= 2 && cfg.breaker.failureThreshold >= 2 && !cfg.paperTrading
    requires cfg.limits.ttl > 0 && cfg.limits.maxSize >= 1
    ensures var w := After(cfg, [Begin("x"), Attempt(0, 0, 0, 0), Reply(0, false, 0), Attempt(0, 0, 0, 0)]);
            && w.sent == [Sent(0, Some(0))] && w.tasks == [Task("x", Finished(Duplicate))]
  {
    var events, e := [Begin("x"), Attempt(0, 0, 0, 0), Reply(0, false, 0)], Attempt(0, 0, 0, 0);
    AfterFailure(cfg);
    assert [Begin("x"), Attempt(0, 0, 0, 0), Reply(0, false, 0), Attempt(0, 0, 0, 0)] == events + [e];
    FailureIsOrderly();
    hide After, Orderly, TableAfter, CheckAndSet;
    var p, a := RetrySendsIff(cfg, events, 0, e);
    var w, v := After(cfg, events), After(cfg, events + [e]);
    assert a == 0 && v.calls[1..1] == [];
    assert OthersBetween(cfg.limits, v.calls, 0, 1) == {};
  }

  lemma AfterFailure(cfg: Settings)
    requires cfg.maxAttempts >= 2 && cfg.breaker.failureThreshold >= 2 && !cfg.paperTrading
    ensures var w := After(cfg, [Begin("x"), Attempt(0, 0, 0, 0), Reply(0, false, 0)]);
            && w.tasks == [Task("x", Ready(2))] && w.breaker.state.CLOSED?
            && w.sent == [Sent(0, Some(0))] && w.calls == [Call("x", 0, 0, 0)]
  {
    hide CheckAndSet;
    var b, s, r := Begin("x"), Attempt(0, 0, 0, 0), Reply(0, false, 0);
    assert Front([b]) == [] && Front([b, s]) == [b] && Front([b, s, r]) == [b, s];
    assert After(cfg, [b]) == START.(tasks := [Task("x", Ready(1))]);
    NewKeyIsRecorded(cfg.limits, Call("x", 0, 0, 0));
    assert After(cfg, [b, s]).tasks == [Task("x", Waiting(1))];
    assert After(cfg, [b, s]).sent == [Sent(0, Some(0))] && After(cfg, [b, s]).breaker == CB.NEW_BREAKER;
  }

  lemma NewKeyIsRecorded(limits: Limits, call: Call)
    ensures !CheckAndSet<()>([], limits, call).duplicate
  {
  }

  lemma FailureIsOrderly()
    ensures Orderly([Begin("x"), Attempt(0, 0, 0, 0), Reply(0, false, 0)] + [Attempt(0, 0, 0, 0)], 0)
  {
    var b, s, r := Begin("x"), Attempt(0, 0, 0, 0), Reply(0, false, 0);
    assert Front([b, s]) == [b] && Front([b, s, r]) == [b, s];
    assert Front([b, s, r] + [s]) == [b, s, r];
    var none: seq<Event> := [];
    assert Orderly(none, 0) && ClockAfter(none, 0) == 0;
    assert Front([b]) == none;
    assert Orderly([b], 0) && ClockAfter([b], 0) == 0;
    assert Orderly([b, s], 0) && ClockAfter([b, s], 0) == 0;
    assert Orderly([b, s, r], 0) && ClockAfter([b, s, r], 0) == 0;
  }
}
