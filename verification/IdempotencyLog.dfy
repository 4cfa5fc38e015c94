/** A log of checks explains the table: what two recordings of one key, at two positions of the log, say
    about the time and the traffic between them. */
module IdempotencyLog {
  import opened Prelude
  import opened Idempotency
  import opened IdempotencyWindow

  lemma {:induction false} RunCallsAppend<V>(records: seq<Record<V>>, limits: Limits, a: seq<Call>, b: seq<Call>)
    ensures RunCalls(records, limits, a + b) == RunCalls(RunCalls(records, limits, a), limits, b)
    decreases |a|
  {
    hide CheckAndSet;
    if a == [] {
      assert a + b == b;
    } else {
      assert (a + b)[1..] == a[1..] + b;
      RunCallsAppend(CheckAndSet(records, limits, a[0]).records, limits, a[1..], b);
    }
  }

  lemma {:induction false} OrderlyAppend(a: seq<Call>, call: Call, epoch: int)
    requires Orderly(a, epoch) && InOrder(call, if a == [] then epoch else Last(a).recordedAt)
    ensures Orderly(a + [call], epoch)
    decreases |a|
  {
    if a == [] {
      assert Orderly([call][1..], call.recordedAt);
    } else {
      assert (a + [call])[1..] == a[1..] + [call];
      OrderlyAppend(a[1..], call, a[0].recordedAt);
    }
  }

  /** The table a sequence of checks makes out of nothing. */
  function TableAfter(limits: Limits, calls: seq<Call>): seq<Record<()>> {
    RunCalls([], limits, calls)
  }

  lemma {:induction false} OrderlySplits(calls: seq<Call>, epoch: int, n: nat)
    requires Orderly(calls, epoch) && n <= |calls|
    ensures Orderly(calls[..n], epoch)
    ensures Orderly(calls[n..], if n == 0 then epoch else calls[n - 1].recordedAt)
    decreases n
  {
    if n == 0 {
      assert calls[0..] == calls;
    } else {
      OrderlySplits(calls[1..], calls[0].recordedAt, n - 1);
      assert calls[..n][1..] == calls[1..][..n - 1] && calls[1..][n - 1..] == calls[n..];
    }
  }

  lemma {:induction false} TableFits(limits: Limits, calls: seq<Call>, epoch: int)
    requires Orderly(calls, epoch)
    ensures var now := if calls == [] then epoch else Last(calls).recordedAt;
            Valid(TableAfter(limits, calls), limits, now) && |TableAfter(limits, calls)| <= limits.maxSize
  {
    if calls != [] {
      var n := |calls| - 1;
      OrderlySplits(calls, epoch, n);
      hide CheckAndSet, Valid;
      TableFits(limits, calls[..n], epoch);
      var now := if n == 0 then epoch else calls[n - 1].recordedAt;
      assert calls[n..] == [calls[n]] && calls == calls[..n] + [calls[n]];
      RunCallsAppend<()>([], limits, calls[..n], [calls[n]]);
      CallFits(TableAfter(limits, calls[..n]), limits, calls[n], now);
      CallKeepsValid(TableAfter(limits, calls[..n]), limits, calls[n], now);
    } else {
      RunKeepsValid<()>([], limits, [], epoch);
    }
  }

  /** Other keys recorded between two positions of the log. */
  function OthersBetween(limits: Limits, calls: seq<Call>, a: nat, b: nat): set<Key>
    requires a < b <= |calls|
  {
    Recorded(TableAfter(limits, calls[..a + 1]), limits, calls[a + 1..b]) - {calls[a].key}
  }

  lemma LogTimes(calls: seq<Call>, epoch: int, a: nat, b: nat)
    requires Orderly(calls, epoch) && a < b < |calls|
    ensures OrderlyRun(calls[a], calls[a + 1..b], calls[b], if a == 0 then epoch else calls[a - 1].recordedAt)
  {
    OrderlySplits(calls, epoch, a);
    OrderlySplits(calls, epoch, b);
    OrderlySplits(calls[..b], epoch, a + 1);
    assert calls[..b][a + 1..] == calls[a + 1..b];
    assert calls[a..][0] == calls[a] && calls[b..][0] == calls[b];
  }

  lemma TableSplits(limits: Limits, calls: seq<Call>, a: nat, b: nat)
    requires a < b <= |calls|
    ensures var table := CheckAndSet(TableAfter(limits, calls[..a]), limits, calls[a]).records;
            && table == TableAfter(limits, calls[..a + 1])
            && TableAfter(limits, calls[..b]) == RunCalls(table, limits, calls[a + 1..b])
  {
    assert calls[..a + 1] == calls[..a] + [calls[a]] && calls[..b] == calls[..a + 1] + calls[a + 1..b];
    RunCallsAppend<()>([], limits, calls[..a], [calls[a]]);
    RunCallsAppend<()>([], limits, calls[..a + 1], calls[a + 1..b]);
    hide CheckAndSet;
  }

  /** The second check looked after the first record's life, or after enough other keys to evict it. */
  ghost predicate FarApart(limits: Limits, calls: seq<Call>, a: nat, b: nat) {
    && a < b < |calls|
    && (|| calls[b].checkedAt >= calls[a].recordedAt + limits.ttl
        || |OthersBetween(limits, calls, a, b)| >= limits.maxSize)
  }

  /** The check at this position of the log answered False, and so recorded its key. */
  ghost predicate Records(limits: Limits, calls: seq<Call>, c: nat) {
    c < |calls| && !CheckAndSet(TableAfter(limits, calls[..c]), limits, calls[c]).duplicate
  }

  /** MAIN: in a log of checks of an initially empty table, two checks that both record one key are far
      apart. */
  lemma TwoRecordings(limits: Limits, calls: seq<Call>, epoch: int, a: nat, b: nat)
    requires Orderly(calls, epoch) && a < b && Records(limits, calls, a) && Records(limits, calls, b)
    requires calls[a].key == calls[b].key
    ensures FarApart(limits, calls, a, b)
  {
    hide CheckAndSet, Valid, TableAfter, RunCalls, Recorded;
    LogTimes(calls, epoch, a, b);
    TableSplits(limits, calls, a, b);
    OrderlySplits(calls, epoch, a);
    TableFits(limits, calls[..a], epoch);
    if calls[b].checkedAt < calls[a].recordedAt + limits.ttl {
      WindowHolds(TableAfter(limits, calls[..a]), limits, if a == 0 then epoch else calls[a - 1].recordedAt,
                  calls[a], calls[a + 1..b], calls[b]);
    }
  }
}
