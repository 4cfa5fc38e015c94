/** The window is exact: what enough other keys push out is gone. */
module IdempotencyEviction {
  import opened Prelude
  import opened Idempotency
  import opened IdempotencyWindow

  function KeySet<V>(records: seq<Record<V>>): set<Key> {
    set i | 0 <= i < |records| :: records[i].key
  }

  /** The record is in the table, and behind it are exactly the keys recorded since. */
  ghost predicate Tracks<V>(records: seq<Record<V>>, r: Record<V>, since: set<Key>) {
    exists i | 0 <= i < |records| :: records[i] == r && KeySet(records[i + 1..]) == since
  }

  lemma Tracking<V>(a: seq<Record<V>>, r: Record<V>, b: seq<Record<V>>)
    ensures Tracks(a + [r] + b, r, KeySet(b))
  {
    assert (a + [r] + b)[|a|] == r && (a + [r] + b)[|a| + 1..] == b;
  }

  lemma Tracked<V>(records: seq<Record<V>>, r: Record<V>, since: set<Key>)
    returns (a: seq<Record<V>>, b: seq<Record<V>>)
    requires Tracks(records, r, since)
    ensures records == a + [r] + b && KeySet(b) == since
  {
    var i :| 0 <= i < |records| && records[i] == r && KeySet(records[i + 1..]) == since;
    a, b := records[..i], records[i + 1..];
  }

  lemma {:induction false} KeySetSize<V>(records: seq<Record<V>>)
    requires Distinct(records)
    ensures |KeySet(records)| == |records|
    decreases |records|
  {
    if records != [] {
      var front := Front(records);
      KeySetSize(front);
      KeySetGrows(front, Last(records));
      assert records == front + [Last(records)];
      assert Last(records).key !in KeySet(front);
    }
  }

  lemma KeySetGrows<V>(records: seq<Record<V>>, r: Record<V>)
    ensures KeySet(records + [r]) == KeySet(records) + {r.key}
  {
    var all := records + [r];
    assert forall i | 0 <= i < |records| :: all[i] == records[i];
    assert all[|records|] == r;
    forall k | k in KeySet(records) + {r.key}
      ensures k in KeySet(all)
    {
      if k in KeySet(records) {
        var i :| 0 <= i < |records| && records[i].key == k;
        assert all[i].key == k;
      }
    }
  }

  lemma {:induction false} AllLive<V>(records: seq<Record<V>>, at: int)
    requires forall i | 0 <= i < |records| :: records[i].expiresAt > at
    ensures Live(records, at) == records
    decreases |records|
  {
    if records != [] {
      AllLive(records[1..], at);
    }
  }

  /** While a record lives, so does everything recorded after it. */
  lemma BehindStaysLive<V>(a: seq<Record<V>>, r: Record<V>, b: seq<Record<V>>, limits: Limits, now: int, at: int)
    requires Valid(a + [r] + b, limits, now) && r.expiresAt > at
    ensures Live(a + [r] + b, at) == Live(a, at) + [r] + b
  {
    var all := a + [r] + b;
    assert all[|a|] == r;
    forall i | 0 <= i < |b|
      ensures b[i].expiresAt > at
    {
      assert all[|a| + 1 + i] == b[i] && b[i] in all && r in all;
    }
    AllLive(b, at);
    LiveAround(a, r, b, at);
  }

  /** Deleting another key leaves `r` and takes that key, if anything, from what is behind it. */
  lemma DeleteBehind<V>(a: seq<Record<V>>, r: Record<V>, b: seq<Record<V>>, key: Key)
    returns (a': seq<Record<V>>, b': seq<Record<V>>)
    requires key != r.key && Distinct(a + [r] + b)
    ensures Delete(a + [r] + b, key) == a' + [r] + b' && KeySet(b') + {key} == KeySet(b) + {key}
  {
    hide Find, KeySet, Distinct;
    var all := a + [r] + b;
    assert all == a + ([r] + b) && all == (a + [r]) + b;
    var i := Find(all, key);
    if i >= |all| {
      a', b' := a, b;
    } else if i < |a| {
      a', b' := a[..i] + a[i + 1..], b;
      WithoutFront(a, [r] + b, i);
    } else {
      assert all[|a|] == r;
      var j := i - |a| - 1;
      assert b[j].key == key;
      a', b' := a, b[..j] + b[j + 1..];
      WithoutBack(a + [r], b, j);
      KeySetWithout(b, j);
    }
  }

  lemma KeySetWithout<V>(b: seq<Record<V>>, j: nat)
    requires j < |b|
    ensures KeySet(b[..j] + b[j + 1..]) + {b[j].key} == KeySet(b) + {b[j].key}
  {
    var left := b[..j] + b[j + 1..];
    forall k | k in KeySet(b) && k != b[j].key
      ensures k in KeySet(left)
    {
      var i :| 0 <= i < |b| && b[i].key == k;
      assert left[if i < j then i else i - 1] == b[i];
    }
    assert forall i | 0 <= i < |left| :: left[i] == b[if i < j then i else i + 1];
  }

  /** Keeping the newest records drops `r` exactly when as many records as fit stand behind it. */
  lemma NewestTracks<V>(a: seq<Record<V>>, r: Record<V>, b: seq<Record<V>>, maxSize: nat)
    requires Distinct(a + [r] + b)
    ensures var kept := Newest(a + [r] + b, maxSize);
            if |b| < maxSize then Tracks(kept, r, KeySet(b)) else r.key !in KeySet(kept)
  {
    var all := a + [r] + b;
    if |b| < maxSize {
      var drop := if |all| > maxSize then |all| - maxSize else 0;
      assert Newest(all, maxSize) == a[drop..] + [r] + b;
      Tracking(a[drop..], r, b);
    } else {
      var drop := |all| - maxSize;
      assert all[|a|] == r;
      assert forall i | 0 <= i < |all[drop..]| :: all[drop..][i] == all[drop + i];
    }
  }

  lemma StepTracks<V>(records: seq<Record<V>>, limits: Limits, call: Call, now: int, r: Record<V>, since: set<Key>)
    requires Valid(records, limits, now) && InOrder(call, now) && Tracks(records, r, since)
    requires call.recordedAt < r.expiresAt && |since| < limits.maxSize && r.key !in since
    requires CheckAndSet(records, limits, call).duplicate || call.key != r.key
    ensures var (answer, after) := (CheckAndSet(records, limits, call), Since(records, limits, call, since));
            if |after| < limits.maxSize then Tracks(answer.records, r, after) else r.key !in KeySet(answer.records)
  {
    hide CheckAndSet, Find, Live, Delete, Newest, Tracks, KeySet, Distinct, Chronological;
    var a, b := Tracked(records, r, since);
    CallMeans(records, limits, call, now);
    BehindStaysLive(a, r, b, limits, now, call.cleanedAt);
    LiveIsValid(records, limits, now, call.cleanedAt);
    var left := Live(a, call.cleanedAt);
    if CheckAndSet(records, limits, call).duplicate {
      Tracking(left, r, b);
      assert since + {} == since;
    } else {
      RecordTracks(left, r, b, limits, call, now);
    }
  }

  lemma RecordTracks<V>(a: seq<Record<V>>, r: Record<V>, b: seq<Record<V>>, limits: Limits, call: Call, now: int)
    requires Valid(a + [r] + b, limits, now) && InOrder(call, now) && call.key != r.key
    ensures var (kept, after) := (Newest(Appended(a + [r] + b, limits, call), limits.maxSize), KeySet(b) + {call.key});
            if |after| < limits.maxSize then Tracks(kept, r, after) else r.key !in KeySet(kept)
  {
    hide Find, Delete, Newest, Tracks, KeySet, Distinct, Chronological;
    var entry := EntryOf<V>(limits, call);
    AppendedIsValid(a + [r] + b, limits, call, now);
    var a', b' := DeleteBehind(a, r, b, call.key);
    assert Appended(a + [r] + b, limits, call) == a' + [r] + (b' + [entry]);
    KeySetGrows(b', entry);
    SuffixDistinct(a' + [r], b' + [entry]);
    assert a' + [r] + (b' + [entry]) == (a' + [r]) + (b' + [entry]);
    KeySetSize(b' + [entry]);
    NewestTracks(a', r, b' + [entry], limits.maxSize);
  }

  lemma SuffixDistinct<V>(a: seq<Record<V>>, b: seq<Record<V>>)
    requires Distinct(a + b)
    ensures Distinct(b)
  {
    assert forall i | 0 <= i < |b| :: (a + b)[|a| + i] == b[i];
  }

  lemma StepStaysAbsent<V>(records: seq<Record<V>>, limits: Limits, call: Call, now: int, key: Key)
    requires Valid(records, limits, now) && InOrder(call, now) && key !in KeySet(records)
    ensures call.key == key ==> !CheckAndSet(records, limits, call).duplicate
    ensures call.key != key ==> key !in KeySet(CheckAndSet(records, limits, call).records)
  {
    hide CheckAndSet, Distinct, Chronological;
    CallMeans(records, limits, call, now);
    LiveLacks(records, call.cleanedAt, key);
    hide Live, Find, Newest, Appended, KeySet;
    if call.key != key {
      AppendedLacks(Live(records, call.cleanedAt), limits, call, key);
    }
  }

  lemma AppendedLacks<V>(live: seq<Record<V>>, limits: Limits, call: Call, key: Key)
    requires key !in KeySet(live) && call.key != key
    ensures key !in KeySet(Newest(Appended(live, limits, call), limits.maxSize))
  {
    hide Find;
    assert forall i | 0 <= i < |Delete(live, call.key)| :: Delete(live, call.key)[i] in live;
    assert forall i | 0 <= i < |Appended(live, limits, call)| :: Appended(live, limits, call)[i].key != key;
  }

  lemma LiveLacks<V>(records: seq<Record<V>>, at: int, key: Key)
    requires key !in KeySet(records)
    ensures forall r | r in Live(records, at) :: r.key != key
    ensures key !in KeySet(Live(records, at))
  {
    forall r | r in Live(records, at)
      ensures r.key != key
    {
      LiveMembers(records, at, r);
    }
  }

  lemma {:induction false} RunStaysAbsent<V>(records: seq<Record<V>>, limits: Limits, calls: seq<Call>, now: int,
                                             key: Key)
    requires Valid(records, limits, now) && Orderly(calls, now) && key !in KeySet(records)
    requires key !in Recorded(records, limits, calls)
    ensures key !in KeySet(RunCalls(records, limits, calls))
    decreases |calls|
  {
    hide CheckAndSet, Valid, KeySet;
    if calls != [] {
      StepStaysAbsent(records, limits, calls[0], now, key);
      CallKeepsValid(records, limits, calls[0], now);
      RunStaysAbsent(CheckAndSet(records, limits, calls[0]).records, limits, calls[1..], calls[0].recordedAt, key);
    }
  }

  /** Once enough other keys have been recorded the record is gone, unless its key is recorded again. */
  lemma {:induction false} RunForgets<V>(records: seq<Record<V>>, limits: Limits, calls: seq<Call>, now: int,
                                         r: Record<V>, since: set<Key>)
    requires Valid(records, limits, now) && Orderly(calls, now) && Tracks(records, r, since)
    requires r.key !in since && |since| < limits.maxSize && r.key !in Recorded(records, limits, calls)
    requires forall c | c in calls :: c.recordedAt < r.expiresAt
    ensures |since + Recorded(records, limits, calls)| >= limits.maxSize ==>
              r.key !in KeySet(RunCalls(records, limits, calls))
    decreases |calls|
  {
    hide CheckAndSet, Valid, Tracks, KeySet;
    if calls == [] {
      assert since + {} == since;
    } else {
      assert calls[0] in calls;
      var answer := CheckAndSet(records, limits, calls[0]);
      var after := Since(records, limits, calls[0], since);
      CallKeepsValid(records, limits, calls[0], now);
      StepTracks(records, limits, calls[0], now, r, since);
      assert since + Recorded(records, limits, calls) == after + Recorded(answer.records, limits, calls[1..]);
      if |after| < limits.maxSize {
        RunForgets(answer.records, limits, calls[1..], calls[0].recordedAt, r, after);
      } else {
        RunStaysAbsent(answer.records, limits, calls[1..], calls[0].recordedAt, r.key);
      }
    }
  }

  lemma JustTracked<V>(records: seq<Record<V>>, limits: Limits, now: int, first: Call)
    requires Valid(records, limits, now) && |records| <= limits.maxSize && limits.maxSize > 0 && InOrder(first, now)
    requires !CheckAndSet(records, limits, first).duplicate
    ensures Tracks(CheckAndSet(records, limits, first).records, EntryOf<V>(limits, first), {})
  {
    hide CheckAndSet, Valid, Tracks;
    var table := CheckAndSet(records, limits, first).records;
    CallFits(records, limits, first, now);
    assert table == Front(table) + [EntryOf<V>(limits, first)] + [];
    Tracking(Front(table), EntryOf<V>(limits, first), []);
    assert KeySet<V>([]) == {};
  }

  /** The window while the lifetime lasts. */
  lemma LiveWindowIsExact<V>(records: seq<Record<V>>, limits: Limits, now: int, first: Call, calls: seq<Call>,
                             again: Call)
    requires Valid(records, limits, now) && |records| <= limits.maxSize && OrderlyRun(first, calls, again, now)
    requires !CheckAndSet(records, limits, first).duplicate && again.key == first.key
    requires again.checkedAt < first.recordedAt + limits.ttl
    requires first.key !in Recorded(CheckAndSet(records, limits, first).records, limits, calls)
    ensures var table := CheckAndSet(records, limits, first).records;
            CheckAndSet(RunCalls(table, limits, calls), limits, again).duplicate
            <==> |Recorded(table, limits, calls)| < limits.maxSize
  {
    hide CheckAndSet, Valid, RunCalls, Recorded, Tracks, Orderly, KeySet;
    var table, r := CheckAndSet(records, limits, first).records, EntryOf<V>(limits, first);
    var others := Recorded(table, limits, calls);
    assert others - {first.key} == others && {} + others == others;
    WindowHolds(records, limits, now, first, calls, again);
    CallKeepsValid(records, limits, first, now);
    CallFits(records, limits, first, now);
    RunKeepsValid(table, limits, calls, first.recordedAt);
    OrderlyTimes(calls, first.recordedAt);
    if |others| >= limits.maxSize {
      if limits.maxSize > 0 {
        JustTracked(records, limits, now, first);
        RunForgets(table, limits, calls, first.recordedAt, r, {});
      } else {
        NothingKept(table, first.key);
        RunStaysAbsent(table, limits, calls, first.recordedAt, first.key);
      }
      StepStaysAbsent(RunCalls(table, limits, calls), limits, again, LastTime(calls, first.recordedAt), first.key);
    }
  }

  lemma NothingKept<V>(table: seq<Record<V>>, key: Key)
    requires |table| == 0
    ensures key !in KeySet(table)
  {
  }

  // ---------------------------------------------------------------- after the lifetime

  /** Whatever the table still holds of this key is gone by then. */
  ghost predicate ExpiresBy<V>(records: seq<Record<V>>, key: Key, time: int) {
    forall r | r in records && r.key == key :: r.expiresAt <= time
  }

  lemma LiveExpiresBy<V>(records: seq<Record<V>>, at: int, key: Key, time: int)
    requires ExpiresBy(records, key, time)
    ensures ExpiresBy(Live(records, at), key, time)
  {
    forall r | r in Live(records, at) && r.key == key
      ensures r.expiresAt <= time
    {
      LiveMembers(records, at, r);
    }
  }

  lemma StepExpiresBy<V>(records: seq<Record<V>>, limits: Limits, call: Call, now: int, key: Key, time: int)
    requires Valid(records, limits, now) && InOrder(call, now) && ExpiresBy(records, key, time)
    ensures call.key == key && call.checkedAt >= time ==> !CheckAndSet(records, limits, call).duplicate
    ensures CheckAndSet(records, limits, call).duplicate || call.key != key ==>
              ExpiresBy(CheckAndSet(records, limits, call).records, key, time)
  {
    hide CheckAndSet, Distinct, Chronological;
    CallMeans(records, limits, call, now);
    LiveExpiresBy(records, call.cleanedAt, key, time);
    hide Live, Find, Newest, Appended;
    if !CheckAndSet(records, limits, call).duplicate && call.key != key {
      AppendedExpiresBy(Live(records, call.cleanedAt), limits, call, key, time);
    }
  }

  lemma AppendedExpiresBy<V>(live: seq<Record<V>>, limits: Limits, call: Call, key: Key, time: int)
    requires ExpiresBy(live, key, time) && call.key != key
    ensures ExpiresBy(Newest(Appended(live, limits, call), limits.maxSize), key, time)
  {
    hide Find;
    var all := Appended(live, limits, call);
    assert forall i | 0 <= i < |Delete(live, call.key)| :: Delete(live, call.key)[i] in live;
    assert forall i | 0 <= i < |all| :: all[i].key == key ==> all[i] in live;
  }

  lemma {:induction false} RunExpiresBy<V>(records: seq<Record<V>>, limits: Limits, calls: seq<Call>, now: int,
                                           key: Key, time: int)
    requires Valid(records, limits, now) && Orderly(calls, now) && ExpiresBy(records, key, time)
    requires key !in Recorded(records, limits, calls)
    ensures ExpiresBy(RunCalls(records, limits, calls), key, time)
    decreases |calls|
  {
    hide CheckAndSet, Valid, ExpiresBy;
    if calls != [] {
      StepExpiresBy(records, limits, calls[0], now, key, time);
      CallKeepsValid(records, limits, calls[0], now);
      RunExpiresBy(CheckAndSet(records, limits, calls[0]).records, limits, calls[1..], calls[0].recordedAt, key, time);
    }
  }

  /** A key just recorded expires a lifetime later. */
  lemma JustExpiresBy<V>(records: seq<Record<V>>, limits: Limits, now: int, first: Call)
    requires Valid(records, limits, now) && InOrder(first, now)
    ensures ExpiresBy(CheckAndSet(records, limits, first).records, first.key, first.recordedAt + limits.ttl)
  {
    CallKeepsValid(records, limits, first, now);
    hide CheckAndSet, Distinct, Chronological;
  }

  lemma ExpiredIsNew<V>(records: seq<Record<V>>, limits: Limits, now: int, first: Call, calls: seq<Call>, again: Call)
    requires Valid(records, limits, now) && OrderlyRun(first, calls, again, now) && again.key == first.key
    requires again.checkedAt >= first.recordedAt + limits.ttl
    requires first.key !in Recorded(CheckAndSet(records, limits, first).records, limits, calls)
    ensures var table := CheckAndSet(records, limits, first).records;
            !CheckAndSet(RunCalls(table, limits, calls), limits, again).duplicate
  {
    hide CheckAndSet, Valid, RunCalls, Recorded, Orderly, ExpiresBy;
    var table, time := CheckAndSet(records, limits, first).records, first.recordedAt + limits.ttl;
    JustExpiresBy(records, limits, now, first);
    CallKeepsValid(records, limits, first, now);
    RunExpiresBy(table, limits, calls, first.recordedAt, first.key, time);
    RunKeepsValid(table, limits, calls, first.recordedAt);
    StepExpiresBy(RunCalls(table, limits, calls), limits, again, LastTime(calls, first.recordedAt), first.key, time);
  }

  /** MAIN: a key answered False, and not recorded again meanwhile, is answered True later if and only if its lifetime
      still lasts when the table is consulted and fewer than `maxSize` other keys were recorded in between. */
  lemma WindowIsExact<V>(records: seq<Record<V>>, limits: Limits, now: int, first: Call, calls: seq<Call>, again: Call)
    requires Valid(records, limits, now) && |records| <= limits.maxSize && OrderlyRun(first, calls, again, now)
    requires !CheckAndSet(records, limits, first).duplicate && again.key == first.key
    requires first.key !in Recorded(CheckAndSet(records, limits, first).records, limits, calls)
    ensures var table := CheckAndSet(records, limits, first).records;
            CheckAndSet(RunCalls(table, limits, calls), limits, again).duplicate
            <==> again.checkedAt < first.recordedAt + limits.ttl && |Recorded(table, limits, calls)| < limits.maxSize
  {
    hide CheckAndSet, Valid, RunCalls, Recorded, OrderlyRun;
    if again.checkedAt < first.recordedAt + limits.ttl {
      LiveWindowIsExact(records, limits, now, first, calls, again);
    } else {
      ExpiredIsNew(records, limits, now, first, calls, again);
    }
  }
}
