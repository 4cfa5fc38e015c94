/** The guarantee callers rely on, over whole runs: a recorded key stays a duplicate until it expires,
    unless enough other keys were recorded after it to evict it. */
module IdempotencyWindow {
  import opened Prelude
  import opened Idempotency

  ghost predicate Orderly(calls: seq<Call>, now: int)
    decreases |calls|
  {
    calls == [] || (InOrder(calls[0], now) && Orderly(calls[1..], calls[0].recordedAt))
  }

  function RunCalls<V>(records: seq<Record<V>>, limits: Limits, calls: seq<Call>): seq<Record<V>>
    decreases |calls|
  {
    if calls == [] then records else RunCalls(CheckAndSet(records, limits, calls[0]).records, limits, calls[1..])
  }

  /** The keys a run answers False, and so records. */
  function Recorded<V>(records: seq<Record<V>>, limits: Limits, calls: seq<Call>): set<Key>
    decreases |calls|
  {
    if calls == [] then {}
    else
      var answer := CheckAndSet(records, limits, calls[0]);
      (if answer.duplicate then {} else {calls[0].key}) + Recorded(answer.records, limits, calls[1..])
  }

  ghost predicate KeysIn<V>(records: seq<Record<V>>, keys: set<Key>) {
    forall r | r in records :: r.key in keys
  }

  lemma {:induction false} LiveAppend<V>(a: seq<Record<V>>, b: seq<Record<V>>, at: int)
    ensures Live(a + b, at) == Live(a, at) + Live(b, at)
  {
    if a == [] {
      assert a + b == b;
    } else {
      assert (a + b)[1..] == a[1..] + b;
      LiveAppend(a[1..], b, at);
    }
  }

  lemma LiveAround<V>(a: seq<Record<V>>, r: Record<V>, b: seq<Record<V>>, at: int)
    requires r.expiresAt > at
    ensures Live(a + [r] + b, at) == Live(a, at) + [r] + Live(b, at)
  {
    LiveAppend(a + [r], b, at);
    LiveAppend(a, [r], at);
    assert Live([r], at) == [r];
  }

  lemma {:induction false} LiveKeysIn<V>(b: seq<Record<V>>, at: int, keys: set<Key>)
    requires KeysIn(b, keys)
    ensures KeysIn(Live(b, at), keys)
  {
    forall r | r in Live(b, at)
      ensures r.key in keys
    {
      LiveMembers(b, at, r);
    }
  }

  lemma WithoutFront<T>(a: seq<T>, rest: seq<T>, i: nat)
    requires i < |a|
    ensures (a + rest)[..i] + (a + rest)[i + 1..] == (a[..i] + a[i + 1..]) + rest
  {
    assert (a + rest)[..i] == a[..i] && (a + rest)[i + 1..] == a[i + 1..] + rest;
  }

  lemma WithoutBack<T>(front: seq<T>, b: seq<T>, j: nat)
    requires j < |b|
    ensures (front + b)[..|front| + j] + (front + b)[|front| + j + 1..] == front + (b[..j] + b[j + 1..])
  {
    assert (front + b)[..|front| + j] == front + b[..j] && (front + b)[|front| + j + 1..] == b[j + 1..];
  }

  lemma KeysInPart<V>(b: seq<Record<V>>, j: nat, keys: set<Key>)
    requires j < |b| && KeysIn(b, keys)
    ensures KeysIn(b[..j] + b[j + 1..], keys)
  {
  }

  /** Deleting another key leaves `r` where it is, with no more records behind it. */
  lemma DeleteAround<V>(a: seq<Record<V>>, r: Record<V>, b: seq<Record<V>>, key: Key, keys: set<Key>)
    returns (a': seq<Record<V>>, b': seq<Record<V>>)
    requires key != r.key && KeysIn(b, keys)
    ensures Delete(a + [r] + b, key) == a' + [r] + b' && KeysIn(b', keys)
  {
    hide Find, KeysIn;
    var all := a + [r] + b;
    assert all == a + ([r] + b) && all == (a + [r]) + b;
    var i := Find(all, key);
    if i >= |all| {
      a', b' := a, b;
    } else if i < |a| {
      a', b' := a[..i] + a[i + 1..], b;
      WithoutFront(a, [r] + b, i);
    } else {
      assert all[|a|] == r;
      var j := i - |a| - 1;
      a', b' := a, b[..j] + b[j + 1..];
      WithoutBack(a + [r], b, j);
      KeysInPart(b, j, keys);
    }
  }

  /** A table with this many distinct keys of a set is no larger than the set. */
  lemma {:induction false} DistinctBound<V>(records: seq<Record<V>>, keys: set<Key>)
    requires Distinct(records) && KeysIn(records, keys)
    ensures |records| <= |keys|
  {
    if records != [] {
      var head, tail := records[0], records[1..];
      assert head in records;
      forall r | r in tail
        ensures r.key in keys - {head.key}
      {
        var i :| 0 <= i < |tail| && tail[i] == r;
        assert records[i + 1] == r;
      }
      DistinctBound(tail, keys - {head.key});
    }
  }

  /** Keeping the newest records keeps `r`, unless a full table of other keys is behind it. */
  lemma NewestAround<V>(a: seq<Record<V>>, r: Record<V>, b: seq<Record<V>>, keys: set<Key>, maxSize: nat)
    returns (a': seq<Record<V>>)
    requires Distinct(a + [r] + b) && KeysIn(b, keys)
    ensures |keys| >= maxSize || Newest(a + [r] + b, maxSize) == a' + [r] + b
  {
    a' := a;
    var all := a + [r] + b;
    if |all| > maxSize {
      var drop := |all| - maxSize;
      if drop <= |a| {
        a' := a[drop..];
        assert all[drop..] == a' + [r] + b;
      } else {
        assert b == all[|a| + 1..];
        DistinctBound(b, keys);
      }
    }
  }

  lemma FindAround<V>(a: seq<Record<V>>, r: Record<V>, b: seq<Record<V>>)
    requires Distinct(a + [r] + b)
    ensures Find(a + [r] + b, r.key) == |a|
  {
    var all := a + [r] + b;
    assert all[|a|] == r;
    FindAt(all, |a|);
  }

  /** The record is still in the table, and everything behind it was recorded since. */
  ghost predicate Remembers<V>(records: seq<Record<V>>, r: Record<V>, since: set<Key>) {
    exists i | 0 <= i < |records| :: records[i] == r && KeysIn(records[i + 1..], since)
  }

  lemma Remembering<V>(a: seq<Record<V>>, r: Record<V>, b: seq<Record<V>>, since: set<Key>)
    requires KeysIn(b, since)
    ensures Remembers(a + [r] + b, r, since)
  {
    assert (a + [r] + b)[|a|] == r && (a + [r] + b)[|a| + 1..] == b;
  }

  lemma Remembered<V>(records: seq<Record<V>>, r: Record<V>, since: set<Key>)
    returns (a: seq<Record<V>>, b: seq<Record<V>>)
    requires Remembers(records, r, since)
    ensures records == a + [r] + b && KeysIn(b, since)
  {
    var i :| 0 <= i < |records| && records[i] == r && KeysIn(records[i + 1..], since);
    a, b := records[..i], records[i + 1..];
  }

  lemma RememberedIsDuplicate<V>(records: seq<Record<V>>, limits: Limits, call: Call, now: int, r: Record<V>,
                                 since: set<Key>)
    requires Valid(records, limits, now) && InOrder(call, now) && call.key == r.key
    requires Remembers(records, r, since) && call.checkedAt < r.expiresAt
    ensures CheckAndSet(records, limits, call).duplicate
    ensures Remembers(CheckAndSet(records, limits, call).records, r, since)
  {
    hide CheckAndSet, Live, Find, Remembers;
    var a, b := Remembered(records, r, since);
    CallMeans(records, limits, call, now);
    LiveAround(a, r, b, call.cleanedAt);
    LiveIsValid(records, limits, now, call.cleanedAt);
    LiveKeysIn(b, call.cleanedAt, since);
    FindAround(Live(a, call.cleanedAt), r, Live(b, call.cleanedAt));
    Remembering(Live(a, call.cleanedAt), r, Live(b, call.cleanedAt), since);
  }

  lemma OtherCallRemembers<V>(records: seq<Record<V>>, limits: Limits, call: Call, now: int, r: Record<V>,
                              since: set<Key>)
    requires Valid(records, limits, now) && InOrder(call, now) && call.key != r.key
    requires Remembers(records, r, since) && call.recordedAt < r.expiresAt
    ensures var answer := CheckAndSet(records, limits, call);
            var after := since + if answer.duplicate then {} else {call.key};
            |after| >= limits.maxSize || Remembers(answer.records, r, after)
  {
    hide CheckAndSet, Find, Live, Delete, Newest, Remembers;
    var a, b := Remembered(records, r, since);
    var at := call.cleanedAt;
    CallMeans(records, limits, call, now);
    LiveAround(a, r, b, at);
    LiveIsValid(records, limits, now, at);
    LiveKeysIn(b, at, since);
    if CheckAndSet(records, limits, call).duplicate {
      Remembering(Live(a, at), r, Live(b, at), since);
      assert since + {} == since;
    } else {
      var live := Live(records, at);
      var entry := EntryOf<V>(limits, call);
      AppendedIsValid(live, limits, call, now);
      var a', b' := DeleteAround(Live(a, at), r, Live(b, at), call.key, since);
      assert Appended(live, limits, call) == a' + [r] + (b' + [entry]);
      var kept := NewestAround(a', r, b' + [entry], since + {call.key}, limits.maxSize);
      Remembering(kept, r, b' + [entry], since + {call.key});
    }
  }

  /** The keys recorded since, after one more call. */
  function Since<V>(records: seq<Record<V>>, limits: Limits, call: Call, since: set<Key>): set<Key> {
    since + if CheckAndSet(records, limits, call).duplicate then {} else {call.key}
  }

  lemma StepRemembers<V>(records: seq<Record<V>>, limits: Limits, call: Call, now: int, r: Record<V>, since: set<Key>)
    requires Valid(records, limits, now) && InOrder(call, now) && Remembers(records, r, since) && r.key !in since
    requires call.recordedAt < r.expiresAt
    ensures var after := Since(records, limits, call, since);
            && r.key !in after
            && (|after| >= limits.maxSize || Remembers(CheckAndSet(records, limits, call).records, r, after))
  {
    hide CheckAndSet, Valid, Remembers;
    if call.key == r.key {
      RememberedIsDuplicate(records, limits, call, now, r, since);
      assert since + {} == since;
    } else {
      OtherCallRemembers(records, limits, call, now, r, since);
    }
  }

  lemma {:induction false} RunRemembers<V>(records: seq<Record<V>>, limits: Limits, calls: seq<Call>, now: int,
                                           r: Record<V>, since: set<Key>)
    requires Valid(records, limits, now) && Orderly(calls, now) && Remembers(records, r, since) && r.key !in since
    requires forall c | c in calls :: c.recordedAt < r.expiresAt
    ensures var others := since + (Recorded(records, limits, calls) - {r.key});
            |others| >= limits.maxSize || Remembers(RunCalls(records, limits, calls), r, others)
    decreases |calls|
  {
    hide CheckAndSet, Valid, Remembers, Since;
    if calls == [] {
      assert since + ({} - {r.key}) == since;
    } else {
      assert calls[0] in calls;
      var answer := CheckAndSet(records, limits, calls[0]);
      var after := Since(records, limits, calls[0], since);
      CallKeepsValid(records, limits, calls[0], now);
      StepRemembers(records, limits, calls[0], now, r, since);
      SinceUnfolds(records, limits, calls, since, r.key);
      if |after| < limits.maxSize {
        RunRemembers(answer.records, limits, calls[1..], calls[0].recordedAt, r, after);
      }
    }
  }

  lemma SinceUnfolds<V>(records: seq<Record<V>>, limits: Limits, calls: seq<Call>, since: set<Key>, key: Key)
    requires calls != [] && key !in Since(records, limits, calls[0], since)
    ensures var answer := CheckAndSet(records, limits, calls[0]);
            var after := Since(records, limits, calls[0], since);
            var others := since + (Recorded(records, limits, calls) - {key});
            others == after + (Recorded(answer.records, limits, calls[1..]) - {key}) && |after| <= |others|
  {
    hide CheckAndSet;
    var answer := CheckAndSet(records, limits, calls[0]);
    var after := Since(records, limits, calls[0], since);
    var others := since + (Recorded(records, limits, calls) - {key});
    assert others == after + (Recorded(answer.records, limits, calls[1..]) - {key});
    SubsetSmaller(after, others);
  }

  lemma SubsetSmaller(a: set<Key>, b: set<Key>)
    requires a <= b
    ensures |a| <= |b|
  {
    assert b == a + (b - a);
  }

  ghost predicate OrderlyRun(first: Call, calls: seq<Call>, again: Call, now: int) {
    && InOrder(first, now) && Orderly(calls, first.recordedAt)
    && InOrder(again, LastTime(calls, first.recordedAt))
  }

  lemma {:induction false} RunKeepsValid<V>(records: seq<Record<V>>, limits: Limits, calls: seq<Call>, now: int)
    requires Valid(records, limits, now) && Orderly(calls, now)
    ensures Valid(RunCalls(records, limits, calls), limits, LastTime(calls, now))
    decreases |calls|
  {
    hide CheckAndSet, Valid;
    if calls != [] {
      CallKeepsValid(records, limits, calls[0], now);
      RunKeepsValid(CheckAndSet(records, limits, calls[0]).records, limits, calls[1..], calls[0].recordedAt);
    }
  }

  lemma JustRecorded<V>(records: seq<Record<V>>, limits: Limits, now: int, first: Call)
    requires Valid(records, limits, now) && |records| <= limits.maxSize && limits.maxSize > 0 && InOrder(first, now)
    requires !CheckAndSet(records, limits, first).duplicate
    ensures Remembers(CheckAndSet(records, limits, first).records, EntryOf<V>(limits, first), {})
  {
    hide CheckAndSet, Valid, Remembers;
    var table := CheckAndSet(records, limits, first).records;
    CallFits(records, limits, first, now);
    assert table == Front(table) + [EntryOf<V>(limits, first)] + [];
    Remembering(Front(table), EntryOf<V>(limits, first), [], {});
  }

  ghost function LastTime(calls: seq<Call>, now: int): int {
    if calls == [] then now else Last(calls).recordedAt
  }

  /** MAIN: a key answered False at time t is answered True at every later time before t + ttl, whatever
      was called in between, unless at least `maxSize` other keys were recorded since. */
  lemma WindowHolds<V>(records: seq<Record<V>>, limits: Limits, now: int, first: Call, calls: seq<Call>, again: Call)
    requires Valid(records, limits, now) && |records| <= limits.maxSize && OrderlyRun(first, calls, again, now)
    requires !CheckAndSet(records, limits, first).duplicate && again.key == first.key
    requires again.checkedAt < first.recordedAt + limits.ttl
    ensures var table := CheckAndSet(records, limits, first).records;
            || CheckAndSet(RunCalls(table, limits, calls), limits, again).duplicate
            || |Recorded(table, limits, calls) - {first.key}| >= limits.maxSize
  {
    hide CheckAndSet, Valid, RunCalls, Recorded, Remembers, Orderly;
    if limits.maxSize > 0 {
      var table := CheckAndSet(records, limits, first).records;
      var others := {} + (Recorded(table, limits, calls) - {first.key});
      assert others == Recorded(table, limits, calls) - {first.key};
      CallKeepsValid(records, limits, first, now);
      JustRecorded(records, limits, now, first);
      OrderlyTimes(calls, first.recordedAt);
      RunRemembers(table, limits, calls, first.recordedAt, EntryOf<V>(limits, first), {});
      RunKeepsValid(table, limits, calls, first.recordedAt);
      if |others| < limits.maxSize {
        RememberedIsDuplicate(RunCalls(table, limits, calls), limits, again, LastTime(calls, first.recordedAt),
                              EntryOf<V>(limits, first), others);
      }
    }
  }

  lemma {:induction false} OrderlyTimes(calls: seq<Call>, now: int)
    requires Orderly(calls, now)
    ensures forall c | c in calls :: now <= c.recordedAt <= Last(calls).recordedAt
    decreases |calls|
  {
    if calls != [] {
      OrderlyTimes(calls[1..], calls[0].recordedAt);
      assert calls[1..] == [] || calls[1] in calls[1..];
    }
  }
}
