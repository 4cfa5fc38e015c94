/** The idempotency window of core/idempotency.py. A Python dict keeps insertion order, so the record
    table is a sequence of records with distinct keys; clock readings are inputs. */
module Idempotency {
  import opened Prelude

  type Key = string

  datatype Record<V> = Record(key: Key, result: Option<V>, createdAt: int, expiresAt: int)

  datatype Limits = Limits(ttl: int, maxSize: nat)

  function Find<V>(records: seq<Record<V>>, key: Key): (i: nat)
    ensures i <= |records|
    ensures i < |records| ==> records[i].key == key
    ensures forall j | 0 <= j < i :: records[j].key != key
  {
    if records == [] || records[0].key == key then 0 else 1 + Find(records[1..], key)
  }

  predicate Has<V>(records: seq<Record<V>>, key: Key) {
    Find(records, key) < |records|
  }

  function Delete<V>(records: seq<Record<V>>, key: Key): seq<Record<V>> {
    var i := Find(records, key);
    if i < |records| then records[..i] + records[i + 1..] else records
  }

  function DeleteAll<V>(records: seq<Record<V>>, keys: seq<Key>): seq<Record<V>>
    decreases |keys|
  {
    if keys == [] then records else DeleteAll(Delete(records, keys[0]), keys[1..])
  }

  function KeysOf<V>(records: seq<Record<V>>): (keys: seq<Key>)
    ensures |keys| == |records| && forall i | 0 <= i < |keys| :: keys[i] == records[i].key
  {
    if records == [] then [] else [records[0].key] + KeysOf(records[1..])
  }

  function Expired<V>(records: seq<Record<V>>, now: int): (keys: seq<Key>) {
    if records == [] then []
    else (if records[0].expiresAt <= now then [records[0].key] else []) + Expired(records[1..], now)
  }

  /** Python's stable sort on the creation time. */
  function InsertByAge<V>(r: Record<V>, sorted: seq<Record<V>>): seq<Record<V>> {
    if sorted == [] || r.createdAt <= sorted[0].createdAt then [r] + sorted
    else [sorted[0]] + InsertByAge(r, sorted[1..])
  }

  function SortByAge<V>(records: seq<Record<V>>): (sorted: seq<Record<V>>) {
    if records == [] then [] else InsertByAge(records[0], SortByAge(records[1..]))
  }

  function Cleanup<V>(records: seq<Record<V>>, now: int): seq<Record<V>> {
    DeleteAll(records, Expired(records, now))
  }

  function Enforce<V>(records: seq<Record<V>>, maxSize: nat): seq<Record<V>> {
    if |records| > maxSize then
      var sorted := SortByAge(records);
      DeleteAll(records, KeysOf(sorted)[..Min(|records| - maxSize, |sorted|)])
    else records
  }

  /** The three clock readings of one call. */
  datatype Call = Call(key: Key, cleanedAt: int, checkedAt: int, recordedAt: int)

  datatype Answer<V> = Answer(records: seq<Record<V>>, duplicate: bool)

  function CheckAndSet<V>(records: seq<Record<V>>, limits: Limits, call: Call): Answer<V> {
    var live := Cleanup(records, call.cleanedAt);
    var i := Find(live, call.key);
    if i < |live| && live[i].expiresAt > call.checkedAt then Answer(live, true)
    else Answer(Enforce(Appended(live, limits, call), limits.maxSize), false)
  }

  function EntryOf<V>(limits: Limits, call: Call): Record<V> {
    Record(call.key, None, call.recordedAt, call.recordedAt + limits.ttl)
  }

  function Appended<V>(live: seq<Record<V>>, limits: Limits, call: Call): seq<Record<V>> {
    Delete(live, call.key) + [EntryOf(limits, call)]
  }

  // ---------------------------------------------------------------- the table in clock order

  ghost predicate Distinct<V>(records: seq<Record<V>>) {
    forall i, j | 0 <= i < j < |records| :: records[i].key != records[j].key
  }

  ghost predicate Chronological<V>(records: seq<Record<V>>) {
    forall i, j | 0 <= i < j < |records| :: records[i].createdAt <= records[j].createdAt
  }

  /** What every call keeps while the clock does not run backwards. */
  ghost predicate Valid<V>(records: seq<Record<V>>, limits: Limits, now: int) {
    && Distinct(records) && Chronological(records)
    && forall r | r in records :: r.createdAt <= now && r.expiresAt == r.createdAt + limits.ttl
  }

  ghost predicate InOrder(call: Call, now: int) {
    now <= call.cleanedAt <= call.checkedAt <= call.recordedAt
  }

  lemma FindAt<V>(records: seq<Record<V>>, i: nat)
    requires i < |records| && Distinct(records)
    ensures Find(records, records[i].key) == i
  {
  }

  lemma {:induction false} SortIsIdentity<V>(records: seq<Record<V>>)
    requires Chronological(records)
    ensures SortByAge(records) == records
  {
    if records != [] {
      SortIsIdentity(records[1..]);
    }
  }

  lemma DeleteHead<V>(records: seq<Record<V>>)
    requires records != [] && Distinct(records)
    ensures Delete(records, records[0].key) == records[1..] && Distinct(records[1..])
  {
    FindAt(records, 0);
  }

  lemma {:induction false} DeletePrefix<V>(records: seq<Record<V>>, n: nat)
    requires n <= |records| && Distinct(records)
    ensures DeleteAll(records, KeysOf(records)[..n]) == records[n..]
    decreases n
  {
    hide Delete, Distinct, KeysOf;
    if n > 0 {
      var keys := KeysOf(records)[..n];
      DeleteHead(records);
      assert keys[1..] == KeysOf(records[1..])[..n - 1];
      DeletePrefix(records[1..], n - 1);
    }
  }

  /** MAIN: eviction by sorting on age drops exactly the oldest-inserted prefix. */
  lemma EvictionDropsOldest<V>(records: seq<Record<V>>, maxSize: nat)
    requires Distinct(records) && Chronological(records)
    ensures Enforce(records, maxSize) == if |records| > maxSize then records[|records| - maxSize..] else records
  {
    if |records| > maxSize {
      SortIsIdentity(records);
      DeletePrefix(records, |records| - maxSize);
    }
  }

  function Live<V>(records: seq<Record<V>>, now: int): seq<Record<V>> {
    if records == [] then []
    else (if records[0].expiresAt <= now then [] else [records[0]]) + Live(records[1..], now)
  }

  lemma {:induction false} DeleteBehind<V>(head: Record<V>, tail: seq<Record<V>>, keys: seq<Key>)
    requires head.key !in keys
    ensures DeleteAll([head] + tail, keys) == [head] + DeleteAll(tail, keys)
    decreases |keys|
  {
    if keys != [] {
      assert ([head] + tail)[1..] == tail;
      var i := Find(tail, keys[0]);
      assert Find([head] + tail, keys[0]) == 1 + i;
      if i < |tail| {
        assert ([head] + tail)[..1 + i] + ([head] + tail)[2 + i..] == [head] + (tail[..i] + tail[i + 1..]);
      }
      DeleteBehind(head, Delete(tail, keys[0]), keys[1..]);
    }
  }

  lemma {:induction false} ExpiredKeys<V>(records: seq<Record<V>>, now: int)
    ensures forall k | k in Expired(records, now) :: exists r | r in records :: r.key == k && r.expiresAt <= now
  {
    if records != [] {
      ExpiredKeys(records[1..], now);
      assert forall r | r in records[1..] :: r in records;
      assert records[0] in records;
    }
  }

  /** Deleting the expired keys one by one leaves exactly the records that have not expired. */
  lemma {:induction false} CleanupKeepsLive<V>(records: seq<Record<V>>, now: int)
    requires Distinct(records)
    ensures Cleanup(records, now) == Live(records, now)
  {
    if records != [] {
      var head, tail := records[0], records[1..];
      assert records == [head] + tail;
      CleanupKeepsLive(tail, now);
      ExpiredKeys(tail, now);
      if head.expiresAt <= now {
        FindAt(records, 0);
        assert Expired(records, now)[1..] == Expired(tail, now);
        assert Delete(records, head.key) == tail;
      } else {
        assert head.key !in Expired(tail, now) by {
          assert forall r | r in tail :: r.key != head.key;
        }
        assert [] + Expired(tail, now) == Expired(tail, now);
        DeleteBehind(head, tail, Expired(tail, now));
      }
    }
  }

  lemma ConsIsValid<V>(head: Record<V>, tail: seq<Record<V>>, rest: seq<Record<V>>, limits: Limits, now: int)
    requires Valid([head] + tail, limits, now) && Valid(rest, limits, now)
    requires forall r | r in rest :: r in tail
    ensures Valid([head] + rest, limits, now)
  {
    var before, after := [head] + tail, [head] + rest;
    forall r | r in tail
      ensures head.key != r.key && head.createdAt <= r.createdAt
    {
      var i :| 0 <= i < |tail| && tail[i] == r;
      assert before[0] == head && before[i + 1] == r;
    }
    assert head in before;
    assert forall i | 1 <= i < |after| :: after[i] == rest[i - 1] && after[i] in rest;
  }

  lemma {:induction false} LiveMembers<V>(records: seq<Record<V>>, at: int, r: Record<V>)
    ensures |Live(records, at)| <= |records|
    ensures r in Live(records, at) <==> r in records && r.expiresAt > at
  {
    if records != [] {
      assert records == [records[0]] + records[1..];
      LiveMembers(records[1..], at, r);
    }
  }

  lemma TailIsValid<V>(records: seq<Record<V>>, limits: Limits, now: int)
    requires records != [] && Valid(records, limits, now)
    ensures Valid(records[1..], limits, now)
  {
  }

  lemma {:induction false} LiveIsValid<V>(records: seq<Record<V>>, limits: Limits, now: int, at: int)
    requires Valid(records, limits, now)
    ensures Valid(Live(records, at), limits, now)
  {
    if records != [] {
      var head, tail := records[0], records[1..];
      assert records == [head] + tail;
      TailIsValid(records, limits, now);
      hide Valid;
      LiveIsValid(tail, limits, now, at);
      forall r | r in Live(tail, at)
        ensures r in tail
      {
        LiveMembers(tail, at, r);
      }
      if head.expiresAt > at {
        ConsIsValid(head, tail, Live(tail, at), limits, now);
      } else {
        assert [] + Live(tail, at) == Live(tail, at);
      }
    }
  }

  // ---------------------------------------------------------------- one call

  lemma AppendIsValid<V>(records: seq<Record<V>>, entry: Record<V>, limits: Limits, now: int)
    requires Valid(records, limits, now) && now <= entry.createdAt && entry.expiresAt == entry.createdAt + limits.ttl
    requires forall r | r in records :: r.key != entry.key
    ensures Valid(records + [entry], limits, entry.createdAt)
  {
  }

  lemma SuffixIsValid<V>(records: seq<Record<V>>, n: nat, limits: Limits, now: int)
    requires Valid(records, limits, now) && n <= |records|
    ensures Valid(records[n..], limits, now)
  {
  }

  lemma RemoveAtIsValid<V>(records: seq<Record<V>>, i: nat, limits: Limits, now: int)
    requires Valid(records, limits, now) && i < |records|
    ensures Valid(records[..i] + records[i + 1..], limits, now)
    ensures forall r | r in records[..i] + records[i + 1..] :: r.key != records[i].key && r in records
  {
    var left := records[..i] + records[i + 1..];
    assert forall j | 0 <= j < |left| :: left[j] == if j < i then records[j] else records[j + 1];
  }

  lemma DeleteIsValid<V>(records: seq<Record<V>>, key: Key, limits: Limits, now: int)
    requires Valid(records, limits, now)
    ensures Valid(Delete(records, key), limits, now)
    ensures |Delete(records, key)| <= |records| && (!Has(records, key) ==> Delete(records, key) == records)
    ensures forall r | r in Delete(records, key) :: r.key != key && r in records
  {
    var i := Find(records, key);
    if i < |records| {
      RemoveAtIsValid(records, i, limits, now);
    }
  }

  lemma AppendedIsValid<V>(live: seq<Record<V>>, limits: Limits, call: Call, now: int)
    requires Valid(live, limits, now) && now <= call.recordedAt
    ensures Valid(Appended(live, limits, call), limits, call.recordedAt)
    ensures |Appended(live, limits, call)| <= |live| + 1
  {
    DeleteIsValid(live, call.key, limits, now);
    hide Delete;
    AppendIsValid(Delete(live, call.key), EntryOf(limits, call), limits, now);
  }

  function Newest<V>(records: seq<Record<V>>, maxSize: nat): seq<Record<V>> {
    if |records| > maxSize then records[|records| - maxSize..] else records
  }

  /** MAIN: with an orderly clock the call reads: forget what has expired; a key still there is a
      duplicate; otherwise append it and keep the newest `maxSize` records. */
  lemma CallMeans<V>(records: seq<Record<V>>, limits: Limits, call: Call, now: int)
    requires Valid(records, limits, now) && InOrder(call, now)
    ensures var live := Live(records, call.cleanedAt);
            var i := Find(live, call.key);
            CheckAndSet(records, limits, call)
            == if i < |live| && live[i].expiresAt > call.checkedAt then Answer(live, true)
               else Answer(Newest(Appended(live, limits, call), limits.maxSize), false)
  {
    hide Find, Delete, DeleteAll, Expired, Live, Enforce, SortByAge;
    var live := Live(records, call.cleanedAt);
    CleanupKeepsLive(records, call.cleanedAt);
    LiveIsValid(records, limits, now, call.cleanedAt);
    hide Cleanup;
    AppendedIsValid(live, limits, call, now);
    hide Appended;
    EvictionDropsOldest(Appended(live, limits, call), limits.maxSize);
  }

  lemma CallKeepsValid<V>(records: seq<Record<V>>, limits: Limits, call: Call, now: int)
    requires Valid(records, limits, now) && InOrder(call, now)
    ensures Valid(CheckAndSet(records, limits, call).records, limits, call.recordedAt)
  {
    hide CheckAndSet, Live, Appended, Distinct, Chronological, Find;
    CallMeans(records, limits, call, now);
    LiveIsValid(records, limits, now, call.cleanedAt);
    var live := Live(records, call.cleanedAt);
    AppendedIsValid(live, limits, call, now);
    NewestIsValid(Appended(live, limits, call), limits, call.recordedAt);
  }

  lemma NewestIsValid<V>(records: seq<Record<V>>, limits: Limits, now: int)
    requires Valid(records, limits, now)
    ensures Valid(Newest(records, limits.maxSize), limits, now)
  {
    hide Valid;
    if |records| > limits.maxSize {
      SuffixIsValid(records, |records| - limits.maxSize, limits, now);
    }
  }

  /** MAIN: after every call the table fits its limit, and a key just recorded is in it. */
  lemma CallFits<V>(records: seq<Record<V>>, limits: Limits, call: Call, now: int)
    requires Valid(records, limits, now) && InOrder(call, now) && |records| <= limits.maxSize
    ensures var answer := CheckAndSet(records, limits, call);
            && |answer.records| <= limits.maxSize
            && (!answer.duplicate && limits.maxSize >= 1 ==>
                  answer.records != [] && Last(answer.records) == EntryOf(limits, call))
  {
    CallMeans(records, limits, call, now);
    LiveMembers(records, call.cleanedAt, EntryOf(limits, call));
    var live := Live(records, call.cleanedAt);
    LiveIsValid(records, limits, now, call.cleanedAt);
    AppendedIsValid(live, limits, call, now);
    assert Last(Appended(live, limits, call)) == EntryOf(limits, call);
    hide CheckAndSet, Live, Valid, Find, Appended;
  }
}
