/** The mutable manager of core/idempotency.py. */
module IdempotencyTable {
  import opened Prelude
  import opened Idempotency

  class IdempotencyManager<V> {
    var records: seq<Record<V>>
    const limits: Limits

    constructor (limits: Limits)
      ensures records == [] && this.limits == limits
    {
      this.limits := limits;
      records := [];
    }

    method CheckAndSet(key: Key, cleanedAt: int, checkedAt: int, recordedAt: int) returns (duplicate: bool)
      modifies this
      ensures Answer(records, duplicate)
           == Idempotency.CheckAndSet(old(records), limits, Call(key, cleanedAt, checkedAt, recordedAt))
    {
      hide Cleanup, Enforce, Find;
      var expired := CleanupExpired(cleanedAt);
      var i := Find(records, key);
      if i < |records| {
        if records[i].expiresAt > checkedAt {
          return true;
        }
        records := records[..i] + records[i + 1..];
      }
      records := records + [Record(key, None, recordedAt, recordedAt + limits.ttl)];
      EnforceSizeLimit();
      duplicate := false;
    }

    /** Does nothing for an unknown key. */
    method SetResult(key: Key, result: V)
      modifies this
      ensures |records| == |old(records)|
      ensures forall i | 0 <= i < |records| ::
                records[i] == if i == Find(old(records), key) then old(records[i]).(result := Some(result))
                              else old(records[i])
    {
      var i := Find(records, key);
      if i < |records| {
        records := records[i := records[i].(result := Some(result))];
      }
    }

    method GetResult(key: Key, now: int) returns (result: Option<V>)
      ensures result.Some? ==>
                exists i | 0 <= i < |records| ::
                  records[i].key == key && records[i].expiresAt > now && records[i].result == result
      ensures result.None? ==>
                var i := Find(records, key);
                i == |records| || records[i].expiresAt <= now || records[i].result.None?
    {
      var i := Find(records, key);
      result := if i < |records| && records[i].expiresAt > now then records[i].result else None;
    }

    method Delete(key: Key) returns (found: bool)
      modifies this
      ensures records == Idempotency.Delete(old(records), key)
      ensures found <==> exists r | r in old(records) :: r.key == key
    {
      var i := Find(records, key);
      found := i < |records|;
      if found {
        assert records[i] in records;
        records := records[..i] + records[i + 1..];
      }
    }

    /** List the expired keys, then delete them one by one. */
    method CleanupExpired(now: int) returns (count: nat)
      modifies this
      ensures records == Cleanup(old(records), now)
      ensures count == |Expired(old(records), now)|
    {
      var keys: seq<Key> := [];
      var i := 0;
      assert records[0..] == records;
      while i < |records|
        invariant 0 <= i <= |records| && records == old(records)
        invariant Expired(records, now) == keys + Expired(records[i..], now)
      {
        assert records[i..][1..] == records[i + 1..];
        if records[i].expiresAt <= now {
          keys := keys + [records[i].key];
        }
        i := i + 1;
      }
      assert keys == Expired(records, now);
      DeleteKeys(keys);
      count := |keys|;
    }

    method EnforceSizeLimit()
      modifies this
      ensures records == Enforce(old(records), limits.maxSize)
    {
      if |records| > limits.maxSize {
        var sorted := SortByAge(records);
        var toRemove := |records| - limits.maxSize;
        DeleteKeys(KeysOf(sorted)[..Min(toRemove, |sorted|)]);
      }
    }

    method DeleteKeys(keys: seq<Key>)
      modifies this
      ensures records == DeleteAll(old(records), keys)
    {
      var i := 0;
      assert keys[0..] == keys;
      while i < |keys|
        invariant 0 <= i <= |keys|
        invariant DeleteAll(old(records), keys) == DeleteAll(records, keys[i..])
      {
        assert keys[i..][1..] == keys[i + 1..];
        records := Idempotency.Delete(records, keys[i]);
        i := i + 1;
      }
    }
  }
}
