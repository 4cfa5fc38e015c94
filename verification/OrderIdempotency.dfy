/** One order per idempotency record: how often execution/order_manager.py creates an order for one
    client id. */
module OrderIdempotency {
  import opened Prelude
  import opened Idempotency
  import opened IdempotencyWindow
  import opened IdempotencyLog
  import opened OrderLifecycle

  // ---------------------------------------------------------------- results do not matter

  /** A record table without the results stored in it. */
  function Erase(records: seq<Record<nat>>): (bare: seq<Record<()>>)
    ensures |bare| == |records|
  {
    if records == [] then []
    else [Record(records[0].key, None, records[0].createdAt, records[0].expiresAt)] + Erase(records[1..])
  }

  lemma {:induction false} EraseAt(records: seq<Record<nat>>)
    ensures forall i | 0 <= i < |records| ::
              Erase(records)[i] == Record(records[i].key, None, records[i].createdAt, records[i].expiresAt)
  {
    if records != [] {
      EraseAt(records[1..]);
    }
  }

  lemma {:induction false} EraseAppend(a: seq<Record<nat>>, b: seq<Record<nat>>)
    ensures Erase(a + b) == Erase(a) + Erase(b)
  {
    if a == [] {
      assert a + b == b;
    } else {
      assert (a + b)[1..] == a[1..] + b;
      EraseAppend(a[1..], b);
    }
  }

  lemma {:induction false} EraseFind(records: seq<Record<nat>>, key: Key)
    ensures Find(Erase(records), key) == Find(records, key)
  {
    if records != [] {
      assert Erase(records)[1..] == Erase(records[1..]);
      EraseFind(records[1..], key);
    }
  }

  lemma {:induction false} EraseLive(records: seq<Record<nat>>, at: int)
    ensures Live(Erase(records), at) == Erase(Live(records, at))
  {
    if records != [] {
      assert Erase(records)[1..] == Erase(records[1..]);
      EraseLive(records[1..], at);
      var head := if records[0].expiresAt <= at then [] else [records[0]];
      EraseAppend(head, Live(records[1..], at));
    }
  }

  lemma EraseSlices(records: seq<Record<nat>>, n: nat)
    requires n <= |records|
    ensures Erase(records[..n]) == Erase(records)[..n] && Erase(records[n..]) == Erase(records)[n..]
  {
    assert records == records[..n] + records[n..];
    EraseAppend(records[..n], records[n..]);
  }

  lemma EraseDelete(records: seq<Record<nat>>, key: Key)
    ensures Delete(Erase(records), key) == Erase(Delete(records, key))
  {
    EraseFind(records, key);
    var i := Find(records, key);
    hide Erase, Find;
    if i < |records| {
      EraseSlices(records, i);
      EraseSlices(records, i + 1);
      EraseAppend(records[..i], records[i + 1..]);
    }
  }

  lemma EraseAppended(live: seq<Record<nat>>, limits: Limits, call: Call)
    ensures Appended(Erase(live), limits, call) == Erase(Appended(live, limits, call))
  {
    EraseDelete(live, call.key);
    EraseAppend(Delete(live, call.key), [EntryOf(limits, call)]);
    assert Erase([EntryOf(limits, call)]) == [EntryOf(limits, call)];
  }

  lemma EraseNewest(records: seq<Record<nat>>, maxSize: nat)
    ensures Newest(Erase(records), maxSize) == Erase(Newest(records, maxSize))
  {
    if |records| > maxSize {
      EraseSlices(records, |records| - maxSize);
    }
  }

  lemma EraseValid(records: seq<Record<nat>>, limits: Limits, now: int)
    ensures Valid(records, limits, now) <==> Valid(Erase(records), limits, now)
  {
    EraseAt(records);
    var bare := Erase(records);
    hide Erase;
    if Valid(bare, limits, now) {
      forall r | r in records
        ensures r.createdAt <= now && r.expiresAt == r.createdAt + limits.ttl
      {
        var i :| 0 <= i < |records| && records[i] == r;
        assert bare[i] in bare;
      }
      assert forall i | 0 <= i < |records| ::
               records[i].key == bare[i].key && records[i].createdAt == bare[i].createdAt;
    }
  }

  /** A check answers the same, and does the same, whatever results are stored. */
  lemma EraseCheck(records: seq<Record<nat>>, limits: Limits, call: Call, now: int)
    requires Valid(Erase(records), limits, now) && InOrder(call, now)
    ensures CheckAndSet(Erase(records), limits, call).duplicate == CheckAndSet(records, limits, call).duplicate
    ensures CheckAndSet(Erase(records), limits, call).records == Erase(CheckAndSet(records, limits, call).records)
  {
    EraseValid(records, limits, now);
    hide Erase, CheckAndSet, Live, Valid, Appended, Newest, Find;
    CallMeans(records, limits, call, now);
    CallMeans(Erase(records), limits, call, now);
    EraseLive(records, call.cleanedAt);
    var live := Live(records, call.cleanedAt);
    EraseAt(live);
    EraseFind(live, call.key);
    EraseAppended(live, limits, call);
    EraseNewest(Appended(live, limits, call), limits.maxSize);
  }

  lemma EraseStored(records: seq<Record<nat>>, key: Key, result: nat)
    ensures Erase(StoreResult(records, key, result)) == Erase(records)
  {
    EraseAt(records);
    EraseAt(StoreResult(records, key, result));
    hide Erase, Find;
  }

  // ---------------------------------------------------------------- the log of a run

  /** `checks` logs every check of the table; `made[i]` is the position of the check that let order `i` be
      created. */
  datatype Trace = Trace(checks: seq<Call>, made: seq<nat>)

  function TraceOf(limits: Limits, events: seq<Event>): Trace {
    if events == [] then Trace([], [])
    else
      var before := TraceOf(limits, Front(events));
      var m, e := After(limits, Front(events)), Last(events);
      if !e.PlaceOrder? || e.request.breakerOpen then before
      else
        Trace(before.checks + [CheckOf(e.request)],
              if Place(m, limits, e.request).1.Created? then before.made + [|before.checks|] else before.made)
  }

  ghost predicate Logged(m: Manager, limits: Limits, t: Trace, epoch: int, now: int) {
    && Erase(m.records) == TableAfter(limits, t.checks)
    && IdempotencyWindow.Orderly(t.checks, epoch) && epoch <= now
    && (t.checks == [] || Last(t.checks).recordedAt <= now)
  }

  /** The order of a log position: who it was for, and whether an earlier position recorded the key. */
  ghost predicate MadeAt(m: Manager, limits: Limits, t: Trace, i: nat) {
    && i < |m.orders| && i < |t.made| && t.made[i] < |t.checks| && t.checks[t.made[i]].key == m.orders[i].clientId
    && exists a: nat :: a <= t.made[i] && Records(limits, t.checks, a) && t.checks[a].key == m.orders[i].clientId
  }

  /** A later order of the same client id was let through by a check that recorded its key anew. */
  ghost predicate Renewed(m: Manager, limits: Limits, t: Trace, i: nat, j: nat)
    requires i < j < |t.made| && j < |m.orders|
  {
    && t.made[i] < t.made[j]
    && (m.orders[i].clientId == m.orders[j].clientId ==> Records(limits, t.checks, t.made[j]))
  }

  ghost predicate AllMade(m: Manager, limits: Limits, t: Trace) {
    && |t.made| == |m.orders|
    && (forall i | 0 <= i < |m.orders| :: MadeAt(m, limits, t, i))
    && (forall i, j | 0 <= i < j < |m.orders| :: Renewed(m, limits, t, i, j))
  }

  /** A key in the table was recorded by some check of the log. */
  lemma {:induction false} InTableWasRecorded(limits: Limits, calls: seq<Call>, epoch: int, key: Key) returns (a: nat)
    requires IdempotencyWindow.Orderly(calls, epoch) && exists r | r in TableAfter(limits, calls) :: r.key == key
    ensures Records(limits, calls, a) && calls[a].key == key
    decreases |calls|
  {
    assert calls != [];
    var n := |calls| - 1;
    var before := TableAfter(limits, calls[..n]);
    OrderlySplits(calls, epoch, n);
    TableFits(limits, calls[..n], epoch);
    assert calls == calls[..n] + [calls[n]] && calls[n..] == [calls[n]];
    RunCallsAppend<()>([], limits, calls[..n], [calls[n]]);
    hide CheckAndSet, Valid, RunCalls, TableAfter;
    assert TableAfter(limits, calls) == CheckAndSet(before, limits, calls[n]).records by {
      TableStep(limits, calls[..n], calls[n]);
    }
    if !CheckAndSet(before, limits, calls[n]).duplicate && calls[n].key == key {
      a := n;
    } else {
      KeptWasThere(before, limits, calls[n], if n == 0 then epoch else calls[n - 1].recordedAt, key);
      a := InTableWasRecorded(limits, calls[..n], epoch, key);
      assert calls[..n][..a] == calls[..a];
    }
  }

  lemma TableStep(limits: Limits, calls: seq<Call>, call: Call)
    ensures TableAfter(limits, calls + [call]) == CheckAndSet(TableAfter(limits, calls), limits, call).records
  {
    RunCallsAppend<()>([], limits, calls, [call]);
  }

  lemma KeptWasThere(records: seq<Record<()>>, limits: Limits, call: Call, now: int, key: Key)
    requires Valid(records, limits, now) && InOrder(call, now)
    requires exists r | r in CheckAndSet(records, limits, call).records :: r.key == key
    requires CheckAndSet(records, limits, call).duplicate || call.key != key
    ensures exists r | r in records :: r.key == key
  {
    hide CheckAndSet, Valid, Live, Delete, Find;
    CallMeans(records, limits, call, now);
    LiveIsValid(records, limits, now, call.cleanedAt);
    var live := Live(records, call.cleanedAt);
    DeleteIsValid(live, call.key, limits, now);
    var r :| r in CheckAndSet(records, limits, call).records && r.key == key;
    assert r in live;
    LiveMembers(records, call.cleanedAt, r);
  }

  // ---------------------------------------------------------------- what every event keeps

  lemma PlaceLogged(m: Manager, limits: Limits, t: Trace, r: Request, epoch: int, now: int)
    requires Logged(m, limits, t, epoch, now) && !r.breakerOpen && OrderlyRequest(r, now)
    ensures Logged(Place(m, limits, r).0, limits, Trace(t.checks + [CheckOf(r)], t.made), epoch, r.createdAt)
    ensures CheckAndSet(m.records, limits, CheckOf(r)).duplicate
         == CheckAndSet(TableAfter(limits, t.checks), limits, CheckOf(r)).duplicate
  {
    var call := CheckOf(r);
    var clock := if t.checks == [] then epoch else Last(t.checks).recordedAt;
    TableFits(limits, t.checks, epoch);
    hide CheckAndSet, Erase, TableAfter, Valid, StoreResult, FirstConflict;
    EraseCheck(m.records, limits, call, clock);
    EraseStored(CheckAndSet(m.records, limits, call).records, r.clientId, |m.orders|);
    TableStep(limits, t.checks, call);
    OrderlyAppend(t.checks, call, epoch);
  }

  lemma MadeStays(m: Manager, n: Manager, limits: Limits, t: Trace, u: Trace, i: nat)
    requires MadeAt(m, limits, t, i) && i < |n.orders| && n.orders[i].clientId == m.orders[i].clientId
    requires t.checks <= u.checks && t.made <= u.made
    ensures MadeAt(n, limits, u, i)
  {
    var a: nat :| a <= t.made[i] && Records(limits, t.checks, a) && t.checks[a].key == m.orders[i].clientId;
    RecordsStays(limits, t.checks, u.checks, a);
    hide Records;
  }

  lemma RecordsStays(limits: Limits, checks: seq<Call>, more: seq<Call>, a: nat)
    requires Records(limits, checks, a) && checks <= more
    ensures Records(limits, more, a) && more[a] == checks[a]
  {
    hide CheckAndSet, TableAfter;
    assert more[..a] == checks[..a];
  }

  lemma RenewedStays(m: Manager, n: Manager, limits: Limits, t: Trace, u: Trace, i: nat, j: nat)
    requires i < j < |t.made| && j < |m.orders| && Renewed(m, limits, t, i, j)
    requires j < |n.orders|
    requires n.orders[i].clientId == m.orders[i].clientId && n.orders[j].clientId == m.orders[j].clientId
    requires t.checks <= u.checks && t.made <= u.made
    ensures Renewed(n, limits, u, i, j)
  {
    if m.orders[i].clientId == m.orders[j].clientId {
      RecordsStays(limits, t.checks, u.checks, t.made[j]);
    }
    hide Records;
  }

  /** The check behind a new order either recorded its key or found it recorded. */
  lemma NewOrderMade(m: Manager, limits: Limits, t: Trace, r: Request, epoch: int, now: int)
    requires Logged(m, limits, t, epoch, now) && !r.breakerOpen && OrderlyRequest(r, now)
    requires |t.made| == |m.orders| && Place(m, limits, r).1.Created?
    ensures var n := Place(m, limits, r).0;
            MadeAt(n, limits, Trace(t.checks + [CheckOf(r)], t.made + [|t.checks|]), |m.orders|)
  {
    var call := CheckOf(r);
    var c := |t.checks|;
    var checks := t.checks + [call];
    var table := TableAfter(limits, t.checks);
    PlaceLogged(m, limits, t, r, epoch, now);
    TableFits(limits, t.checks, epoch);
    hide CheckAndSet, TableAfter, Valid, StoreResult, FirstConflict;
    assert checks[..c] == t.checks && checks[c] == call;
    if CheckAndSet(table, limits, call).duplicate {
      DuplicateWasThere(table, limits, call, if c == 0 then epoch else Last(t.checks).recordedAt);
      var a := InTableWasRecorded(limits, t.checks, epoch, call.key);
      RecordsStays(limits, t.checks, checks, a);
      hide Records;
      assert a <= c;
    } else {
      assert Records(limits, checks, c);
    }
  }

  lemma DuplicateWasThere(records: seq<Record<()>>, limits: Limits, call: Call, now: int)
    requires Valid(records, limits, now) && InOrder(call, now) && CheckAndSet(records, limits, call).duplicate
    ensures exists r | r in records :: r.key == call.key
  {
    CallMeans(records, limits, call, now);
    var live := Live(records, call.cleanedAt);
    var i := Find(live, call.key);
    hide CheckAndSet, Valid, Find;
    LiveMembers(records, call.cleanedAt, live[i]);
  }

  lemma NewOrderRenews(m: Manager, limits: Limits, t: Trace, r: Request, epoch: int, now: int, i: nat)
    requires Logged(m, limits, t, epoch, now) && !r.breakerOpen && OrderlyRequest(r, now) && Indexed(m)
    requires |t.made| == |m.orders| && Place(m, limits, r).1.Created? && i < |m.orders| && MadeAt(m, limits, t, i)
    ensures var n := Place(m, limits, r).0;
            Renewed(n, limits, Trace(t.checks + [CheckOf(r)], t.made + [|t.checks|]), i, |m.orders|)
  {
    var checks := t.checks + [CheckOf(r)];
    PlaceLogged(m, limits, t, r, epoch, now);
    hide CheckAndSet, TableAfter, StoreResult, FirstConflict, Erase;
    assert checks[..|t.checks|] == t.checks && checks[|t.checks|] == CheckOf(r);
  }

  lemma OldStayMade(m: Manager, n: Manager, limits: Limits, t: Trace, u: Trace)
    requires AllMade(m, limits, t) && m.orders <= n.orders && t.checks <= u.checks && t.made <= u.made
    ensures forall i | 0 <= i < |m.orders| :: MadeAt(n, limits, u, i)
    ensures forall i, j | 0 <= i < j < |m.orders| :: Renewed(n, limits, u, i, j)
  {
    hide MadeAt, Renewed;
    forall i | 0 <= i < |m.orders|
      ensures MadeAt(n, limits, u, i)
    {
      MadeStays(m, n, limits, t, u, i);
    }
    forall i, j | 0 <= i < j < |m.orders|
      ensures Renewed(n, limits, u, i, j)
    {
      RenewedStays(m, n, limits, t, u, i, j);
    }
  }

  lemma NewRenewsAll(m: Manager, limits: Limits, t: Trace, r: Request, epoch: int, now: int)
    requires Logged(m, limits, t, epoch, now) && !r.breakerOpen && OrderlyRequest(r, now) && Indexed(m)
    requires AllMade(m, limits, t) && Place(m, limits, r).1.Created?
    ensures var n := Place(m, limits, r).0;
            var u := Trace(t.checks + [CheckOf(r)], t.made + [|t.checks|]);
            |n.orders| == |m.orders| + 1 && forall i | 0 <= i < |m.orders| :: Renewed(n, limits, u, i, |m.orders|)
  {
    PlaceKeepsOrders(m, limits, r);
    hide Place, Logged, Renewed;
    var n := Place(m, limits, r).0;
    var u := Trace(t.checks + [CheckOf(r)], t.made + [|t.checks|]);
    forall i | 0 <= i < |m.orders|
      ensures Renewed(n, limits, u, i, |m.orders|)
    {
      NewOrderRenews(m, limits, t, r, epoch, now, i);
    }
  }

  lemma PlaceAllMade(m: Manager, limits: Limits, t: Trace, r: Request, epoch: int, now: int)
    requires Logged(m, limits, t, epoch, now) && !r.breakerOpen && OrderlyRequest(r, now) && Indexed(m)
    requires AllMade(m, limits, t)
    ensures var (n, reply) := Place(m, limits, r);
            AllMade(n, limits, Trace(t.checks + [CheckOf(r)], if reply.Created? then t.made + [|t.checks|] else t.made))
  {
    hide Place, Logged, MadeAt, Renewed, Indexed, OrderlyRequest;
    var (n, reply) := Place(m, limits, r);
    var u := Trace(t.checks + [CheckOf(r)], if reply.Created? then t.made + [|t.checks|] else t.made);
    PlaceKeepsOrders(m, limits, r);
    OldStayMade(m, n, limits, t, u);
    if reply.Created? {
      NewOrderMade(m, limits, t, r, epoch, now);
      NewRenewsAll(m, limits, t, r, epoch, now);
    }
    Assembled(n, limits, u, |m.orders|);
  }

  lemma Assembled(n: Manager, limits: Limits, u: Trace, k: nat)
    requires |u.made| == |n.orders| && k <= |n.orders| <= k + 1
    requires forall i | 0 <= i < k :: MadeAt(n, limits, u, i)
    requires forall i, j | 0 <= i < j < k :: Renewed(n, limits, u, i, j)
    requires |n.orders| == k + 1 ==> MadeAt(n, limits, u, k) && forall i | 0 <= i < k :: Renewed(n, limits, u, i, k)
    ensures AllMade(n, limits, u)
  {
    hide MadeAt, Renewed;
  }

  lemma PlaceKeepsOrders(m: Manager, limits: Limits, r: Request)
    ensures var (n, reply) := Place(m, limits, r);
            && m.orders <= n.orders && |n.orders| == |m.orders| + if reply.Created? then 1 else 0
  {
    hide CheckAndSet, StoreResult, FirstConflict;
  }

  lemma ChangeAllMade(m: Manager, n: Manager, limits: Limits, t: Trace)
    requires AllMade(m, limits, t) && |n.orders| == |m.orders|
    requires forall i | 0 <= i < |m.orders| :: n.orders[i].clientId == m.orders[i].clientId
    ensures AllMade(n, limits, t)
  {
    hide MadeAt, Renewed;
    forall i | 0 <= i < |m.orders|
      ensures MadeAt(n, limits, t, i)
    {
      MadeStays(m, n, limits, t, t, i);
    }
    forall i, j | 0 <= i < j < |n.orders|
      ensures Renewed(n, limits, t, i, j)
    {
      RenewedStays(m, n, limits, t, t, i, j);
    }
  }

  lemma {:induction false} RunLogged(limits: Limits, events: seq<Event>, epoch: int)
    requires OrderLifecycle.Orderly(events, epoch)
    ensures Logged(After(limits, events), limits, TraceOf(limits, events), epoch, ClockAfter(events, epoch))
    ensures AllMade(After(limits, events), limits, TraceOf(limits, events))
  {
    if events != [] {
      RunLogged(limits, Front(events), epoch);
      var m, e := After(limits, Front(events)), Last(events);
      var t, now := TraceOf(limits, Front(events)), ClockAfter(Front(events), epoch);
      hide Place, Changed, Logged, AllMade, Indexed;
      if e.PlaceOrder? {
        if e.request.breakerOpen {
          ClosedGate(m, limits, e.request);
        } else {
          PlaceLogged(m, limits, t, e.request, epoch, now);
          PlaceAllMade(m, limits, t, e.request, epoch, now);
          LogIgnoresMade(Place(m, limits, e.request).0, limits, t.checks + [CheckOf(e.request)], t.made,
                         TraceOf(limits, events).made, epoch, e.request.createdAt);
        }
      } else {
        UnplacedStep(m, limits, e, t, epoch, now);
      }
    } else {
      NothingLogged(limits, epoch);
    }
  }

  lemma NothingLogged(limits: Limits, epoch: int)
    ensures Logged(NEW_MANAGER, limits, Trace([], []), epoch, epoch) && AllMade(NEW_MANAGER, limits, Trace([], []))
  {
  }

  lemma ClosedGate(m: Manager, limits: Limits, r: Request)
    requires r.breakerOpen
    ensures Place(m, limits, r).0 == m
  {
  }

  lemma LogIgnoresMade(m: Manager, limits: Limits, checks: seq<Call>, a: seq<nat>, b: seq<nat>, epoch: int, now: int)
    requires Logged(m, limits, Trace(checks, a), epoch, now)
    ensures Logged(m, limits, Trace(checks, b), epoch, now)
  {
  }

  lemma UnplacedStep(m: Manager, limits: Limits, e: Event, t: Trace, epoch: int, now: int)
    requires !e.PlaceOrder? && Indexed(m) && Logged(m, limits, t, epoch, now) && AllMade(m, limits, t)
    ensures Logged(Next(m, limits, e), limits, t, epoch, now) && AllMade(Next(m, limits, e), limits, t)
  {
    var n := Next(m, limits, e);
    assert n.records == m.records;
    if e.clientId in m.byClient {
      ChangeKeepsIdentity(m.orders[m.byClient[e.clientId]], e);
    }
    hide AllMade, Changed, Erase, TableAfter;
    ChangeAllMade(m, n, limits, t);
  }

  /** This check of the log found the id absent, and so recorded it. */
  ghost predicate RecordsId(limits: Limits, checks: seq<Call>, a: nat, id: Key) {
    Records(limits, checks, a) && checks[a].key == id
  }

  /** MAIN: over every run, a client id gets a second order only by a check that recorded the id anew; the id had
      been recorded no later than the first order; and every earlier recording of the id, the one the first order
      lives under among them, lies a whole lifetime back, or enough other ids have been recorded since to evict
      it. So while a recording of the id lives, no further order of that id is created. */
  lemma OneOrderPerRecord(limits: Limits, events: seq<Event>, epoch: int, i: nat, j: nat)
    requires OrderLifecycle.Orderly(events, epoch) && i < j < |After(limits, events).orders|
    requires After(limits, events).orders[i].clientId == After(limits, events).orders[j].clientId
    ensures var t, id := TraceOf(limits, events), After(limits, events).orders[i].clientId;
            && |t.made| == |After(limits, events).orders| && t.made[i] < t.made[j]
            && RecordsId(limits, t.checks, t.made[j], id)
            && (exists a: nat :: a <= t.made[i] && RecordsId(limits, t.checks, a, id))
            && (forall a: nat | a < t.made[j] && RecordsId(limits, t.checks, a, id) ::
                  FarApart(limits, t.checks, a, t.made[j]))
  {
    var m, t := After(limits, events), TraceOf(limits, events);
    var id := m.orders[i].clientId;
    RunLogged(limits, events, epoch);
    hide After, TraceOf, CheckAndSet, TableAfter, FarApart, Erase, Records;
    assert MadeAt(m, limits, t, i) && MadeAt(m, limits, t, j) && Renewed(m, limits, t, i, j);
    var first: nat :| first <= t.made[i] && Records(limits, t.checks, first) && t.checks[first].key == id;
    assert RecordsId(limits, t.checks, first, id);
    forall a: nat | a < t.made[j] && RecordsId(limits, t.checks, a, id)
      ensures FarApart(limits, t.checks, a, t.made[j])
    {
      TwoRecordings(limits, t.checks, epoch, a, t.made[j]);
    }
  }
}
