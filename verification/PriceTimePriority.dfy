/** The sweep refines a naive matcher: flatten the opposite side into one price-time queue, pass
    over whatever the limit or self-trade prevention rules out, and consume greedily. */
module PriceTimePriority {
  import opened Prelude
  import opened OrderMatcher

  datatype Resting = Resting(key: nat, order: Order)

  function Tag(key: nat, orders: seq<Order>): seq<Resting> {
    if orders == [] then [] else [Resting(key, orders[0])] + Tag(key, orders[1..])
  }

  function Flatten(levels: Levels, keys: seq<nat>): seq<Resting> {
    if keys == [] then []
    else (if keys[0] in levels then Tag(keys[0], levels[keys[0]]) else []) + Flatten(levels, keys[1..])
  }

  /** The side `levels` as the price-time queue seen by a taker on `side`. */
  function Queue(levels: Levels, side: Side): seq<Resting> {
    Flatten(levels, BestFirst(levels.Keys, side))
  }

  /** May this resting order of the untouched side `levels` trade with the taker? */
  predicate Eligible(levels: Levels, taker: Order, stp: bool, r: Resting) {
    && r.key in levels && Crosses(taker, r.key)
    && !SkipsLevel(levels[r.key], taker, stp)
    && !(stp && r.order.userId == taker.userId)
  }

  datatype Allocation = Allocation(queue: seq<Resting>, left: int, fills: seq<Fill>)

  function Reduced(r: Resting, quantity: int): seq<Resting> {
    if r.order.remaining > quantity then [r.(order := r.order.(remaining := r.order.remaining - quantity))] else []
  }

  /** What one queue entry contributes, and what it leaves of the demand. */
  function GreedyHead(r: Resting, levels: Levels, taker: Order, stp: bool, want: int, id: nat): Allocation {
    if want <= 0 || !Eligible(levels, taker, stp, r) then Allocation([r], want, [])
    else
      var quantity := Min(want, r.order.remaining);
      Allocation(Reduced(r, quantity), want - quantity, [FillOf(r.order, taker, r.key, quantity, id)])
  }

  function Then(first: Allocation, second: Allocation): Allocation {
    Allocation(first.queue + second.queue, second.left, first.fills + second.fills)
  }

  /** The naive matcher. */
  function Greedy(q: seq<Resting>, levels: Levels, taker: Order, stp: bool, want: int, id: nat): Allocation {
    if q == [] then Allocation([], want, [])
    else
      var head := GreedyHead(q[0], levels, taker, stp, want, id);
      Then(head, Greedy(q[1..], levels, taker, stp, head.left, id + |head.fills|))
  }

  ghost predicate Live(levels: Levels) {
    forall k | k in levels :: levels[k] != [] && forall o | o in levels[k] :: o.remaining > 0
  }

  // ---------------------------------------------------------------- the naive matcher

  lemma {:induction false} GreedyIdle(q: seq<Resting>, levels: Levels, taker: Order, stp: bool, want: int, id: nat)
    requires want <= 0 || forall r | r in q :: !Eligible(levels, taker, stp, r)
    ensures Greedy(q, levels, taker, stp, want, id) == Allocation(q, want, [])
  {
    if q != [] {
      GreedyIdle(q[1..], levels, taker, stp, want, id);
    }
  }

  lemma ThenUnit(a: Allocation)
    ensures forall left :: Then(Allocation([], left, []), a) == a
  {
    assert [] + a.queue == a.queue && [] + a.fills == a.fills;
  }

  lemma ThenAssociates(a: Allocation, b: Allocation, c: Allocation)
    ensures Then(Then(a, b), c) == Then(a, Then(b, c))
  {
    assert (a.queue + b.queue) + c.queue == a.queue + (b.queue + c.queue);
    assert (a.fills + b.fills) + c.fills == a.fills + (b.fills + c.fills);
  }

  lemma {:induction false} GreedyAppend(a: seq<Resting>, b: seq<Resting>, levels: Levels, taker: Order, stp: bool,
                                        want: int, id: nat)
    ensures var first := Greedy(a, levels, taker, stp, want, id);
            Greedy(a + b, levels, taker, stp, want, id)
            == Then(first, Greedy(b, levels, taker, stp, first.left, id + |first.fills|))
    decreases |a|
  {
    hide GreedyHead;
    if a == [] {
      assert a + b == b;
      ThenUnit(Greedy(b, levels, taker, stp, want, id));
    } else {
      assert (a + b)[0] == a[0] && (a + b)[1..] == a[1..] + b;
      var head := GreedyHead(a[0], levels, taker, stp, want, id);
      var middle := Greedy(a[1..], levels, taker, stp, head.left, id + |head.fills|);
      var last := Greedy(b, levels, taker, stp, middle.left, id + |head.fills| + |middle.fills|);
      calc {
        Greedy(a + b, levels, taker, stp, want, id);
        Then(head, Greedy(a[1..] + b, levels, taker, stp, head.left, id + |head.fills|));
        { GreedyAppend(a[1..], b, levels, taker, stp, head.left, id + |head.fills|); }
        Then(head, Then(middle, last));
        { ThenAssociates(head, middle, last); }
        Then(Then(head, middle), last);
      }
    }
  }

  // ---------------------------------------------------------------- one level

  /** The allocation a level walk stands for. */
  function WalkAllocation(orders: seq<Order>, taker: Order, key: nat, stp: bool, want: int, id: nat): Allocation {
    var walk := WalkLevel(orders, taker.(remaining := want), key, stp, id);
    Allocation(Tag(key, Retain(walk.orders)), walk.left, walk.fills)
  }

  lemma WalkPassesOver(orders: seq<Order>, taker: Order, key: nat, stp: bool, want: int, id: nat)
    requires orders != [] && want > 0 && orders[0].remaining > 0
    requires stp && orders[0].userId == taker.userId
    ensures WalkAllocation(orders, taker, key, stp, want, id)
         == Then(Allocation([Resting(key, orders[0])], want, []),
                 WalkAllocation(orders[1..], taker, key, stp, want, id))
  {
    var rest := WalkLevel(orders[1..], taker.(remaining := want), key, stp, id);
    assert WalkLevel(orders, taker.(remaining := want), key, stp, id) == rest.(orders := [orders[0]] + rest.orders);
    RetainTagged(orders[0], rest.orders, key);
    assert [] + rest.fills == rest.fills;
  }

  lemma WalkTrades(orders: seq<Order>, taker: Order, key: nat, stp: bool, want: int, id: nat)
    requires orders != [] && want > 0 && orders[0].remaining > 0
    requires !(stp && orders[0].userId == taker.userId)
    ensures var quantity := Min(want, orders[0].remaining);
            WalkAllocation(orders, taker, key, stp, want, id)
            == Then(Allocation(Reduced(Resting(key, orders[0]), quantity), want - quantity,
                               [FillOf(orders[0], taker, key, quantity, id)]),
                    WalkAllocation(orders[1..], taker, key, stp, want - quantity, id + 1))
  {
    var quantity := Min(want, orders[0].remaining);
    var debited := orders[0].(remaining := orders[0].remaining - quantity);
    var t := taker.(remaining := want);
    assert t.(remaining := want - quantity) == taker.(remaining := want - quantity);
    var rest := WalkLevel(orders[1..], taker.(remaining := want - quantity), key, stp, id + 1);
    assert WalkLevel(orders, t, key, stp, id)
        == LevelWalk([debited] + rest.orders, rest.left, [FillOf(orders[0], t, key, quantity, id)] + rest.fills);
    RetainTagged(debited, rest.orders, key);
  }

  lemma WalkUnfolds(orders: seq<Order>, levels: Levels, taker: Order, key: nat, stp: bool, want: int, id: nat)
    requires orders != [] && want > 0 && orders[0].remaining > 0
    requires key in levels && Crosses(taker, key) && !SkipsLevel(levels[key], taker, stp)
    ensures var head := GreedyHead(Resting(key, orders[0]), levels, taker, stp, want, id);
            WalkAllocation(orders, taker, key, stp, want, id)
            == Then(head, WalkAllocation(orders[1..], taker, key, stp, head.left, id + |head.fills|))
  {
    hide WalkAllocation, Crosses, SkipsLevel, Reduced, FillOf, Then;
    if stp && orders[0].userId == taker.userId {
      WalkPassesOver(orders, taker, key, stp, want, id);
    } else {
      WalkTrades(orders, taker, key, stp, want, id);
    }
  }

  lemma GreedyOnTagged(orders: seq<Order>, levels: Levels, taker: Order, key: nat, stp: bool, want: int, id: nat)
    requires orders != []
    ensures var head := GreedyHead(Resting(key, orders[0]), levels, taker, stp, want, id);
            Greedy(Tag(key, orders), levels, taker, stp, want, id)
            == Then(head, Greedy(Tag(key, orders[1..]), levels, taker, stp, head.left, id + |head.fills|))
  {
    assert Tag(key, orders)[1..] == Tag(key, orders[1..]);
  }

  lemma NothingWanted(orders: seq<Order>, levels: Levels, taker: Order, key: nat, stp: bool, want: int, id: nat)
    requires orders == [] || want <= 0
    requires forall o | o in orders :: o.remaining > 0
    ensures Greedy(Tag(key, orders), levels, taker, stp, want, id)
         == WalkAllocation(orders, taker, key, stp, want, id)
  {
    if orders != [] {
      GreedyIdle(Tag(key, orders), levels, taker, stp, want, id);
      RetainLive(orders);
    }
  }

  lemma {:induction false} WalkIsGreedy(orders: seq<Order>, levels: Levels, taker: Order, key: nat, stp: bool,
                                        want: int, id: nat)
    requires key in levels && Crosses(taker, key) && !SkipsLevel(levels[key], taker, stp)
    requires forall o | o in orders :: o.remaining > 0
    ensures Greedy(Tag(key, orders), levels, taker, stp, want, id)
         == WalkAllocation(orders, taker, key, stp, want, id)
    decreases |orders|
  {
    hide WalkLevel, Greedy, GreedyHead, SkipsLevel, WalkAllocation;
    if orders == [] || want <= 0 {
      NothingWanted(orders, levels, taker, key, stp, want, id);
    } else {
      GreedyOnTagged(orders, levels, taker, key, stp, want, id);
      WalkUnfolds(orders, levels, taker, key, stp, want, id);
      var head := GreedyHead(Resting(key, orders[0]), levels, taker, stp, want, id);
      WalkIsGreedy(orders[1..], levels, taker, key, stp, head.left, id + |head.fills|);
    }
  }

  lemma RetainTagged(o: Order, rest: seq<Order>, key: nat)
    ensures Tag(key, Retain([o] + rest))
         == (if o.remaining > 0 then [Resting(key, o)] else []) + Tag(key, Retain(rest))
  {
    assert ([o] + rest)[1..] == rest;
    if o.remaining > 0 {
      assert ([o] + Retain(rest))[1..] == Retain(rest);
    } else {
      assert [] + Retain(rest) == Retain(rest);
    }
  }

  lemma {:induction false} RetainLive(orders: seq<Order>)
    requires forall o | o in orders :: o.remaining > 0
    ensures Retain(orders) == orders
  {
    if orders != [] {
      RetainLive(orders[1..]);
    }
  }

  // ---------------------------------------------------------------- the whole sweep

  ghost predicate SameAt(a: Levels, b: Levels, key: nat) {
    (key in a <==> key in b) && (key in a ==> a[key] == b[key])
  }

  ghost predicate Distinct(keys: seq<nat>) {
    forall i, j | 0 <= i < j < |keys| :: keys[i] != keys[j]
  }

  lemma {:induction false} FlattenAgrees(a: Levels, b: Levels, keys: seq<nat>)
    requires forall k | k in keys :: SameAt(a, b, k)
    ensures Flatten(a, keys) == Flatten(b, keys)
  {
    if keys != [] {
      assert SameAt(a, b, keys[0]);
      FlattenAgrees(a, b, keys[1..]);
    }
  }

  /** A sweep touches the visited keys and nothing else, and never adds a level. */
  lemma {:induction false} SweepFrame(levels: Levels, keys: seq<nat>, taker: Order, stp: bool, id: nat)
    ensures var after := SweepLevels(levels, keys, taker, stp, id).levels;
            && after.Keys <= levels.Keys
            && forall k | k !in keys :: SameAt(levels, after, k)
    decreases |keys|
  {
    if keys == [] || taker.remaining <= 0 {
    } else if keys[0] !in levels || SkipsLevel(levels[keys[0]], taker, stp) {
      SweepFrame(levels, keys[1..], taker, stp, id);
    } else {
      var walk := WalkLevel(levels[keys[0]], taker, keys[0], stp, id);
      var next := StoreLevel(levels, keys[0], Retain(walk.orders));
      SweepFrame(next, keys[1..], taker.(remaining := walk.left), stp, id + |walk.fills|);
      forall k | k !in keys
        ensures SameAt(levels, SweepLevels(levels, keys, taker, stp, id).levels, k)
      {
        assert SameAt(levels, next, k) && k !in keys[1..];
      }
    }
  }

  function SweepAllocation(levels: Levels, keys: seq<nat>, taker: Order, stp: bool, want: int, id: nat): Allocation {
    var sweep := SweepLevels(levels, keys, taker.(remaining := want), stp, id);
    Allocation(Flatten(sweep.levels, keys), sweep.left, sweep.fills)
  }

  lemma SweepPassesOver(levels: Levels, keys: seq<nat>, taker: Order, stp: bool, want: int, id: nat)
    requires keys != [] && Distinct(keys) && want > 0
    requires keys[0] in levels && SkipsLevel(levels[keys[0]], taker, stp)
    ensures SweepAllocation(levels, keys, taker, stp, want, id)
         == Then(Allocation(Tag(keys[0], levels[keys[0]]), want, []),
                 SweepAllocation(levels, keys[1..], taker, stp, want, id))
  {
    hide WalkLevel, Retain, Tag, Crosses;
    var t := taker.(remaining := want);
    assert SkipsLevel(levels[keys[0]], t, stp);
    var sweep := SweepLevels(levels, keys[1..], t, stp, id);
    assert SweepLevels(levels, keys, t, stp, id) == sweep;
    SweepFrame(levels, keys[1..], t, stp, id);
    assert SameAt(levels, sweep.levels, keys[0]);
    assert [] + sweep.fills == sweep.fills;
  }

  lemma SweepTrades(levels: Levels, keys: seq<nat>, taker: Order, stp: bool, want: int, id: nat)
    requires keys != [] && Distinct(keys) && want > 0
    requires keys[0] in levels && !SkipsLevel(levels[keys[0]], taker, stp)
    ensures var walk := WalkLevel(levels[keys[0]], taker.(remaining := want), keys[0], stp, id);
            var next := StoreLevel(levels, keys[0], Retain(walk.orders));
            SweepAllocation(levels, keys, taker, stp, want, id)
            == Then(WalkAllocation(levels[keys[0]], taker, keys[0], stp, want, id),
                    SweepAllocation(next, keys[1..], taker, stp, walk.left, id + |walk.fills|))
  {
    hide WalkLevel, Retain, Crosses;
    var t := taker.(remaining := want);
    assert !SkipsLevel(levels[keys[0]], t, stp);
    var walk := WalkLevel(levels[keys[0]], t, keys[0], stp, id);
    var kept := Retain(walk.orders);
    var next := StoreLevel(levels, keys[0], kept);
    assert t.(remaining := walk.left) == taker.(remaining := walk.left);
    var rest := SweepLevels(next, keys[1..], taker.(remaining := walk.left), stp, id + |walk.fills|);
    assert SweepLevels(levels, keys, t, stp, id) == rest.(fills := walk.fills + rest.fills);
    SweepFrame(next, keys[1..], taker.(remaining := walk.left), stp, id + |walk.fills|);
    assert SameAt(next, rest.levels, keys[0]);
  }

  ghost predicate Sweepable(levels: Levels, original: Levels, keys: seq<nat>, taker: Order) {
    && Distinct(keys)
    && forall k | k in keys ::
         k in levels && SameAt(levels, original, k) && Crosses(taker, k) && forall o | o in levels[k] :: o.remaining > 0
  }

  lemma NothingSwept(levels: Levels, original: Levels, keys: seq<nat>, taker: Order, stp: bool, want: int, id: nat)
    requires keys == [] || want <= 0
    ensures Greedy(Flatten(levels, keys), original, taker, stp, want, id)
         == SweepAllocation(levels, keys, taker, stp, want, id)
  {
    if keys != [] {
      GreedyIdle(Flatten(levels, keys), original, taker, stp, want, id);
    }
  }

  lemma {:induction false} SweepIsGreedy(levels: Levels, original: Levels, keys: seq<nat>, taker: Order, stp: bool,
                                         want: int, id: nat)
    requires Sweepable(levels, original, keys, taker)
    ensures Greedy(Flatten(levels, keys), original, taker, stp, want, id)
         == SweepAllocation(levels, keys, taker, stp, want, id)
    decreases |keys|
  {
    hide WalkLevel, Retain, Tag, SweepLevels, SkipsLevel, Greedy, GreedyHead;
    if keys == [] || want <= 0 {
      NothingSwept(levels, original, keys, taker, stp, want, id);
    } else {
      var key, tail := keys[0], keys[1..];
      assert key in keys && SameAt(levels, original, key);
      GreedyAppend(Tag(key, levels[key]), Flatten(levels, tail), original, taker, stp, want, id);
      if SkipsLevel(levels[key], taker, stp) {
        SkippedIsIdle(levels[key], original, taker, key, stp, want, id);
        SweepPassesOver(levels, keys, taker, stp, want, id);
        SweepIsGreedy(levels, original, tail, taker, stp, want, id);
      } else {
        SweepAtHead(levels, original, keys, taker, stp, want, id);
      }
    }
  }

  /** Storing the head level leaves the rest of the visit as it was. */
  lemma TailUntouched(levels: Levels, original: Levels, keys: seq<nat>, taker: Order, kept: seq<Order>)
    requires Sweepable(levels, original, keys, taker) && keys != []
    ensures Sweepable(StoreLevel(levels, keys[0], kept), original, keys[1..], taker)
    ensures Flatten(StoreLevel(levels, keys[0], kept), keys[1..]) == Flatten(levels, keys[1..])
  {
    var next := StoreLevel(levels, keys[0], kept);
    forall k | k in keys[1..]
      ensures SameAt(levels, next, k) && k in keys
    {
    }
    FlattenAgrees(levels, next, keys[1..]);
  }

  lemma SweepAtHead(levels: Levels, original: Levels, keys: seq<nat>, taker: Order, stp: bool, want: int, id: nat)
    requires Sweepable(levels, original, keys, taker) && keys != [] && want > 0
    requires !SkipsLevel(levels[keys[0]], taker, stp)
    ensures var first := Greedy(Tag(keys[0], levels[keys[0]]), original, taker, stp, want, id);
            SweepAllocation(levels, keys, taker, stp, want, id)
            == Then(first, Greedy(Flatten(levels, keys[1..]), original, taker, stp, first.left, id + |first.fills|))
    decreases |keys|, 0
  {
    hide SweepLevels, WalkLevel, Greedy, Flatten, Tag, Retain;
    var walk := WalkLevel(levels[keys[0]], taker.(remaining := want), keys[0], stp, id);
    var next := StoreLevel(levels, keys[0], Retain(walk.orders));
    assert keys[0] in keys && SameAt(levels, original, keys[0]);
    WalkIsGreedy(levels[keys[0]], original, taker, keys[0], stp, want, id);
    SweepTrades(levels, keys, taker, stp, want, id);
    TailUntouched(levels, original, keys, taker, Retain(walk.orders));
    SweepIsGreedy(next, original, keys[1..], taker, stp, walk.left, id + |walk.fills|);
  }

  lemma SkippedIsIdle(orders: seq<Order>, original: Levels, taker: Order, key: nat, stp: bool, want: int, id: nat)
    requires key in original && original[key] == orders && SkipsLevel(orders, taker, stp)
    ensures Greedy(Tag(key, orders), original, taker, stp, want, id) == Allocation(Tag(key, orders), want, [])
  {
    TagKeys(key, orders);
    GreedyIdle(Tag(key, orders), original, taker, stp, want, id);
  }

  lemma {:induction false} TagKeys(key: nat, orders: seq<Order>)
    ensures |Tag(key, orders)| == |orders|
    ensures forall i | 0 <= i < |orders| :: Tag(key, orders)[i] == Resting(key, orders[i])
  {
    if orders != [] {
      TagKeys(key, orders[1..]);
    }
  }

  lemma {:induction false} FlattenAppend(levels: Levels, a: seq<nat>, b: seq<nat>)
    ensures Flatten(levels, a + b) == Flatten(levels, a) + Flatten(levels, b)
  {
    if a == [] {
      assert a + b == b;
    } else {
      assert (a + b)[1..] == a[1..] + b;
      FlattenAppend(levels, a[1..], b);
    }
  }

  lemma {:induction false} FlattenKeys(levels: Levels, keys: seq<nat>)
    ensures forall r | r in Flatten(levels, keys) ::
              r.key in keys && r.key in levels && r.order in levels[r.key]
  {
    if keys != [] {
      FlattenKeys(levels, keys[1..]);
      if keys[0] in levels {
        TagKeys(keys[0], levels[keys[0]]);
      }
    }
  }

  lemma BestIsUnique(keys: set<nat>, side: Side, k: nat)
    requires k in keys && forall x | x in keys :: NoWorse(side, k, x)
    ensures Best(keys, side) == k
  {
  }

  lemma FlattenBest(levels: Levels, keys: set<nat>, side: Side)
    requires keys != {}
    ensures var best := Best(keys, side);
            Flatten(levels, BestFirst(keys, side))
            == (if best in levels then Tag(best, levels[best]) else [])
             + Flatten(levels, BestFirst(keys - {best}, side))
  {
    hide Best, NoWorse;
    assert BestFirst(keys, side)[1..] == BestFirst(keys - {Best(keys, side)}, side);
  }

  /** Keys without a level contribute nothing to the queue. */
  lemma {:induction false} FlattenCompacts(levels: Levels, some: set<nat>, all: set<nat>, side: Side)
    requires some <= all && forall k | k in all && k !in some :: k !in levels
    ensures Flatten(levels, BestFirst(some, side)) == Flatten(levels, BestFirst(all, side))
    decreases all
  {
    hide Flatten, BestFirst, Best, Tag, NoWorse;
    if all == {} {
      assert some == all;
    } else {
      var best := Best(all, side);
      FlattenBest(levels, all, side);
      if best in some {
        BestIsUnique(some, side, best);
        FlattenBest(levels, some, side);
        FlattenCompacts(levels, some - {best}, all - {best}, side);
      } else {
        FlattenCompacts(levels, some, all - {best}, side);
      }
    }
  }

  lemma {:induction false} TakeCrossingStops(keys: seq<nat>, taker: Order)
    ensures var n := |TakeCrossing(keys, taker)|;
            && (n < |keys| ==> !Crosses(taker, keys[n]))
            && forall i | 0 <= i < n :: Crosses(taker, keys[i])
  {
    if keys != [] && Crosses(taker, keys[0]) {
      TakeCrossingStops(keys[1..], taker);
    }
  }

  ghost predicate VisitOrder(keys: seq<nat>, side: Side) {
    forall i, j | 0 <= i < j < |keys| :: keys[i] != keys[j] && NoWorse(side, keys[i], keys[j])
  }

  lemma BeyondNeverCrosses(keys: seq<nat>, taker: Order)
    requires VisitOrder(keys, taker.side)
    ensures forall k | k in keys[|TakeCrossing(keys, taker)|..] :: !Crosses(taker, k)
  {
    var n := |TakeCrossing(keys, taker)|;
    TakeCrossingStops(keys, taker);
    forall i | n <= i < |keys|
      ensures !Crosses(taker, keys[i])
    {
      assert i == n || NoWorse(taker.side, keys[n], keys[i]);
    }
  }

  /** The visited keys are exactly the crossing ones. */
  lemma VisitedKeysCross(levels: Levels, taker: Order)
    ensures forall k :: k in VisitedKeys(levels, taker) <==> k in levels && Crosses(taker, k)
  {
    hide TakeCrossing, Crosses, NoWorse, BestFirst;
    var keys := BestFirst(levels.Keys, taker.side);
    var visited := VisitedKeys(levels, taker);
    TakeCrossingStops(keys, taker);
    BeyondNeverCrosses(keys, taker);
    assert keys == visited + keys[|visited|..];
    assert forall k :: k in keys <==> k in visited || k in keys[|visited|..];
    assert forall i | 0 <= i < |visited| :: visited[i] == keys[i];
  }

  lemma LiveIsSweepable(levels: Levels, taker: Order)
    requires Live(levels)
    ensures Sweepable(levels, levels, VisitedKeys(levels, taker), taker)
  {
    VisitedKeysCross(levels, taker);
    var keys, visited := BestFirst(levels.Keys, taker.side), VisitedKeys(levels, taker);
    assert forall i | 0 <= i < |visited| :: visited[i] == keys[i];
  }

  /** MAIN: matching against a side is the naive matcher on its price-time queue: the same fills with
      the same trade numbers, the same unfilled demand, and the same queue left behind. */
  lemma MatchIsPriceTime(b: Book, taker: Order, stp: bool)
    requires Live(OppositeLevels(b, taker.side))
    ensures var levels := OppositeLevels(b, taker.side);
            var sweep := MatchOpposite(b, taker, stp);
            Allocation(Queue(sweep.levels, taker.side), sweep.left, sweep.fills)
            == Greedy(Queue(levels, taker.side), levels, taker, stp, taker.remaining, b.trades)
  {
    hide Greedy, SweepLevels, Flatten, BestFirst, TakeCrossing;
    var levels := OppositeLevels(b, taker.side);
    var visited := VisitedKeys(levels, taker);
    var rest := BestFirst(levels.Keys, taker.side)[|visited|..];
    var sweep := MatchOpposite(b, taker, stp);
    var want := taker.remaining;
    var near, far := Flatten(levels, visited), Flatten(levels, rest);
    assert taker.(remaining := want) == taker;
    calc {
      Greedy(Queue(levels, taker.side), levels, taker, stp, want, b.trades);
      { QueueBeforeSweep(levels, taker); }
      Greedy(near + far, levels, taker, stp, want, b.trades);
      { GreedyAppend(near, far, levels, taker, stp, want, b.trades);
        LiveIsSweepable(levels, taker);
        SweepIsGreedy(levels, levels, visited, taker, stp, want, b.trades); }
      Then(SweepAllocation(levels, visited, taker, stp, want, b.trades),
           Greedy(far, levels, taker, stp, sweep.left, b.trades + |sweep.fills|));
      { BeyondIsIdle(levels, taker, stp, sweep.left, b.trades + |sweep.fills|); }
      Then(SweepAllocation(levels, visited, taker, stp, want, b.trades), Allocation(far, sweep.left, []));
      { QueueAfterSweep(levels, taker, stp, b.trades); }
      Allocation(Queue(sweep.levels, taker.side), sweep.left, sweep.fills);
    }
  }

  lemma QueueBeforeSweep(levels: Levels, taker: Order)
    ensures var visited := VisitedKeys(levels, taker);
            var rest := BestFirst(levels.Keys, taker.side)[|visited|..];
            Queue(levels, taker.side) == Flatten(levels, visited) + Flatten(levels, rest)
  {
    hide TakeCrossing, BestFirst, Flatten;
    var keys, visited := BestFirst(levels.Keys, taker.side), VisitedKeys(levels, taker);
    assert keys == visited + keys[|visited|..];
    FlattenAppend(levels, visited, keys[|visited|..]);
  }

  lemma BeyondIsIdle(levels: Levels, taker: Order, stp: bool, want: int, id: nat)
    ensures var rest := BestFirst(levels.Keys, taker.side)[|VisitedKeys(levels, taker)|..];
            Greedy(Flatten(levels, rest), levels, taker, stp, want, id) == Allocation(Flatten(levels, rest), want, [])
  {
    var keys := BestFirst(levels.Keys, taker.side);
    var rest := keys[|VisitedKeys(levels, taker)|..];
    BeyondNeverCrosses(keys, taker);
    FlattenKeys(levels, rest);
    GreedyIdle(Flatten(levels, rest), levels, taker, stp, want, id);
  }

  lemma QueueAfterSweep(levels: Levels, taker: Order, stp: bool, id: nat)
    ensures var visited := VisitedKeys(levels, taker);
            var rest := BestFirst(levels.Keys, taker.side)[|visited|..];
            var after := SweepLevels(levels, visited, taker, stp, id).levels;
            Queue(after, taker.side) == Flatten(after, visited) + Flatten(levels, rest)
  {
    hide SweepLevels, TakeCrossing, BestFirst, Flatten;
    var keys, visited := BestFirst(levels.Keys, taker.side), VisitedKeys(levels, taker);
    var rest := keys[|visited|..];
    var after := SweepLevels(levels, visited, taker, stp, id).levels;
    VisitedKeysCross(levels, taker);
    SweepFrame(levels, visited, taker, stp, id);
    assert keys == visited + rest;
    FlattenCompacts(after, after.Keys, levels.Keys, taker.side);
    FlattenAppend(after, visited, rest);
    forall k | k in rest
      ensures SameAt(levels, after, k)
    {
      assert k !in visited;
    }
    FlattenAgrees(levels, after, rest);
  }
}
