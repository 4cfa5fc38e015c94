/** What a taker gets, position by position: the closed form of the price-time allocation, and what
    every reported fill satisfies. */
module MatchFills {
  import opened Prelude
  import opened OrderMatcher
  import opened PriceTimePriority

  /** Eligible lots that stand before position `n` of the queue. */
  function Ahead(q: seq<Resting>, levels: Levels, taker: Order, stp: bool, n: nat): int
    requires n <= |q|
  {
    if n == 0 then 0
    else
      var lots := if Eligible(levels, taker, stp, q[n - 1]) then q[n - 1].order.remaining else 0;
      Ahead(q, levels, taker, stp, n - 1) + lots
  }

  /** The lots position `i` owes a demand of `want`: what the eligible orders ahead leave of it. */
  function Share(q: seq<Resting>, levels: Levels, taker: Order, stp: bool, want: int, i: nat): int
    requires i < |q|
  {
    if !Eligible(levels, taker, stp, q[i]) then 0
    else Max(0, Min(q[i].order.remaining, want - Ahead(q, levels, taker, stp, i)))
  }

  function FillsBefore(q: seq<Resting>, levels: Levels, taker: Order, stp: bool, want: int, id: nat, n: nat): seq<Fill>
    requires n <= |q|
  {
    if n == 0 then []
    else
      var fills := FillsBefore(q, levels, taker, stp, want, id, n - 1);
      var share := Share(q, levels, taker, stp, want, n - 1);
      if share > 0 then fills + [FillOf(q[n - 1].order, taker, q[n - 1].key, share, id + |fills|)] else fills
  }

  function SurvivorsBefore(q: seq<Resting>, levels: Levels, taker: Order, stp: bool, want: int, n: nat): seq<Resting>
    requires n <= |q|
  {
    if n == 0 then []
    else
      var share := Share(q, levels, taker, stp, want, n - 1);
      SurvivorsBefore(q, levels, taker, stp, want, n - 1) + Reduced(q[n - 1], share)
  }

  function Unfilled(want: int, supply: int): int {
    if want <= 0 then want else Max(0, want - supply)
  }

  function AllocatedBefore(q: seq<Resting>, levels: Levels, taker: Order, stp: bool, want: int, id: nat, n: nat)
    : Allocation
    requires n <= |q|
  {
    Allocation(SurvivorsBefore(q, levels, taker, stp, want, n),
               Unfilled(want, Ahead(q, levels, taker, stp, n)),
               FillsBefore(q, levels, taker, stp, want, id, n))
  }

  lemma {:induction false} AheadGrows(q: seq<Resting>, levels: Levels, taker: Order, stp: bool, n: nat)
    requires n <= |q| && forall r | r in q :: r.order.remaining > 0
    ensures Ahead(q, levels, taker, stp, n) >= 0
  {
    if n > 0 {
      assert q[n - 1] in q;
      AheadGrows(q, levels, taker, stp, n - 1);
    }
  }

  lemma HeadTakesItsShare(q: seq<Resting>, levels: Levels, taker: Order, stp: bool, want: int, id: nat, n: nat)
    requires n < |q| && forall r | r in q :: r.order.remaining > 0
    ensures var before := AllocatedBefore(q, levels, taker, stp, want, id, n);
            AllocatedBefore(q, levels, taker, stp, want, id, n + 1)
            == Then(before, GreedyHead(q[n], levels, taker, stp, before.left, id + |before.fills|))
  {
    AheadGrows(q, levels, taker, stp, n);
    assert q[n] in q;
    var share := Share(q, levels, taker, stp, want, n);
    if share <= 0 {
      assert Reduced(q[n], share) == [q[n]];
    }
    var fills := FillsBefore(q, levels, taker, stp, want, id, n);
    assert fills + [] == fills;
  }

  lemma NothingGiven(q: seq<Resting>, levels: Levels, taker: Order, stp: bool, want: int, id: nat)
    ensures AllocatedBefore(q, levels, taker, stp, want, id, 0) == Allocation([], want, [])
    ensures Greedy(q, levels, taker, stp, want, id)
         == Then(Allocation([], want, []), Greedy(q[0..], levels, taker, stp, want, id))
  {
    assert q[0..] == q;
    ThenUnit(Greedy(q, levels, taker, stp, want, id));
  }

  /** MAIN: the naive matcher gives every queue position exactly its share of the demand. */
  lemma {:induction false} GreedyGivesShares(q: seq<Resting>, levels: Levels, taker: Order, stp: bool, want: int,
                                             id: nat, n: nat)
    requires n <= |q| && forall r | r in q :: r.order.remaining > 0
    ensures var before := AllocatedBefore(q, levels, taker, stp, want, id, n);
            Greedy(q, levels, taker, stp, want, id)
            == Then(before, Greedy(q[n..], levels, taker, stp, before.left, id + |before.fills|))
    decreases n
  {
    hide GreedyHead, FillsBefore, SurvivorsBefore, Ahead, Share;
    if n == 0 {
      NothingGiven(q, levels, taker, stp, want, id);
    } else {
      var m := n - 1;
      var before := AllocatedBefore(q, levels, taker, stp, want, id, m);
      var head := GreedyHead(q[m], levels, taker, stp, before.left, id + |before.fills|);
      GreedyGivesShares(q, levels, taker, stp, want, id, m);
      HeadTakesItsShare(q, levels, taker, stp, want, id, m);
      assert q[m..][0] == q[m] && q[m..][1..] == q[n..];
      ThenAssociates(before, head, Greedy(q[n..], levels, taker, stp, head.left, id + |before.fills| + |head.fills|));
    }
  }

  lemma LiveQueue(levels: Levels, side: Side)
    requires Live(levels)
    ensures forall r | r in Queue(levels, side) :: r.order.remaining > 0
  {
    FlattenKeys(levels, BestFirst(levels.Keys, side));
  }

  /** Lots the taker may trade with at all. */
  function Liquidity(levels: Levels, taker: Order, stp: bool): int {
    var q := Queue(levels, taker.side);
    Ahead(q, levels, taker, stp, |q|)
  }

  /** MAIN: the engine gives each resting order its share by price, then time: the order at position
      `i` loses exactly what the eligible orders ahead of it leave of the demand. */
  lemma MatchGivesShares(b: Book, taker: Order, stp: bool)
    requires Live(OppositeLevels(b, taker.side))
    ensures var levels := OppositeLevels(b, taker.side);
            var q := Queue(levels, taker.side);
            var sweep := MatchOpposite(b, taker, stp);
            && sweep.fills == FillsBefore(q, levels, taker, stp, taker.remaining, b.trades, |q|)
            && Queue(sweep.levels, taker.side) == SurvivorsBefore(q, levels, taker, stp, taker.remaining, |q|)
            && sweep.left == Unfilled(taker.remaining, Liquidity(levels, taker, stp))
  {
    var levels := OppositeLevels(b, taker.side);
    var q := Queue(levels, taker.side);
    LiveQueue(levels, taker.side);
    MatchIsPriceTime(b, taker, stp);
    GreedyGivesShares(q, levels, taker, stp, taker.remaining, b.trades, |q|);
    var all := AllocatedBefore(q, levels, taker, stp, taker.remaining, b.trades, |q|);
    assert q[|q|..] == [];
    assert all.queue + [] == all.queue && all.fills + [] == all.fills;
  }

  // ---------------------------------------------------------------- every fill

  /** A fill is with a resting order of the untouched side, at that order's own price, allowed by the
      limit, and never between two orders of one user while prevention is on. */
  predicate Fair(f: Fill, levels: Levels, taker: Order, stp: bool) {
    && f.takerId == taker.id && f.takerUser == taker.userId && f.side == taker.side
    && f.priceKey in levels && Crosses(taker, f.priceKey)
    && (stp ==> f.makerUser != f.takerUser)
    && exists o | o in levels[f.priceKey] ::
         f.makerId == o.id && f.makerUser == o.userId && 0 < f.quantity <= o.remaining
  }

  lemma {:induction false} FillsBeforeAreFair(q: seq<Resting>, levels: Levels, taker: Order, stp: bool, want: int,
                                              id: nat, n: nat)
    requires n <= |q| && forall r | r in q :: r.key in levels && r.order in levels[r.key]
    ensures forall f | f in FillsBefore(q, levels, taker, stp, want, id, n) :: Fair(f, levels, taker, stp)
    ensures forall i | 0 <= i < |FillsBefore(q, levels, taker, stp, want, id, n)| ::
              FillsBefore(q, levels, taker, stp, want, id, n)[i].tradeId == id + i
  {
    if n > 0 {
      FillsBeforeAreFair(q, levels, taker, stp, want, id, n - 1);
      assert q[n - 1] in q;
    }
  }

  lemma {:induction false} FillsBeforeSum(q: seq<Resting>, levels: Levels, taker: Order, stp: bool, want: int,
                                          id: nat, n: nat)
    requires n <= |q| && forall r | r in q :: r.order.remaining > 0
    ensures SumQuantity(FillsBefore(q, levels, taker, stp, want, id, n))
         == want - Unfilled(want, Ahead(q, levels, taker, stp, n))
  {
    if n > 0 {
      FillsBeforeSum(q, levels, taker, stp, want, id, n - 1);
      AheadGrows(q, levels, taker, stp, n - 1);
      assert q[n - 1] in q;
      hide Eligible, FillOf;
      var share := Share(q, levels, taker, stp, want, n - 1);
      var fills := FillsBefore(q, levels, taker, stp, want, id, n - 1);
      if share > 0 {
        var fill := FillOf(q[n - 1].order, taker, q[n - 1].key, share, id + |fills|);
        assert Front(fills + [fill]) == fills;
        assert SumQuantity(fills + [fill]) == SumQuantity(fills) + share;
      }
    }
  }

  /** MAIN: every fill of a match is fair, trade numbers run on from the counter, and the filled lots
      and the unfilled remainder add up to the demand. */
  lemma FillsAreFair(b: Book, taker: Order, stp: bool)
    requires Live(OppositeLevels(b, taker.side))
    ensures var sweep := MatchOpposite(b, taker, stp);
            && (forall f | f in sweep.fills :: Fair(f, OppositeLevels(b, taker.side), taker, stp))
            && (forall i | 0 <= i < |sweep.fills| :: sweep.fills[i].tradeId == b.trades + i)
            && SumQuantity(sweep.fills) + sweep.left == taker.remaining
  {
    var levels := OppositeLevels(b, taker.side);
    var q := Queue(levels, taker.side);
    MatchGivesShares(b, taker, stp);
    LiveQueue(levels, taker.side);
    FlattenKeys(levels, BestFirst(levels.Keys, taker.side));
    FillsBeforeAreFair(q, levels, taker, stp, taker.remaining, b.trades, |q|);
    FillsBeforeSum(q, levels, taker, stp, taker.remaining, b.trades, |q|);
  }

  // ---------------------------------------------------------------- the limit in price terms

  /** A buyer never pays more than a non-negative limit, and only such a limit protects it: a negative
      one is cast to key zero and still crosses there. */
  lemma BuyLimitHolds(taker: Order)
    requires HasLimit(taker) && taker.side.Buy?
    ensures (forall key: nat | Crosses(taker, key) :: PriceOf(key) <= taker.price) <==> taker.price >= 0.0
  {
    var limit := KeyOf(taker.price);
    assert Crosses(taker, 0) && PriceOf(0) == 0.0;
    if taker.price >= 0.0 {
      assert limit as real <= taker.price * PRICE_SCALE;
    }
  }

  predicate OnTickGrid(price: real) {
    var scaled := price * PRICE_SCALE;
    scaled <= MAX_PRICE_KEY as real && scaled == scaled.Floor as real
  }

  /** The key cast truncates, so a seller is protected only by a limit that is on the tick grid (or not
      positive); otherwise it can be filled a fraction of a tick below its limit. */
  lemma SellLimitHolds(taker: Order)
    requires HasLimit(taker) && taker.side.Sell?
    ensures (forall key: nat | Crosses(taker, key) :: PriceOf(key) >= taker.price)
       <==> taker.price <= 0.0 || OnTickGrid(taker.price)
    ensures taker.price * PRICE_SCALE <= MAX_PRICE_KEY as real ==>
              forall key: nat | Crosses(taker, key) :: PriceOf(key) > taker.price - 1.0 / PRICE_SCALE
  {
    var scaled := taker.price * PRICE_SCALE;
    var limit := KeyOf(taker.price);
    assert Crosses(taker, limit);
    if taker.price > 0.0 && PriceOf(limit) >= taker.price {
      assert limit as real == scaled;
    }
  }
}
