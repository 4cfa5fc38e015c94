/** Tick-to-candle aggregation, streaming and batch. A tick is seen here with its bucket already computed;
    TickParser.dfy and CandleAggregator.dfy compute the buckets. */
module Candles {
  import opened Prelude
  import opened RealProducts

  datatype Tick = Tick(bucket: int, price: real, volume: real)

  /** An open or finished candle; `notional` accumulates price times volume. */
  datatype Bar = Bar(
    bucket: int,
    open: real,
    high: real,
    low: real,
    close: real,
    volume: real,
    trades: nat,
    notional: real)

  function Start(t: Tick): Bar {
    Bar(t.bucket, t.price, t.price, t.price, t.price, t.volume, 1, Times(t.price, t.volume))
  }

  function Extend(b: Bar, t: Tick): Bar {
    b.(high := MaxReal(b.high, t.price), low := MinReal(b.low, t.price), close := t.price,
       volume := b.volume + t.volume, trades := b.trades + 1, notional := b.notional + Times(t.price, t.volume))
  }

  /** A stream: the candles emitted so far and the one still open. */
  datatype Stream = Stream(done: seq<Bar>, current: Option<Bar>)

  const IDLE := Stream([], None)

  function Feed(s: Stream, t: Tick): Stream {
    match s.current
    case None => s.(current := Some(Start(t)))
    case Some(b) =>
      if b.bucket == t.bucket then s.(current := Some(Extend(b, t))) else Stream(s.done + [b], Some(Start(t)))
  }

  function FeedAll(s: Stream, ticks: seq<Tick>): Stream {
    if ticks == [] then s else Feed(FeedAll(s, Front(ticks)), Last(ticks))
  }

  function Bars(s: Stream): seq<Bar> {
    if s.current.Some? then s.done + [s.current.value] else s.done
  }

  // ---------------------------------------------------------------- batch group-by

  /** The ticks of one bucket, in arrival order. */
  function Select(ticks: seq<Tick>, bucket: int): seq<Tick> {
    if ticks == [] then []
    else Select(Front(ticks), bucket) + if Last(ticks).bucket == bucket then [Last(ticks)] else []
  }

  function Highest(ticks: seq<Tick>): real
    requires ticks != []
  {
    if |ticks| == 1 then ticks[0].price else MaxReal(Highest(Front(ticks)), Last(ticks).price)
  }

  function Lowest(ticks: seq<Tick>): real
    requires ticks != []
  {
    if |ticks| == 1 then ticks[0].price else MinReal(Lowest(Front(ticks)), Last(ticks).price)
  }

  function Volume(ticks: seq<Tick>): real {
    if ticks == [] then 0.0 else Volume(Front(ticks)) + Last(ticks).volume
  }

  function Notional(ticks: seq<Tick>): real {
    if ticks == [] then 0.0 else Notional(Front(ticks)) + Times(Last(ticks).price, Last(ticks).volume)
  }

  /** First, maximum, minimum, last, sums and count of a nonempty group. */
  function Summary(bucket: int, group: seq<Tick>): Bar
    requires group != []
  {
    Bar(bucket, group[0].price, Highest(group), Lowest(group), Last(group).price, Volume(group), |group|,
        Notional(group))
  }

  lemma SummaryExtends(bucket: int, group: seq<Tick>, t: Tick)
    requires group != []
    ensures Summary(bucket, group + [t]) == Extend(Summary(bucket, group), t)
  {
    assert Front(group + [t]) == group;
    hide Times;
  }

  lemma SummaryStarts(t: Tick)
    ensures Summary(t.bucket, [t]) == Start(t)
  {
    hide Times;
    assert Front([t]) == [];
    assert Volume([t]) == Volume([]) + t.volume && Notional([t]) == Notional([]) + Times(t.price, t.volume);
  }

  ghost predicate InOrder(ticks: seq<Tick>) {
    forall i, j | 0 <= i < j < |ticks| :: ticks[i].bucket <= ticks[j].bucket
  }

  /** These bars are the groups of these ticks: one per bucket that occurs, by rising bucket, each the
      summary of the bucket's ticks. */
  ghost predicate Groups(bars: seq<Bar>, ticks: seq<Tick>) {
    && (forall i, j | 0 <= i < j < |bars| :: bars[i].bucket < bars[j].bucket)
    && (forall i | 0 <= i < |bars| :: Summarizes(bars[i], ticks))
    && Covered(bars, ticks)
  }

  ghost predicate Covered(bars: seq<Bar>, ticks: seq<Tick>) {
    forall i | 0 <= i < |ticks| :: exists j | 0 <= j < |bars| :: bars[j].bucket == ticks[i].bucket
  }

  ghost predicate Summarizes(b: Bar, ticks: seq<Tick>) {
    var group := Select(ticks, b.bucket);
    group != [] && b == Summary(b.bucket, group)
  }

  lemma SelectGrows(ticks: seq<Tick>, t: Tick, bucket: int)
    ensures Select(ticks + [t], bucket) == Select(ticks, bucket) + if t.bucket == bucket then [t] else []
  {
    assert Front(ticks + [t]) == ticks;
  }

  lemma {:induction false} SelectAbsent(ticks: seq<Tick>, bucket: int)
    requires forall i | 0 <= i < |ticks| :: ticks[i].bucket != bucket
    ensures Select(ticks, bucket) == []
  {
    if ticks != [] {
      SelectAbsent(Front(ticks), bucket);
    }
  }

  /** What a stream over ordered ticks keeps. */
  ghost predicate Batched(s: Stream, ticks: seq<Tick>) {
    Groups(Bars(s), ticks) && (s.current.None? ==> ticks == [] && s.done == [])
  }

  lemma OldBarStays(b: Bar, ticks: seq<Tick>, t: Tick)
    requires Summarizes(b, ticks) && t.bucket != b.bucket
    ensures Summarizes(b, ticks + [t])
  {
    SelectGrows(ticks, t, b.bucket);
    assert Select(ticks, b.bucket) + [] == Select(ticks, b.bucket);
    hide Summary, Select;
  }

  lemma LastBarExtends(b: Bar, ticks: seq<Tick>, t: Tick)
    requires Summarizes(b, ticks) && t.bucket == b.bucket
    ensures Summarizes(Extend(b, t), ticks + [t])
  {
    SelectGrows(ticks, t, b.bucket);
    SummaryExtends(b.bucket, Select(ticks, b.bucket), t);
    hide Extend, Summary;
  }

  lemma NewBarStarts(ticks: seq<Tick>, t: Tick)
    requires forall i | 0 <= i < |ticks| :: ticks[i].bucket != t.bucket
    ensures Summarizes(Start(t), ticks + [t])
  {
    SelectGrows(ticks, t, t.bucket);
    SelectAbsent(ticks, t.bucket);
    SummaryStarts(t);
    hide Start, Summary, Select;
    assert [] + [t] == [t];
    StartsBucket(t);
  }

  lemma StartsBucket(t: Tick)
    ensures Start(t).bucket == t.bucket
  {
  }

  lemma SameBucketStep(s: Stream, ticks: seq<Tick>, t: Tick)
    requires Batched(s, ticks) && s.current.Some? && s.current.value.bucket == t.bucket
    ensures Batched(Feed(s, t), ticks + [t])
  {
    hide Groups, Extend;
    ReplaceLast(Bars(s), ticks, t);
    assert Bars(Feed(s, t)) == Bars(s)[|s.done| := Extend(s.current.value, t)];
  }

  lemma ReplaceLast(prior: seq<Bar>, ticks: seq<Tick>, t: Tick)
    requires Groups(prior, ticks) && prior != [] && Last(prior).bucket == t.bucket
    ensures Groups(prior[|prior| - 1 := Extend(Last(prior), t)], ticks + [t])
  {
    var n := |prior| - 1;
    var next := prior[n := Extend(prior[n], t)];
    LastBarExtends(prior[n], ticks, t);
    ExtendKeepsBucket(prior[n], t);
    hide Summarizes, Extend, Covered;
    forall i | 0 <= i < |next|
      ensures Summarizes(next[i], ticks + [t])
    {
      if i < n {
        OldBarStays(prior[i], ticks, t);
      }
    }
    Covers(prior, next, ticks, t, n);
  }

  lemma ExtendKeepsBucket(b: Bar, t: Tick)
    ensures Extend(b, t).bucket == b.bucket
  {
  }

  lemma Covers(prior: seq<Bar>, next: seq<Bar>, ticks: seq<Tick>, t: Tick, k: nat)
    requires |prior| <= |next| && forall i | 0 <= i < |prior| :: next[i].bucket == prior[i].bucket
    requires k < |next| && next[k].bucket == t.bucket
    requires Covered(prior, ticks)
    ensures Covered(next, ticks + [t])
  {
    var all := ticks + [t];
    forall i | 0 <= i < |all|
      ensures exists j | 0 <= j < |next| :: next[j].bucket == all[i].bucket
    {
      if i < |ticks| {
        var j :| 0 <= j < |prior| && prior[j].bucket == ticks[i].bucket;
        assert next[j].bucket == all[i].bucket;
      } else {
        assert next[k].bucket == all[i].bucket;
      }
    }
  }

  lemma {:induction false} SelectedFrom(ticks: seq<Tick>, bucket: int)
    requires Select(ticks, bucket) != []
    ensures exists i | 0 <= i < |ticks| :: ticks[i].bucket == bucket
  {
    if Last(ticks).bucket != bucket {
      SelectedFrom(Front(ticks), bucket);
    }
  }

  lemma NewBucketStep(s: Stream, ticks: seq<Tick>, t: Tick)
    requires Batched(s, ticks) && InOrder(ticks + [t])
    requires s.current.None? || s.current.value.bucket != t.bucket
    ensures Batched(Feed(s, t), ticks + [t])
  {
    hide Groups, Start;
    var prior := Bars(s);
    assert Bars(Feed(s, t)) == prior + [Start(t)];
    NothingBatched(s, ticks);
    forall j | 0 <= j < |prior|
      ensures prior[j].bucket < t.bucket
    {
      BarsPrecede(s, ticks, t, j);
    }
    AppendBar(prior, ticks, t);
  }

  lemma NothingBatched(s: Stream, ticks: seq<Tick>)
    requires Batched(s, ticks)
    ensures s.current.None? ==> Bars(s) == []
    ensures Groups(Bars(s), ticks)
  {
  }

  lemma AppendBar(prior: seq<Bar>, ticks: seq<Tick>, t: Tick)
    requires Groups(prior, ticks) && forall j | 0 <= j < |prior| :: prior[j].bucket < t.bucket
    ensures Groups(prior + [Start(t)], ticks + [t])
  {
    StartsBucket(t);
    BucketIsNew(prior, ticks, t.bucket);
    NewBarStarts(ticks, t);
    hide Summarizes, Start, Covered;
    var next := prior + [Start(t)];
    forall i | 0 <= i < |prior|
      ensures Summarizes(next[i], ticks + [t])
    {
      OldBarStays(prior[i], ticks, t);
    }
    Covers(prior, next, ticks, t, |prior|);
  }

  lemma BucketIsNew(prior: seq<Bar>, ticks: seq<Tick>, bucket: int)
    requires Covered(prior, ticks) && forall j | 0 <= j < |prior| :: prior[j].bucket < bucket
    ensures forall i | 0 <= i < |ticks| :: ticks[i].bucket != bucket
  {
  }

  /** Every existing bar comes before a tick that opens a new bucket. */
  lemma BarsPrecede(s: Stream, ticks: seq<Tick>, t: Tick, j: nat)
    requires Batched(s, ticks) && InOrder(ticks + [t]) && j < |Bars(s)|
    requires s.current.Some? && s.current.value.bucket != t.bucket
    ensures Bars(s)[j].bucket < t.bucket
  {
    var bars := Bars(s);
    var last := |bars| - 1;
    assert Summarizes(bars[last], ticks);
    hide Summary;
    SelectedFrom(ticks, bars[last].bucket);
    var i :| 0 <= i < |ticks| && ticks[i].bucket == bars[last].bucket;
    assert (ticks + [t])[i].bucket <= (ticks + [t])[|ticks|].bucket;
  }

  /** MAIN: streaming ordered ticks gives exactly the batch group-by: the emitted candles and the open one are
      the first, highest, lowest, last, sums and count of each bucket's ticks, one candle per bucket, with
      strictly rising buckets. */
  lemma {:induction false} StreamIsGroupBy(ticks: seq<Tick>)
    requires InOrder(ticks)
    ensures Groups(Bars(FeedAll(IDLE, ticks)), ticks)
    ensures Batched(FeedAll(IDLE, ticks), ticks)
  {
    if ticks != [] {
      var before, t := Front(ticks), Last(ticks);
      assert ticks == before + [t];
      StreamIsGroupBy(before);
      var s := FeedAll(IDLE, before);
      hide Batched, FeedAll, Feed, Groups;
      StreamStep(ticks);
      if s.current.Some? && s.current.value.bucket == t.bucket {
        SameBucketStep(s, before, t);
      } else {
        NewBucketStep(s, before, t);
      }
      BatchedGroups(FeedAll(IDLE, ticks), ticks);
    }
  }

  lemma StreamStep(ticks: seq<Tick>)
    requires ticks != []
    ensures FeedAll(IDLE, ticks) == Feed(FeedAll(IDLE, Front(ticks)), Last(ticks))
  {
  }

  lemma BatchedGroups(s: Stream, ticks: seq<Tick>)
    requires Batched(s, ticks)
    ensures Groups(Bars(s), ticks)
  {
  }

  // ---------------------------------------------------------------- any order

  function TotalVolume(bars: seq<Bar>): real {
    if bars == [] then 0.0 else TotalVolume(Front(bars)) + Last(bars).volume
  }

  function TotalTrades(bars: seq<Bar>): nat {
    if bars == [] then 0 else TotalTrades(Front(bars)) + Last(bars).trades
  }

  predicate PricesOrdered(b: Bar) {
    b.low <= b.open <= b.high && b.low <= b.close <= b.high
  }

  /** A candle's prices are ordered, and while volumes are non-negative so is its volume-weighted price. */
  ghost predicate WellShaped(b: Bar) {
    && PricesOrdered(b)
    && b.volume >= 0.0 && Times(b.low, b.volume) <= b.notional <= Times(b.high, b.volume)
  }

  function Vwap(b: Bar): real {
    if b.volume > 0.0 then b.notional / b.volume else 0.0
  }

  lemma ExtendWellShaped(b: Bar, t: Tick)
    requires WellShaped(b) && t.volume >= 0.0
    ensures WellShaped(Extend(b, t))
  {
    var high, low := MaxReal(b.high, t.price), MinReal(b.low, t.price);
    TimesAdds(high, b.volume, t.volume);
    TimesAdds(low, b.volume, t.volume);
    TimesMonotone(b.high, high, b.volume);
    TimesMonotone(t.price, high, t.volume);
    TimesMonotone(low, b.low, b.volume);
    TimesMonotone(low, t.price, t.volume);
    hide Times;
  }

  /** The volume-weighted price of a well-shaped candle with volume lies in its range. */
  lemma VwapInRange(b: Bar)
    requires WellShaped(b) && b.volume > 0.0
    ensures b.low <= Vwap(b) <= b.high
  {
    Quotient(b.notional, b.volume, b.low, b.high);
  }

  /** The volume-weighted price times the volume is what was paid; a candle without volume has price zero. */
  lemma VwapPaysNotional(b: Bar)
    ensures if b.volume > 0.0 then Times(Vwap(b), b.volume) == b.notional else Vwap(b) == 0.0
  {
  }

  lemma Quotient(x: real, n: real, low: real, high: real)
    requires n > 0.0 && Times(low, n) <= x <= Times(high, n)
    ensures low <= x / n <= high
  {
    var q := x / n;
    assert x == Times(q, n);
    TimesReflects(low, q, n);
    TimesReflects(q, high, n);
  }

  lemma TotalsAppend(bars: seq<Bar>, b: Bar)
    ensures TotalVolume(bars + [b]) == TotalVolume(bars) + b.volume
    ensures TotalTrades(bars + [b]) == TotalTrades(bars) + b.trades
  {
    assert Front(bars + [b]) == bars;
  }

  /** MAIN: in whatever order ticks arrive, no volume and no trade is lost or counted twice. */
  lemma {:induction false} StreamConserves(ticks: seq<Tick>)
    ensures TotalVolume(Bars(FeedAll(IDLE, ticks))) == Volume(ticks)
    ensures TotalTrades(Bars(FeedAll(IDLE, ticks))) == |ticks|
  {
    if ticks == [] {
      assert Bars(IDLE) == [];
    } else {
      var before, t := Front(ticks), Last(ticks);
      StreamConserves(before);
      StreamStep(ticks);
      var s := FeedAll(IDLE, before);
      hide FeedAll, Times, TotalVolume, TotalTrades;
      FeedConserves(s, t);
    }
  }

  lemma FeedConserves(s: Stream, t: Tick)
    ensures TotalVolume(Bars(Feed(s, t))) == TotalVolume(Bars(s)) + t.volume
    ensures TotalTrades(Bars(Feed(s, t))) == TotalTrades(Bars(s)) + 1
  {
    hide Times, TotalVolume, TotalTrades;
    if s.current.Some? && s.current.value.bucket == t.bucket {
      TotalsAppend(s.done, s.current.value);
      TotalsAppend(s.done, Extend(s.current.value, t));
    } else {
      assert Bars(Feed(s, t)) == Bars(s) + [Start(t)];
      TotalsAppend(Bars(s), Start(t));
    }
  }

  /** MAIN: in whatever order ticks arrive and whatever their volumes, every candle, emitted or open, has its open and
      close between its low and high. */
  lemma {:induction false} BarsOrdered(ticks: seq<Tick>)
    ensures forall i | 0 <= i < |Bars(FeedAll(IDLE, ticks))| :: PricesOrdered(Bars(FeedAll(IDLE, ticks))[i])
  {
    if ticks == [] {
      assert Bars(IDLE) == [];
    } else {
      var before, t := Front(ticks), Last(ticks);
      BarsOrdered(before);
      StreamStep(ticks);
      var s := FeedAll(IDLE, before);
      hide FeedAll, Start, Extend, PricesOrdered;
      StartOrdered(t);
      if s.current.Some? {
        assert Bars(s)[|s.done|] == s.current.value;
        ExtendOrdered(s.current.value, t);
      }
      assert forall i | 0 <= i < |s.done| :: Bars(s)[i] == s.done[i];
    }
  }

  lemma StartOrdered(t: Tick)
    ensures PricesOrdered(Start(t))
  {
    hide Times;
  }

  lemma ExtendOrdered(b: Bar, t: Tick)
    requires PricesOrdered(b)
    ensures PricesOrdered(Extend(b, t))
  {
    hide Times;
  }

  /** MAIN: in whatever order ticks arrive, while volumes are non-negative the notional of every candle, emitted or
      open, lies between its low and its high times its volume as well. */
  lemma {:induction false} BarsWellShaped(ticks: seq<Tick>)
    requires forall i | 0 <= i < |ticks| :: ticks[i].volume >= 0.0
    ensures forall i | 0 <= i < |Bars(FeedAll(IDLE, ticks))| :: WellShaped(Bars(FeedAll(IDLE, ticks))[i])
  {
    if ticks == [] {
      assert Bars(IDLE) == [];
    } else {
      var before, t := Front(ticks), Last(ticks);
      BarsWellShaped(before);
      StreamStep(ticks);
      var s := FeedAll(IDLE, before);
      hide FeedAll, Start, Extend, WellShaped;
      StartWellShaped(t);
      if s.current.Some? {
        assert Bars(s)[|s.done|] == s.current.value;
        ExtendWellShaped(s.current.value, t);
      }
      assert forall i | 0 <= i < |s.done| :: Bars(s)[i] == s.done[i];
    }
  }

  lemma StartWellShaped(t: Tick)
    requires t.volume >= 0.0
    ensures WellShaped(Start(t))
  {
    hide Times;
  }

  // ---------------------------------------------------------------- feeding in pieces

  lemma {:induction false} FeedAllAppend(s: Stream, a: seq<Tick>, b: seq<Tick>)
    ensures FeedAll(s, a + b) == FeedAll(FeedAll(s, a), b)
  {
    hide Feed;
    if b == [] {
      assert a + b == a;
    } else {
      assert Front(a + b) == a + Front(b);
      FeedAllAppend(s, a, Front(b));
    }
  }
}
