/** What the loss breaker and the cooldown hold back over whole runs of the risk manager. */
module RiskHalts {
  import opened Prelude
  import opened RealProducts
  import opened Positions
  import opened RiskDesk
  import opened RiskLedger
  import opened RiskApproval
  import VR = ValueAtRisk

  // ---------------------------------------------------------------- a halt

  /** The same position, perhaps marked and managed since. */
  predicate Continues(p: Position, q: Position) {
    && p.exchange == q.exchange && p.symbol == q.symbol && p.isLong == q.isLong
    && p.size == q.size && p.entryPrice == q.entryPrice && p.openTime == q.openTime
  }

  ghost predicate AllContinue(ps: seq<Position>, qs: seq<Position>) {
    forall p | p in ps :: exists q :: q in qs && Continues(p, q)
  }

  /** What may happen between a trip and the end of its pause, or its reset: clocks do not run backwards. */
  predicate DuringHalt(limits: LossLimits, tripTime: int, e: Event) {
    match e
    case Trade(_, now, _) => limits.pauseSeconds <= 0 || now < tripTime + limits.pauseSeconds
    case Close(_, _, _, now) => now >= tripTime
    case KillAll(now) => now >= tripTime
    case ResetBreaker => false
    case _ => true
  }

  predicate TrippedSince(b: LossBreaker, tripTime: int) {
    b.tripped && b.tripTime >= tripTime
  }

  lemma CloseStaysTripped(d: Desk, cfg: Config, exchange: string, symbol: string, price: real, now: int, since: int)
    requires Priced(d.positions) && TrippedSince(d.breaker, since) && now >= since
    ensures TrippedSince(ClosePosition(d, cfg, exchange, symbol, price, now).0.breaker, since)
  {
    hide Drawdown, UpdatePrice, VR.RecordReturn, Find;
  }

  lemma {:induction false} CloseAllStaysTripped(d: Desk, cfg: Config, targets: seq<Position>, now: int, since: int)
    requires Priced(d.positions) && TrippedSince(d.breaker, since) && now >= since
    ensures TrippedSince(CloseAll(d, cfg, targets, now).0.breaker, since)
    decreases |targets|
  {
    if targets != [] {
      var t := targets[0];
      CloseStaysTripped(d, cfg, t.exchange, t.symbol, t.currentPrice, now, since);
      hide ClosePosition, TrippedSince;
      CloseAllStaysTripped(ClosePosition(d, cfg, t.exchange, t.symbol, t.currentPrice, now).0, cfg, targets[1..],
                           now, since);
    }
  }

  lemma SomeContinue(left: seq<Position>, ps: seq<Position>)
    requires forall p | p in left :: p in ps
    ensures AllContinue(left, ps)
  {
    assert forall p: Position :: Continues(p, p);
    hide Continues;
  }

  lemma ReplacedContinues(ps: seq<Position>, i: nat, q: Position)
    requires i < |ps| && Continues(q, ps[i])
    ensures AllContinue(ps[i := q], ps)
  {
    var after := ps[i := q];
    forall p | p in after
      ensures exists r :: r in ps && Continues(p, r)
    {
      var j :| 0 <= j < |ps| && after[j] == p;
      assert ps[j] in ps && Continues(p, ps[j]);
    }
  }

  lemma CloseContinues(d: Desk, cfg: Config, exchange: string, symbol: string, price: real, now: int)
    requires Kept(d, cfg)
    ensures Priced(d.positions)
    ensures var (after, closed) := ClosePosition(d, cfg, exchange, symbol, price, now);
            && AllContinue(after.positions, d.positions)
            && |after.positions| + (if closed.Some? then 1 else 0) == |d.positions|
  {
    KeptIsPriced(d, cfg);
    hide UpdatePrice, VR.RecordReturn, RecordPnl, Find, Continues, AllContinue;
    SomeContinue(ClosePosition(d, cfg, exchange, symbol, price, now).0.positions, d.positions);
  }

  lemma UpdateContinues(p: Position, price: real)
    requires p.entryPrice != 0.0
    ensures Continues(UpdatePrice(p, price), p)
  {
    hide Times, ReturnAt;
  }

  lemma ManageContinues(p: Position, rules: StopRules, held: int)
    ensures Continues(Manage(p, rules, held).0, p)
  {
    hide Times, ProfitInAtr;
  }

  lemma TickContinues(p: Position, rules: StopRules, price: real, held: int)
    requires p.entryPrice != 0.0
    ensures Continues(Tick(p, rules, price, held).0, p)
  {
    UpdateContinues(p, price);
    ManageContinues(UpdatePrice(p, price), rules, held);
    hide UpdatePrice, Manage;
  }

  lemma MarkContinues(d: Desk, cfg: Config, exchange: string, symbol: string, price: real, held: int)
    requires Kept(d, cfg)
    ensures Priced(d.positions)
    ensures var after := MarkAt(d, cfg, exchange, symbol, price, held).0;
            && AllContinue(after.positions, d.positions) && |after.positions| == |d.positions|
            && after.breaker == d.breaker
  {
    KeptIsPriced(d, cfg);
    var i := Find(d.positions, exchange, symbol);
    if i < |d.positions| {
      assert d.positions[i] in d.positions;
      TickContinues(d.positions[i], cfg.rules, price, held);
      ReplacedContinues(d.positions, i, Tick(d.positions[i], cfg.rules, price, held).0);
    } else {
      SomeContinue(d.positions, d.positions);
    }
    hide Tick, Find, Continues, AllContinue;
  }

  lemma {:induction false} FlattenedLength(ps: seq<Position>)
    requires forall p | p in ps :: p.entryPrice > 0.0
    ensures |Flattened(ps)| == |ps|
  {
    hide UpdatePrice;
    if ps != [] {
      FlattenedLength(ps[1..]);
    }
  }

  lemma KillContinues(b: Book, cfg: Config, now: int, since: int)
    requires Kept(b.desk, cfg) && TrippedSince(b.desk.breaker, since) && now >= since
    ensures Priced(b.desk.positions)
    ensures var after := Next(b, cfg, KillAll(now));
            && TrippedSince(after.desk.breaker, since) && after.desk.positions == []
            && |after.closed| == |b.closed| + |b.desk.positions|
  {
    KillSwitchWorks(b.desk, cfg, now);
    CloseAllStaysTripped(b.desk.(killed := true), cfg, b.desk.positions, now, since);
    FlattenedLength(b.desk.positions);
    hide CloseAll, Flattened, Kept;
  }

  lemma HaltedStep(b: Book, cfg: Config, e: Event, since: int)
    requires Kept(b.desk, cfg) && TrippedSince(b.desk.breaker, since) && DuringHalt(cfg.losses, since, e) && Proper(e)
    ensures Priced(b.desk.positions)
    ensures var after := Next(b, cfg, e);
            && TrippedSince(after.desk.breaker, since)
            && AllContinue(after.desk.positions, b.desk.positions)
            && |after.desk.positions| + |after.closed| == |b.desk.positions| + |b.closed|
  {
    KeptIsPriced(b.desk, cfg);
    hide Approve, ClosePosition, MarkAt, Kill, OpenPosition, Kept;
    assert AllContinue(b.desk.positions, b.desk.positions);
    match e
    case Trade(s, now, minute) => HaltedRefuses(b.desk, cfg, s, now, minute);
    case Price(exchange, symbol, price, held) => MarkContinues(b.desk, cfg, exchange, symbol, price, held);
    case Close(exchange, symbol, price, now) =>
      CloseStaysTripped(b.desk, cfg, exchange, symbol, price, now, since);
      CloseContinues(b.desk, cfg, exchange, symbol, price, now);
    case KillAll(now) => KillContinues(b, cfg, now, since);
    case _ =>
  }

  lemma ContinueTransitive(ps: seq<Position>, qs: seq<Position>, rs: seq<Position>)
    requires AllContinue(ps, qs) && AllContinue(qs, rs)
    ensures AllContinue(ps, rs)
  {
    forall p | p in ps
      ensures exists r :: r in rs && Continues(p, r)
    {
      var q :| q in qs && Continues(p, q);
      var r :| r in rs && Continues(q, r);
      assert Continues(p, r);
    }
  }

  /** MAIN: over every run, from a trip of the loss breaker until its pause runs out or it is reset, no position opens:
      each one held was held at the trip, the others have been closed, and every signal is refused. */
  lemma {:induction false} NothingOpensWhileHalted(cfg: Config, initial: real, events: seq<Event>, more: seq<Event>)
    requires forall e | e in events + more :: Proper(e)
    requires forall e | e in events :: Proper(e)
    requires Run(cfg, initial, events).desk.breaker.tripped
    requires forall e | e in more :: DuringHalt(cfg.losses, Run(cfg, initial, events).desk.breaker.tripTime, e)
    ensures var before, after := Run(cfg, initial, events), Run(cfg, initial, events + more);
            var since, limits := before.desk.breaker.tripTime, cfg.losses;
            && TrippedSince(after.desk.breaker, since)
            && AllContinue(after.desk.positions, before.desk.positions)
            && |after.desk.positions| + |after.closed| == |before.desk.positions| + |before.closed|
            && forall s: Signal, now: int, minute: int
                 | limits.pauseSeconds <= 0 || now < since + limits.pauseSeconds ::
                 Approve(after.desk, cfg, s, now, minute).1.Refused?
    decreases |more|
  {
    hide Kept, Balanced, Next, Continues, DuringHalt, Proper, Approve;
    var since := Run(cfg, initial, events).desk.breaker.tripTime;
    if more == [] {
      assert events + more == events;
      ContinueItself(Run(cfg, initial, events).desk.positions);
    } else {
      var all, e := events + more, Last(more);
      assert Front(all) == events + Front(more) && Last(all) == e;
      assert e in all && forall f | f in Front(more) :: f in more && f in all;
      assert forall f | f in Front(all) :: f in all;
      NothingOpensWhileHalted(cfg, initial, events, Front(more));
      var b := Run(cfg, initial, Front(all));
      HaltedStep(b, cfg, e, since);
      ContinueTransitive(Next(b, cfg, e).desk.positions, b.desk.positions, Run(cfg, initial, events).desk.positions);
    }
    HaltedRefusesAll(Run(cfg, initial, events + more).desk, cfg, since);
  }

  lemma ContinueItself(ps: seq<Position>)
    ensures AllContinue(ps, ps)
  {
  }

  lemma HaltedRefusesAll(d: Desk, cfg: Config, since: int)
    requires TrippedSince(d.breaker, since)
    ensures forall s: Signal, now: int, minute: int
              | cfg.losses.pauseSeconds <= 0 || now < since + cfg.losses.pauseSeconds ::
              Approve(d, cfg, s, now, minute).1.Refused?
  {
    forall s: Signal, now: int, minute: int | cfg.losses.pauseSeconds <= 0 || now < since + cfg.losses.pauseSeconds
      ensures Approve(d, cfg, s, now, minute).1.Refused?
    {
      HaltedRefuses(d, cfg, s, now, minute);
    }
  }

  // ---------------------------------------------------------------- the cooldown

  ghost predicate Holds(ps: seq<Position>, exchange: string, symbol: string) {
    exists p | p in ps :: IsFor(p, exchange, symbol)
  }

  ghost predicate HasSymbol(ps: seq<Position>, symbol: string) {
    exists p | p in ps :: p.symbol == symbol
  }

  lemma HasSymbolHead(ps: seq<Position>, symbol: string)
    requires ps != []
    ensures HasSymbol(ps, symbol) <==> ps[0].symbol == symbol || HasSymbol(ps[1..], symbol)
  {
    assert ps[0] in ps && forall p :: p in ps <==> p == ps[0] || p in ps[1..];
  }

  /** The event opens or closes a position in the symbol. */
  ghost predicate Touches(d: Desk, cfg: Config, e: Event, symbol: string) {
    match e
    case Trade(s, now, minute) => s.symbol == symbol && Approve(d, cfg, s, now, minute).1.Approved?
    case Close(exchange, closing, _, _) => closing == symbol && Holds(d.positions, exchange, symbol)
    case KillAll(_) => HasSymbol(d.positions, symbol)
    case _ => false
  }

  predicate Timed(e: Event) {
    e.Trade? || e.Close? || e.KillAll?
  }

  function TimeOf(e: Event): int {
    if Timed(e) then e.now else 0
  }

  lemma CloseTouches(d: Desk, cfg: Config, exchange: string, symbol: string, price: real, now: int)
    requires Priced(d.positions)
    ensures ClosePosition(d, cfg, exchange, symbol, price, now).0.lastTrade
         == if Holds(d.positions, exchange, symbol) then d.lastTrade[symbol := now] else d.lastTrade
  {
    hide UpdatePrice, VR.RecordReturn, RecordPnl;
    var i := Find(d.positions, exchange, symbol);
    if i < |d.positions| {
      assert d.positions[i] in d.positions;
    }
  }

  lemma HoldsHead(ps: seq<Position>)
    requires ps != []
    ensures Holds(ps, ps[0].exchange, ps[0].symbol)
  {
    assert ps[0] in ps;
  }

  /** Closing a position of its own table, as the kill switch does one by one. */
  lemma {:induction false} CloseAllTouches(d: Desk, cfg: Config, now: int, symbol: string)
    requires Kept(d, cfg)
    ensures Priced(d.positions)
    ensures var after := CloseAll(d, cfg, d.positions, now).0.lastTrade;
            if HasSymbol(d.positions, symbol) then symbol in after && after[symbol] == now
            else (symbol in after <==> symbol in d.lastTrade)
                 && (symbol in after ==> after[symbol] == d.lastTrade[symbol])
    decreases |d.positions|
  {
    KeptIsPriced(d, cfg);
    if d.positions != [] {
      var p := d.positions[0];
      CloseHead(d, cfg, now);
      CloseTouches(d, cfg, p.exchange, p.symbol, p.currentPrice, now);
      var next := ClosePosition(d, cfg, p.exchange, p.symbol, p.currentPrice, now).0;
      HoldsHead(d.positions);
      HasSymbolHead(d.positions, symbol);
      hide ClosePosition, Kept, UpdatePrice, HasSymbol, Holds;
      CloseAllTouches(next, cfg, now, symbol);
    }
  }

  /** A step stamps the symbols that it touches, with its own time, and no others. */
  lemma StepTouches(b: Book, cfg: Config, e: Event, symbol: string)
    requires Kept(b.desk, cfg) && Proper(e)
    ensures Priced(b.desk.positions)
    ensures var before, after := b.desk.lastTrade, Next(b, cfg, e).desk.lastTrade;
            if Touches(b.desk, cfg, e, symbol) then symbol in after && after[symbol] == TimeOf(e)
            else (symbol in after <==> symbol in before) && (symbol in after ==> after[symbol] == before[symbol])
  {
    KeptIsPriced(b.desk, cfg);
    hide Judge, ClosePosition, CloseAll, Tick, Find, PositionOf, Kept;
    match e
    case Close(exchange, closing, price, now) => CloseTouches(b.desk, cfg, exchange, closing, price, now);
    case KillAll(now) => CloseAllTouches(b.desk.(killed := true), cfg, now, symbol);
    case _ =>
  }

  predicate NotBefore(e: Event, time: int) {
    Timed(e) ==> TimeOf(e) >= time
  }

  lemma {:induction false} TouchedSince(cfg: Config, initial: real, events: seq<Event>, e: Event, more: seq<Event>,
                                        symbol: string)
    requires (forall f | f in events + [e] + more :: Proper(f)) && forall f | f in more :: NotBefore(f, TimeOf(e))
    requires (forall f | f in events :: Proper(f)) && Touches(Run(cfg, initial, events).desk, cfg, e, symbol)
    ensures var times := Run(cfg, initial, events + [e] + more).desk.lastTrade;
            symbol in times && times[symbol] >= TimeOf(e)
    decreases |more|
  {
    var all := events + [e] + more;
    hide Kept, Balanced, Next, Proper, Touches;
    if more == [] {
      assert Front(all) == events && Last(all) == e;
      assert e in all;
      StepTouches(Run(cfg, initial, events), cfg, e, symbol);
    } else {
      assert Last(more) in more && forall f | f in Front(more) :: f in more;
      assert Last(more) in all && forall f | f in events + [e] + Front(more) :: f in all;
      TouchedSince(cfg, initial, events, e, Front(more), symbol);
      assert Front(all) == events + [e] + Front(more) && Last(all) == Last(more);
      var b := Run(cfg, initial, Front(all));
      StepTouches(b, cfg, Last(more), symbol);
      if Touches(b.desk, cfg, Last(more), symbol) {
        TouchIsTimed(b.desk, cfg, Last(more), symbol);
      }
    }
  }

  lemma TouchIsTimed(d: Desk, cfg: Config, e: Event, symbol: string)
    requires Touches(d, cfg, e, symbol)
    ensures Timed(e)
  {
  }

  /** MAIN: once a run has opened or closed a position in a symbol, no signal for that symbol is approved before the
      cooldown has passed, however the run goes on while its clock does not run backwards. */
  lemma CooldownHolds(cfg: Config, initial: real, events: seq<Event>, e: Event, more: seq<Event>, s: Signal,
                      now: int, minute: int)
    requires (forall f | f in events + [e] + more :: Proper(f)) && forall f | f in more :: NotBefore(f, TimeOf(e))
    requires (forall f | f in events :: Proper(f)) && Touches(Run(cfg, initial, events).desk, cfg, e, s.symbol)
    requires now < TimeOf(e) + cfg.cooldownSeconds
    ensures !Approve(Run(cfg, initial, events + [e] + more).desk, cfg, s, now, minute).1.Approved?
  {
    hide Approve, LargestSize, VR.VaR, Times, Proper, Touches, NotBefore, Kept, Balanced, Run;
    TouchedSince(cfg, initial, events, e, more, s.symbol);
    var d := Run(cfg, initial, events + [e] + more).desk;
    var size := SomeSize(d.equity, cfg, s);
    VerdictIs(d, cfg, s, now, minute, size);
    assert Fails(d, cfg, s, now, minute, size, Cooldown);
  }
}
