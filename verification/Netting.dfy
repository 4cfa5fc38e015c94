/** Position netting of rust/risk-engine. */
module Netting {
  import opened Prelude
  import opened RealProducts

  datatype Side = Buy | Sell

  datatype Position = Position(side: Side, quantity: real, avgPrice: real, unrealizedPnl: real)

  datatype Fill = Fill(symbol: string, side: Side, quantity: real, price: real)

  function Change(f: Fill): real {
    if f.side.Buy? then f.quantity else -f.quantity
  }

  /** The sign of a float, which is positive for zero. */
  function Signum(x: real): real {
    if x >= 0.0 then 1.0 else -1.0
  }

  /** The entry inserted for a symbol seen for the first time. */
  function Blank(f: Fill): Position {
    Position(f.side, 0.0, f.price, 0.0)
  }

  function Cost(p: Position, f: Fill): real {
    Times(AbsReal(p.quantity), p.avgPrice) + Times(AbsReal(Change(f)), f.price)
  }

  function Update(p: Position, f: Fill): Position {
    var change := Change(f);
    if Signum(p.quantity) == Signum(change) || p.quantity == 0.0 then
      var quantity := p.quantity + change;
      p.(quantity := quantity, avgPrice := if quantity != 0.0 then Cost(p, f) / AbsReal(quantity) else p.avgPrice)
    else
      var closing := MinReal(AbsReal(change), AbsReal(p.quantity));
      var quantity := p.quantity + change;
      p.(unrealizedPnl := p.unrealizedPnl + Times(Times(closing, f.price - p.avgPrice), Signum(p.quantity)),
         quantity := quantity,
         avgPrice := if quantity == 0.0 then f.price else p.avgPrice)
  }

  class RiskEngine {
    var positions: map<string, Position>
    var totalExposure: real

    constructor ()
      ensures positions == map[] && totalExposure == 0.0
    {
      positions, totalExposure := map[], 0.0;
    }

    method UpdatePosition(f: Fill)
      modifies this
      ensures positions == Apply(old(positions), f)
      ensures totalExposure == old(totalExposure) + Times(f.quantity, f.price)
    {
      hide Times;
      var p := if f.symbol in positions then positions[f.symbol] else Position(f.side, 0.0, f.price, 0.0);
      var change := if f.side == Buy then f.quantity else -f.quantity;
      if Signum(p.quantity) == Signum(change) || p.quantity == 0.0 {
        var cost := Times(AbsReal(p.quantity), p.avgPrice) + Times(AbsReal(change), f.price);
        p := p.(quantity := p.quantity + change);
        if p.quantity != 0.0 {
          p := p.(avgPrice := cost / AbsReal(p.quantity));
        }
      } else {
        var closing := MinReal(AbsReal(change), AbsReal(p.quantity));
        p := p.(unrealizedPnl := p.unrealizedPnl + Times(Times(closing, f.price - p.avgPrice), Signum(p.quantity)));
        p := p.(quantity := p.quantity + change);
        if p.quantity == 0.0 {
          p := p.(avgPrice := f.price);
        }
      }
      positions := positions[f.symbol := p];
      totalExposure := totalExposure + Times(f.quantity, f.price);
    }
  }

  function Apply(positions: map<string, Position>, f: Fill): map<string, Position> {
    positions[f.symbol := Update(if f.symbol in positions then positions[f.symbol] else Blank(f), f)]
  }

  function ApplyAll(fills: seq<Fill>): map<string, Position> {
    if fills == [] then map[] else Apply(ApplyAll(Front(fills)), Last(fills))
  }

  // ---------------------------------------------------------------- the netting identity

  /** Cash value of a position with its realised part taken out. */
  function Basis(p: Position): real {
    Times(p.quantity, p.avgPrice) - p.unrealizedPnl
  }

  /** The fill takes the position through zero to the other side. */
  predicate Flips(p: Position, f: Fill) {
    p.quantity != 0.0 && Signum(p.quantity) != Signum(Change(f)) && AbsReal(Change(f)) > AbsReal(p.quantity)
  }

  lemma NonZeroProduct(a: real, b: real)
    requires a != 0.0
    ensures Times(a, b) == 0.0 <==> b == 0.0
  {
  }

  /** The cost of a same-side fill is, up to the sign of the side, what the basis gains. */
  lemma CostIsSigned(p: Position, f: Fill)
    requires Signum(p.quantity) == Signum(Change(f)) || p.quantity == 0.0
    ensures var q := p.quantity + Change(f);
            Times(p.quantity, p.avgPrice) + Times(Change(f), f.price) == if q >= 0.0 then Cost(p, f) else -Cost(p, f)
  {
    hide Times, Change;
    TimesNegates(p.quantity, p.avgPrice);
    TimesNegates(Change(f), f.price);
    TimesUnits(p.avgPrice);
    TimesUnits(f.price);
  }

  lemma AverageOf(cost: real, q: real)
    requires q != 0.0
    ensures Times(q, cost / AbsReal(q)) == if q >= 0.0 then cost else -cost
  {
    TimesQuotient(cost, AbsReal(q));
    TimesNegates(AbsReal(q), cost / AbsReal(q));
    hide Times;
  }

  lemma SameSideKeepsBasis(p: Position, f: Fill)
    requires Signum(p.quantity) == Signum(Change(f)) || p.quantity == 0.0
    requires p.quantity + Change(f) != 0.0
    ensures Basis(Update(p, f)) == Basis(p) + Times(Change(f), f.price)
  {
    hide Times, Change, Cost;
    var u, q := Update(p, f), p.quantity + Change(f);
    CostIsSigned(p, f);
    AverageOf(Cost(p, f), q);
    assert u.quantity == q && u.avgPrice == Cost(p, f) / AbsReal(q) && u.unrealizedPnl == p.unrealizedPnl;
    assert Times(u.quantity, u.avgPrice) == if q >= 0.0 then Cost(p, f) else -Cost(p, f);
    assert Basis(u) == Times(u.quantity, u.avgPrice) - u.unrealizedPnl;
  }

  lemma NothingKeepsBasis(p: Position, f: Fill)
    requires p.quantity == Change(f) == 0.0
    ensures Basis(Update(p, f)) == Basis(p) + Times(Change(f), f.price)
  {
    hide Times, Change;
    TimesUnits(f.price);
    TimesUnits(p.avgPrice);
  }

  /** What a fill closes, it closes at the gap between its price and the average. */
  lemma ClosingPnl(p: Position, f: Fill)
    requires p.quantity != 0.0 && Signum(p.quantity) != Signum(Change(f)) && AbsReal(Change(f)) <= AbsReal(p.quantity)
    ensures Update(p, f).unrealizedPnl == p.unrealizedPnl - Times(Change(f), f.price - p.avgPrice)
  {
    hide Times, Change;
    var c, gap := Change(f), f.price - p.avgPrice;
    TimesUnits(Times(AbsReal(c), gap));
    TimesNegates(c, gap);
    assert MinReal(AbsReal(c), AbsReal(p.quantity)) == AbsReal(c);
  }

  lemma ClosingKeepsBasis(p: Position, f: Fill)
    requires p.quantity != 0.0 && Signum(p.quantity) != Signum(Change(f)) && AbsReal(Change(f)) <= AbsReal(p.quantity)
    ensures Basis(Update(p, f)) == Basis(p) + Times(Change(f), f.price)
  {
    hide Times, Change;
    var c := Change(f);
    TimesAdds(p.avgPrice, p.quantity, c);
    TimesUnits(f.price);
    TimesUnits(p.avgPrice);
    TimesSubtracts(c, f.price, p.avgPrice);
    ClosingPnl(p, f);
  }

  lemma FlipMovesBasis(p: Position, f: Fill)
    requires Flips(p, f)
    ensures Basis(Update(p, f))
         == Basis(p) + Times(Change(f), f.price) + Times(p.quantity + Change(f), p.avgPrice - f.price)
    ensures p.quantity + Change(f) != 0.0
  {
    hide Times, Change;
    var q, c, gap := p.quantity, Change(f), f.price - p.avgPrice;
    TimesAdds(p.avgPrice, q, c);
    TimesAdds(p.avgPrice - f.price, q, c);
    TimesSubtracts(q, p.avgPrice, f.price);
    TimesSubtracts(c, p.avgPrice, f.price);
    TimesSubtracts(q, f.price, p.avgPrice);
    TimesUnits(Times(q, gap));
    TimesUnits(Times(AbsReal(q), gap));
    TimesNegates(q, gap);
  }

  /** MAIN: every fill adds its signed quantity, and it adds its signed value to the basis exactly when it does
      not flip the position, or flips it at the very average price; a flip leaves the residual at the old
      average. */
  lemma UpdateKeepsBasisIff(p: Position, f: Fill)
    ensures Update(p, f).quantity == p.quantity + Change(f)
    ensures Basis(Update(p, f)) == Basis(p) + Times(Change(f), f.price) <==> !Flips(p, f) || f.price == p.avgPrice
  {
    if Signum(p.quantity) == Signum(Change(f)) || p.quantity == 0.0 {
      if p.quantity + Change(f) != 0.0 {
        SameSideKeepsBasis(p, f);
      } else {
        NothingKeepsBasis(p, f);
      }
    } else if Flips(p, f) {
      FlipMovesBasis(p, f);
      NonZeroProduct(p.quantity + Change(f), p.avgPrice - f.price);
    } else {
      ClosingKeepsBasis(p, f);
    }
    hide Basis, Times;
  }

  function SignedQuantity(fills: seq<Fill>, symbol: string): real {
    if fills == [] then 0.0
    else SignedQuantity(Front(fills), symbol) + if Last(fills).symbol == symbol then Change(Last(fills)) else 0.0
  }

  function SignedValue(fills: seq<Fill>, symbol: string): real {
    if fills == [] then 0.0
    else
      var value := if Last(fills).symbol == symbol then Times(Change(Last(fills)), Last(fills).price) else 0.0;
      SignedValue(Front(fills), symbol) + value
  }

  /** No fill of the symbol exceeds the opposing position it meets. */
  ghost predicate NeverFlips(fills: seq<Fill>, symbol: string) {
    fills == [] ||
    (var positions, f := ApplyAll(Front(fills)), Last(fills);
     && NeverFlips(Front(fills), symbol)
     && (f.symbol == symbol && symbol in positions ==> !Flips(positions[symbol], f)))
  }

  /** MAIN: over any run, each symbol's quantity is the sum of its signed quantities; and while no fill flips
      it, quantity times average price less the realised profit is the sum of its signed values. */
  lemma {:induction false} NettingIdentity(fills: seq<Fill>, symbol: string)
    ensures var positions := ApplyAll(fills);
            && (symbol in positions ==> positions[symbol].quantity == SignedQuantity(fills, symbol))
            && (symbol !in positions ==> SignedQuantity(fills, symbol) == 0.0 && SignedValue(fills, symbol) == 0.0)
            && (symbol in positions && NeverFlips(fills, symbol) ==>
                  Basis(positions[symbol]) == SignedValue(fills, symbol))
  {
    hide Update, Flips, Basis, Change, Times, Blank;
    if fills != [] {
      NettingIdentity(Front(fills), symbol);
      var before, f := ApplyAll(Front(fills)), Last(fills);
      if f.symbol == symbol {
        var p := if symbol in before then before[symbol] else Blank(f);
        UpdateKeepsBasisIff(p, f);
        BlankNeverFlips(f);
        BlankBasis(f);
      }
    }
  }

  lemma BlankNeverFlips(f: Fill)
    ensures !Flips(Blank(f), f)
  {
  }

  lemma BlankBasis(f: Fill)
    ensures Basis(Blank(f)) == 0.0 && Blank(f).quantity == 0.0
  {
    TimesUnits(f.price);
    hide Times;
  }

  /** Where the basis goes: a fill on the position's side moves only the average, which becomes that of the whole; one
      against it books the closed lots at the gap between its price and the average, which it leaves alone unless
      nothing is left. */
  lemma UpdateSplitsBasis(p: Position, f: Fill)
    ensures var u, c, gap := Update(p, f), Change(f), f.price - p.avgPrice;
            && u.side == p.side
            && if p.quantity == 0.0 || (p.quantity > 0.0 <==> c >= 0.0)
               then u.unrealizedPnl == p.unrealizedPnl
                    && (u.quantity != 0.0 ==>
                          Times(u.quantity, u.avgPrice) == Times(p.quantity, p.avgPrice) + Times(c, f.price))
               else u.avgPrice == (if u.quantity == 0.0 then f.price else p.avgPrice)
                    && u.unrealizedPnl - p.unrealizedPnl
                       == if AbsReal(c) <= AbsReal(p.quantity) then -Times(c, gap) else Times(p.quantity, gap)
  {
    var c, q, gap := Change(f), p.quantity, f.price - p.avgPrice;
    if q == 0.0 || (q > 0.0 <==> c >= 0.0) {
      if q + c != 0.0 {
        CostIsSigned(p, f);
        AverageOf(Cost(p, f), q + c);
      }
    } else if AbsReal(c) <= AbsReal(q) {
      ClosingPnl(p, f);
    } else {
      TimesUnits(Times(AbsReal(q), gap));
      TimesNegates(q, gap);
    }
    hide Times, Change, Cost;
  }
}
