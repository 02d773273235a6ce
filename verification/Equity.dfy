/** Equity and flattening in services/paper_broker.py. */
module Equity {
  import opened Wrappers
  import opened MapSums
  import opened KalshiFees
  import opened Ledger

  /** The price a position is marked at: the latest quote, or its own entry price without one. */
  function MarkPrice(p: Position, ticker: string, prices: map<string, real>): real {
    if ticker in prices then prices[ticker] else p.entryPrice
  }

  function ValueOf(p: Position, ticker: string, prices: map<string, real>): real {
    CostBasis(p) + MarkToMarket(p, MarkPrice(p, ticker, prices))
  }

  ghost function Values(positions: map<string, Position>, prices: map<string, real>): map<string, real> {
    map t | t in positions :: ValueOf(positions[t], t, prices)
  }

  /** bankroll plus total_position_value, before display rounding. */
  ghost function Equity(b: Book, prices: map<string, real>): real {
    b.bankroll + Sum(Values(b.positions, prices))
  }

  /** Closing a position at its mark changes equity by exactly minus the close fee. */
  lemma CloseAtMark(env: Env, b: Book, ticker: string, prices: map<string, real>, reason: string, now: real)
    requires ticker in b.positions
    ensures var p := b.positions[ticker];
            var mark := MarkPrice(p, ticker, prices);
            Equity(Apply(env, b, Close(ticker, mark, reason, now)), prices)
            == Equity(b, prices) - TakerFee(p.size as real, mark, env.terms(ticker))
  {
    var p := b.positions[ticker];
    BasisPlusMark(p, MarkPrice(p, ticker, prices));
    SumRemove(Values(b.positions, prices), ticker);
    assert Values(b.positions, prices) - {ticker} == Values(b.positions - {ticker}, prices);
  }

  /** Opening at the mark changes equity by exactly minus the fee and the slack, and by the value of
      whatever position the ticker already held. */
  lemma OpenAtMark(env: Env, b: Book, op: Op, prices: map<string, real>)
    requires op.Open? && !Refused(env, b, op) && (op.ticker in prices ==> prices[op.ticker] == op.price)
    ensures var fee := Apply(env, b, op).positions[op.ticker].entryFee;
            var slack := Slack(b.bankroll, op.entry.size, UnitCost(op.entry.side, op.price));
            var held := if op.ticker in b.positions then ValueOf(b.positions[op.ticker], op.ticker, prices) else 0.0;
            Equity(Apply(env, b, op), prices) == Equity(b, prices) - fee - slack - held
  {
    var after := Apply(env, b, op);
    var p := after.positions[op.ticker];
    assert MarkToMarket(p, op.price) == 0.0;
    SumUpdate(Values(b.positions, prices), op.ticker, ValueOf(p, op.ticker, prices));
    assert Values(b.positions, prices)[op.ticker := ValueOf(p, op.ticker, prices)] == Values(after.positions, prices);
  }

  /** A position is worth what its contracts sell for at the latest quote of its ticker, or at its entry price
      where there is none. */
  lemma ValueAtMarket(p: Position, ticker: string, prices: map<string, real>, quote: real, each: real)
    requires quote == (if ticker in prices then prices[ticker] else p.entryPrice) && CostsEach(p.side, quote, each)
    ensures ValueOf(p, ticker, prices) == p.size as real * each
  {
    BasisPlusMark(p, quote);
  }

  // ---- Flattening ----

  /** The exit price close_all_positions uses for one position. */
  function FlattenPrice(p: Position, ticker: string, prices: map<string, real>, asks: Option<map<string, real>>): real {
    var price := MarkPrice(p, ticker, prices);
    if asks.None? then price
    else
      var ask := if ticker in asks.value then Some(asks.value[ticker]) else None;
      ForcedExitQuote(p.side, Some(price), ask, p.entryPrice)
  }

  /** The loop over list(self.positions), in the order given. */
  ghost function Flattened(env: Env, b: Book, order: seq<string>, prices: map<string, real>,
                           asks: Option<map<string, real>>, reason: string, clock: string -> real): Book
    decreases |order|
  {
    if order == [] then b
    else Flattened(env, FlattenedOne(env, b, order[0], prices, asks, reason, clock), order[1..], prices, asks, reason, clock)
  }

  ghost function FlattenedOne(env: Env, b: Book, ticker: string, prices: map<string, real>,
                              asks: Option<map<string, real>>, reason: string, clock: string -> real): Book
  {
    if ticker in b.positions
    then Closed(env, b, ticker, FlattenPrice(b.positions[ticker], ticker, prices, asks), reason, clock(ticker))
    else b
  }

  ghost function FlattenOps(env: Env, b: Book, order: seq<string>, prices: map<string, real>,
                            asks: Option<map<string, real>>, reason: string, clock: string -> real): seq<Op>
    decreases |order|
  {
    if order == [] then []
    else
      (if order[0] in b.positions
       then [Close(order[0], FlattenPrice(b.positions[order[0]], order[0], prices, asks), reason, clock(order[0]))] else [])
      + FlattenOps(env, FlattenedOne(env, b, order[0], prices, asks, reason, clock), order[1..], prices, asks, reason, clock)
  }

  /** Flattening is a run of closes, so that whatever every run of the ledger keeps, it keeps. */
  lemma {:induction false} FlattenIsARun(env: Env, b: Book, order: seq<string>, prices: map<string, real>,
                                         asks: Option<map<string, real>>, reason: string, clock: string -> real)
    ensures Flattened(env, b, order, prices, asks, reason, clock)
            == Run(env, b, FlattenOps(env, b, order, prices, asks, reason, clock))
    decreases |order|
  {
    if order != [] {
      var next := FlattenedOne(env, b, order[0], prices, asks, reason, clock);
      var rest := FlattenOps(env, next, order[1..], prices, asks, reason, clock);
      FlattenIsARun(env, next, order[1..], prices, asks, reason, clock);
      if order[0] in b.positions {
        var op := Close(order[0], FlattenPrice(b.positions[order[0]], order[0], prices, asks), reason, clock(order[0]));
        RunAppend(env, b, [op], rest);
        assert [op][1..] == [];
      } else {
        assert [] + rest == rest;
      }
    }
  }

  /** The exit price in quotes. Without asks it is the latest price, or the entry price where there is none. With
      asks a YES position sells at that price if it is inside, for nothing at or below zero, and otherwise at entry;
      a NO position sells at its ask if that is inside and not below the price, for nothing at a dollar or more, and
      otherwise at entry. */
  predicate SoldAtMarket(p: Position, ticker: string, prices: map<string, real>, asks: Option<map<string, real>>, exit: real) {
    var bid := if ticker in prices then prices[ticker] else p.entryPrice;
    if asks.None? then exit == bid
    else if p.side == Yes then
      exit == if 0.0 < bid < 1.0 then bid else if bid <= 0.0 then 0.0 else p.entryPrice
    else if ticker !in asks.value then exit == p.entryPrice
    else
      var ask := asks.value[ticker];
      exit == if 0.0 < ask < 1.0 && bid <= ask then ask else if ask >= 1.0 then 1.0 else p.entryPrice
  }

  lemma FlattenPriceIsMarket(p: Position, ticker: string, prices: map<string, real>, asks: Option<map<string, real>>)
    ensures SoldAtMarket(p, ticker, prices, asks, FlattenPrice(p, ticker, prices, asks))
  {
  }

  /** A row of the flattening: the whole of one listed position, sold at the market, stamped when it was. */
  predicate FlattenRow(b: Book, order: seq<string>, prices: map<string, real>, asks: Option<map<string, real>>,
                       reason: string, clock: string -> real, t: Trade)
  {
    && t.ticker in order && t.ticker in b.positions && SoldAtMarket(b.positions[t.ticker], t.ticker, prices, asks, t.price)
    && t.side == b.positions[t.ticker].side && t.size == b.positions[t.ticker].size
    && t.reason == "closed: " + reason && t.timestamp == clock(t.ticker) && !t.excluded
  }

  lemma FlattenedOneSold(env: Env, b: Book, ticker: string, prices: map<string, real>,
                         asks: Option<map<string, real>>, reason: string, clock: string -> real)
    ensures var next := FlattenedOne(env, b, ticker, prices, asks, reason, clock);
            |next.trades| > |b.trades| ==> FlattenRow(b, [ticker], prices, asks, reason, clock, next.trades[|b.trades|])
  {
    if ticker in b.positions {
      FlattenPriceIsMarket(b.positions[ticker], ticker, prices, asks);
    }
  }

  /** Every trade a flattening adds is the sale, at the market, of one of the positions it was given. */
  lemma {:induction false} FlattenSellsAtMarket(
    env: Env, b: Book, order: seq<string>, prices: map<string, real>, asks: Option<map<string, real>>, reason: string,
    clock: string -> real, i: nat)
    requires |b.trades| <= i < |Flattened(env, b, order, prices, asks, reason, clock).trades|
    ensures FlattenRow(b, order, prices, asks, reason, clock,
                       Flattened(env, b, order, prices, asks, reason, clock).trades[i])
    decreases |order|
  {
    if order != [] {
      assert order == [order[0]] + order[1..];
      var next := FlattenedOne(env, b, order[0], prices, asks, reason, clock);
      FlattenedOneShape(env, b, order[0], prices, asks, reason, clock);
      FlattenedOneSold(env, b, order[0], prices, asks, reason, clock);
      FlattenEmptiesTheBook(env, next, order[1..], prices, asks, reason, clock);
      if i >= |next.trades| {
        FlattenSellsAtMarket(env, next, order[1..], prices, asks, reason, clock, i);
      }
    }
  }

  predicate EntriesInside(b: Book) {
    forall t :: t in b.positions ==> 0.0 < b.positions[t].entryPrice < 1.0
  }

  /** A close the flattening may make: of a position in the book, for at least nothing and strictly less
      than a dollar a contract. */
  predicate FairExit(b: Book, order: seq<string>, t: Trade) {
    && IsClose(t.reason) && t.ticker in order && t.ticker in b.positions
    && t.side == b.positions[t.ticker].side && t.size == b.positions[t.ticker].size
    && 0.0 <= UnitCost(t.side, t.price) < 1.0
  }

  lemma FlattenedOneShape(env: Env, b: Book, ticker: string, prices: map<string, real>,
                          asks: Option<map<string, real>>, reason: string, clock: string -> real)
    ensures var next := FlattenedOne(env, b, ticker, prices, asks, reason, clock);
            && next.positions == b.positions - {ticker}
            && next.trades == b.trades + next.trades[|b.trades|..]
            && |next.trades| <= |b.trades| + 1
            && (EntriesInside(b) && asks.Some? && |next.trades| > |b.trades| ==>
                  FairExit(b, [ticker], next.trades[|b.trades|]))
  {
    if ticker in b.positions && EntriesInside(b) && asks.Some? {
      var p := b.positions[ticker];
      var ask := if ticker in asks.value then Some(asks.value[ticker]) else None;
      NeverADollarPerContract(p.side, Some(MarkPrice(p, ticker, prices)), ask, p.entryPrice);
      assert (CLOSED + reason)[..7] == "closed:";
    }
  }

  /** Flattening empties the book of every ticker it is given, priced off asks or not, and only adds trades. */
  lemma {:induction false} FlattenEmptiesTheBook(
    env: Env, b: Book, order: seq<string>, prices: map<string, real>, asks: Option<map<string, real>>, reason: string,
    clock: string -> real)
    ensures var after := Flattened(env, b, order, prices, asks, reason, clock);
            after.positions == b.positions - (set t | t in order) && b.trades <= after.trades
    decreases |order|
  {
    if order != [] {
      assert order == [order[0]] + order[1..];
      var next := FlattenedOne(env, b, order[0], prices, asks, reason, clock);
      FlattenedOneShape(env, b, order[0], prices, asks, reason, clock);
      FlattenEmptiesTheBook(env, next, order[1..], prices, asks, reason, clock);
    }
  }

  /** No position is ever credited a dollar a contract by a flattening given asks, when entry prices lie
      strictly between 0 and 1. */
  lemma {:induction false} FlattenNeverPaysADollar(
    env: Env, b: Book, order: seq<string>, prices: map<string, real>, asks: map<string, real>, reason: string,
    clock: string -> real, i: nat)
    requires EntriesInside(b)
    requires |b.trades| <= i < |Flattened(env, b, order, prices, Some(asks), reason, clock).trades|
    ensures FairExit(b, order, Flattened(env, b, order, prices, Some(asks), reason, clock).trades[i])
    decreases |order|
  {
    if order != [] {
      assert order == [order[0]] + order[1..];
      var next := FlattenedOne(env, b, order[0], prices, Some(asks), reason, clock);
      FlattenedOneShape(env, b, order[0], prices, Some(asks), reason, clock);
      FlattenEmptiesTheBook(env, next, order[1..], prices, Some(asks), reason, clock);
      if i >= |next.trades| {
        FlattenNeverPaysADollar(env, next, order[1..], prices, asks, reason, clock, i);
      }
    }
  }

  function FeesPaid(trades: seq<Trade>): real {
    if trades == [] then 0.0 else trades[0].fee + FeesPaid(trades[1..])
  }

  lemma CloseFeePaid(env: Env, b: Book, ticker: string, prices: map<string, real>, reason: string, clock: string -> real)
    ensures var next := FlattenedOne(env, b, ticker, prices, None, reason, clock);
            && Equity(next, prices) == Equity(b, prices) - FeesPaid(next.trades[|b.trades|..])
            && b.trades <= next.trades && next.positions == b.positions - {ticker}
            && |next.trades| <= |b.trades| + 1
  {
    if ticker in b.positions {
      CloseAtMark(env, b, ticker, prices, reason, clock(ticker));
      var next := FlattenedOne(env, b, ticker, prices, None, reason, clock);
      assert next.trades[|b.trades|..] == [next.trades[|b.trades|]];
    }
  }

  lemma {:induction false} FlattenKeepsEquity(
    env: Env, b: Book, order: seq<string>, prices: map<string, real>, reason: string, clock: string -> real)
    ensures var after := Flattened(env, b, order, prices, None, reason, clock);
            && b.trades <= after.trades
            && Equity(after, prices) == Equity(b, prices) - FeesPaid(after.trades[|b.trades|..])
    decreases |order|
  {
    if order != [] {
      var next := FlattenedOne(env, b, order[0], prices, None, reason, clock);
      var after := Flattened(env, b, order, prices, None, reason, clock);
      CloseFeePaid(env, b, order[0], prices, reason, clock);
      FlattenKeepsEquity(env, next, order[1..], prices, reason, clock);
      if |next.trades| > |b.trades| {
        var row := next.trades[|b.trades|];
        assert after.trades[|b.trades|..] == [row] + after.trades[|next.trades|..];
        assert next.trades[|b.trades|..] == [row] && [row][1..] == [];
      }
    }
  }

  /** What equity() reports is what liquidating pays: selling every position at its mark leaves exactly the equity
      in cash, less the fees of the closes. */
  lemma LiquidationPaysEquity(
    env: Env, b: Book, order: seq<string>, prices: map<string, real>, reason: string, clock: string -> real)
    requires forall t :: t in b.positions ==> t in order
    ensures var after := Flattened(env, b, order, prices, None, reason, clock);
            && after.positions == map[] && b.trades <= after.trades
            && after.bankroll == Equity(b, prices) - FeesPaid(after.trades[|b.trades|..])
  {
    var after := Flattened(env, b, order, prices, None, reason, clock);
    FlattenKeepsEquity(env, b, order, prices, reason, clock);
    FlattenEmptiesTheBook(env, b, order, prices, None, reason, clock);
    assert after.positions == map[];
    assert Values(after.positions, prices) == map[];
  }
}
