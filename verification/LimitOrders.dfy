/** check_pending_fills of services/paper_broker.py: what becomes of each resting limit order. */
module LimitOrders {
  import opened Wrappers
  import opened MapSums
  import opened KalshiFees
  import opened Ledger
  import opened Reals

  /** This tick's real quotes, in YES terms; a ticker may be missing from either. */
  datatype Quotes = Quotes(bids: map<string, real>, asks: map<string, real>)

  /** validate_fn: ticker, side, fill price and confidence to whether the gates still pass. */
  type Validator = (string, Side, real, Option<real>) -> bool

  /** One call: the expiry clock, the readings each ticker's fill would take, the quotes, the re-validation,
      and the risk halt. */
  datatype Check = Check(now: real, clock: string -> Reading, quotes: Quotes, validate: Option<Validator>, halted: bool)

  datatype Fate = Waiting | Expired | GateRejected | RiskRejected | Traded

  /** The YES price the order would fill at: a YES buyer lifts the ask, a NO buyer the bid. */
  function FillPrice(order: Order, ticker: string, quotes: Quotes): Option<real> {
    match order.side
    case Yes => if ticker in quotes.asks then Some(quotes.asks[ticker]) else None
    case No => if ticker in quotes.bids then Some(quotes.bids[ticker]) else None
  }

  function EntryFor(order: Order): Entry {
    Entry(order.side, order.size, order.reason, Maker, order.fingerprint, order.signalSeenAt, false)
  }

  predicate GatePasses(order: Order, ticker: string, price: real, check: Check) {
    check.validate.None? || check.validate.value(ticker, order.side, price, order.confidence)
  }

  ghost function FateOf(env: Env, b: Book, ticker: string, check: Check): Fate
    requires ticker in b.pending
  {
    var order := b.pending[ticker];
    var price := FillPrice(order, ticker, check.quotes);
    if check.now >= order.expiresAt then Expired
    else if price.None? then Waiting
    else if UnitCost(order.side, price.value) > UnitCost(order.side, order.limitPrice) then Waiting
    else if !GatePasses(order, ticker, price.value, check) then GateRejected
    else if Refused(env, b, Open(ticker, EntryFor(order), price.value, check.clock(ticker), check.halted)) then RiskRejected
    else Traded
  }

  /** The ledger operations one order comes to: nothing, a cancel, or a cancel and an attempted entry. */
  ghost function OpsFor(env: Env, b: Book, ticker: string, check: Check): seq<Op>
    requires ticker in b.pending
  {
    var order := b.pending[ticker];
    match FateOf(env, b, ticker, check)
    case Waiting => []
    case Expired => [Cancel(ticker)]
    case GateRejected => [Cancel(ticker)]
    case _ =>
      [Cancel(ticker),
       Open(ticker, EntryFor(order), FillPrice(order, ticker, check.quotes).value, check.clock(ticker), check.halted)]
  }

  ghost function Settled(env: Env, b: Book, ticker: string, check: Check): Book
    requires ticker in b.pending
  {
    Run(env, b, OpsFor(env, b, ticker, check))
  }

  lemma SettledShape(env: Env, b: Book, ticker: string, check: Check)
    requires ticker in b.pending
    ensures var after := Settled(env, b, ticker, check);
            var fate := FateOf(env, b, ticker, check);
            && after.pending == (if fate == Waiting then b.pending else b.pending - {ticker})
            && (fate != Traded ==> after == b.(pending := after.pending))
            && (fate == Traded ==>
                  after == Opened(env, b, ticker, EntryFor(b.pending[ticker]),
                                  FillPrice(b.pending[ticker], ticker, check.quotes).value, check.clock(ticker))
                           .(pending := b.pending - {ticker}))
  {
    var ops := OpsFor(env, b, ticker, check);
    if |ops| >= 1 {
      var next := Apply(env, b, ops[0]);
      assert Run(env, b, ops) == Run(env, next, ops[1..]);
      if |ops| == 2 {
        assert ops[1..] == [ops[1]] && ops[1..][1..] == [];
        assert Run(env, next, ops[1..]) == Apply(env, next, ops[1]);
      } else {
        assert ops[1..] == [];
      }
    }
  }

  ghost predicate AllPending(b: Book, order: seq<string>) {
    forall t :: t in order ==> t in b.pending
  }

  /** The loop over list(self.pending_orders), in the order given. */
  ghost function Checked(env: Env, b: Book, order: seq<string>, check: Check): Book
    requires Distinct(order) && AllPending(b, order)
    decreases |order|
  {
    if order == [] then b
    else
      SettledShape(env, b, order[0], check);
      KeepsPending(b, order, Settled(env, b, order[0], check));
      Checked(env, Settled(env, b, order[0], check), order[1..], check)
  }

  ghost function Fates(env: Env, b: Book, order: seq<string>, check: Check): (fates: seq<Fate>)
    requires Distinct(order) && AllPending(b, order)
    ensures |fates| == |order|
    decreases |order|
  {
    if order == [] then []
    else
      SettledShape(env, b, order[0], check);
      KeepsPending(b, order, Settled(env, b, order[0], check));
      [FateOf(env, b, order[0], check)] + Fates(env, Settled(env, b, order[0], check), order[1..], check)
  }

  lemma KeepsPending(b: Book, order: seq<string>, after: Book)
    requires order != [] && Distinct(order) && AllPending(b, order)
    requires after.pending == b.pending || after.pending == b.pending - {order[0]}
    ensures Distinct(order[1..]) && AllPending(after, order[1..])
  {
    forall t | t in order[1..]
      ensures t in after.pending
    {
      var i :| 0 <= i < |order[1..]| && order[1..][i] == t;
      assert order[i + 1] == t && order[0] != order[i + 1];
    }
  }

  function Count(fates: seq<Fate>, fate: Fate): nat {
    if fates == [] then 0 else (if fates[0] == fate then 1 else 0) + Count(fates[1..], fate)
  }

  /** Every resting order the call sees ends in exactly one way, and is still pending, unchanged, exactly
      when it waits; every other order is untouched; and each order that trades, and no other, adds one
      trade. */
  lemma {:induction false} EveryOrderHasOneFate(env: Env, b: Book, order: seq<string>, check: Check)
    requires Distinct(order) && AllPending(b, order)
    ensures var after, fates := Checked(env, b, order, check), Fates(env, b, order, check);
            && (forall i :: 0 <= i < |order| ==>
                  (order[i] in after.pending <==> fates[i] == Waiting)
                  && (order[i] in after.pending ==> after.pending[order[i]] == b.pending[order[i]]))
            && (forall t :: t !in order ==> (t in after.pending <==> t in b.pending))
            && (forall t :: t !in order && t in b.pending ==> after.pending[t] == b.pending[t])
            && |after.trades| == |b.trades| + Count(fates, Traded)
    decreases |order|
  {
    if order != [] {
      var first, rest := order[0], order[1..];
      var next := Settled(env, b, first, check);
      SettledShape(env, b, first, check);
      KeepsPending(b, order, next);
      EveryOrderHasOneFate(env, next, rest, check);
      FirstSettledOnce(env, b, order, check);
      var fates := Fates(env, b, order, check);
      assert fates[0] == FateOf(env, b, first, check) && fates[1..] == Fates(env, next, rest, check);
      forall i | 0 < i < |order|
        ensures order[i] == rest[i - 1] && fates[i] == fates[1..][i - 1] && order[i] != first
      {
      }
    }
  }

  /** Settling the first order leaves every other order, listed or not, as it was. */
  lemma FirstSettledOnce(env: Env, b: Book, order: seq<string>, check: Check)
    requires order != [] && Distinct(order) && AllPending(b, order)
    ensures var next := Settled(env, b, order[0], check);
            && order[0] !in order[1..]
            && (order[0] in next.pending <==> FateOf(env, b, order[0], check) == Waiting)
            && (forall t :: t != order[0] ==> (t in next.pending <==> t in b.pending))
            && (forall t :: t in next.pending ==> next.pending[t] == b.pending[t])
            && |next.trades| == |b.trades| + (if FateOf(env, b, order[0], check) == Traded then 1 else 0)
            && (forall t :: t in order <==> t == order[0] || t in order[1..])
  {
    SettledShape(env, b, order[0], check);
    assert order == [order[0]] + order[1..];
  }

  /** The ledger operations of the whole call, so that whatever every run of the ledger keeps, it keeps. */
  ghost function OpsOf(env: Env, b: Book, order: seq<string>, check: Check): seq<Op>
    requires Distinct(order) && AllPending(b, order)
    decreases |order|
  {
    if order == [] then []
    else
      SettledShape(env, b, order[0], check);
      KeepsPending(b, order, Settled(env, b, order[0], check));
      OpsFor(env, b, order[0], check) + OpsOf(env, Settled(env, b, order[0], check), order[1..], check)
  }

  lemma {:induction false} CheckIsARun(env: Env, b: Book, order: seq<string>, check: Check)
    requires Distinct(order) && AllPending(b, order)
    ensures Checked(env, b, order, check) == Run(env, b, OpsOf(env, b, order, check))
    decreases |order|
  {
    if order != [] {
      var next := Settled(env, b, order[0], check);
      SettledShape(env, b, order[0], check);
      KeepsPending(b, order, next);
      CheckIsARun(env, next, order[1..], check);
      RunAppend(env, b, OpsFor(env, b, order[0], check), OpsOf(env, next, order[1..], check));
    }
  }

  /** The tickers of the given fate, in the order they were seen. */
  function Fated(order: seq<string>, fates: seq<Fate>, fate: Fate): seq<string>
    requires |order| == |fates|
  {
    if order == [] then [] else (if fates[0] == fate then [order[0]] else []) + Fated(order[1..], fates[1..], fate)
  }

  /** The YES price a fill would be struck at: a YES buyer lifts the ask, a NO buyer hits the bid. */
  predicate Quoted(order: Order, ticker: string, quotes: Quotes, price: real) {
    match order.side
    case Yes => ticker in quotes.asks && quotes.asks[ticker] == price
    case No => ticker in quotes.bids && quotes.bids[ticker] == price
  }

  /** The market has not come to the order: its side is not quoted, or a YES ask is above, or a NO bid below, the
      limit price. */
  predicate OutOfReach(order: Order, ticker: string, quotes: Quotes) {
    match order.side
    case Yes => ticker in quotes.asks ==> quotes.asks[ticker] > order.limitPrice
    case No => ticker in quotes.bids ==> quotes.bids[ticker] < order.limitPrice
  }

  /** The fate of every order in quotes: expired from its time on; until then waiting exactly while the market is out
      of reach; then turned down exactly by the validator, asked about the quote and the order's confidence, or by
      the halt or the exposure cap; and otherwise traded. */
  lemma FateInQuotes(env: Env, b: Book, ticker: string, check: Check, price: real)
    requires ticker in b.pending
    ensures var order := b.pending[ticker];
            var fate := FateOf(env, b, ticker, check);
            && (fate == Expired <==> check.now >= order.expiresAt)
            && (fate == Waiting <==> check.now < order.expiresAt && OutOfReach(order, ticker, check.quotes))
            && (check.now < order.expiresAt && !OutOfReach(order, ticker, check.quotes) && Quoted(order, ticker, check.quotes, price) ==>
                  var passes := check.validate.Some? ==> check.validate.value(ticker, order.side, price, order.confidence);
                  var refused := check.halted || CapExceeded(env, b, Open(ticker, EntryFor(order), price, check.clock(ticker), check.halted));
                  && (fate == GateRejected <==> !passes)
                  && (fate == RiskRejected <==> passes && refused)
                  && (fate == Traded <==> passes && !refused))
  {
    EntryRefusedIff(env, b, Open(ticker, EntryFor(b.pending[ticker]), price, check.clock(ticker), check.halted));
  }

  /** The trade is a fill of the order: unexpired, at the quoted price, past the gate, at a unit cost within
      its limit, for at most its size, at the maker fee, and carrying what the order carries. */
  predicate FillOf(env: Env, order: Order, ticker: string, t: Trade, check: Check) {
    && t.ticker == ticker && t.side == order.side && Quoted(order, ticker, check.quotes, t.price)
    && check.now < order.expiresAt && !OutOfReach(order, ticker, check.quotes) && !check.halted
    && (check.validate.Some? ==> check.validate.value(ticker, order.side, t.price, order.confidence))
    && (order.size >= 0 && UnitCost(t.side, t.price) > 0.0 ==> t.size <= order.size)
    && t.fee == MakerFee(t.size as real, t.price, env.terms(ticker))
    && t.reason == order.reason && t.fingerprint == order.fingerprint && t.signalSeenAt == order.signalSeenAt
    && t.timestamp == check.clock(ticker).loggedAt && !t.excluded
  }

  /** An order that trades adds one trade, a fill of it; the fee is never more than taking would have cost, and
      on a non-negative bankroll the fill is not of negative size. */
  lemma FillRespectsItsOrder(env: Env, b: Book, ticker: string, check: Check)
    requires ticker in b.pending && FateOf(env, b, ticker, check) == Traded
    ensures |Settled(env, b, ticker, check).trades| == |b.trades| + 1
    ensures var order, trade := b.pending[ticker], Settled(env, b, ticker, check).trades[|b.trades|];
            && Settled(env, b, ticker, check).trades == b.trades + [trade] && FillOf(env, order, ticker, trade, check)
            && (NonNegative(env.terms(ticker)) ==>
                  trade.fee <= TakerFee(trade.size as real, trade.price, env.terms(ticker)))
            && (b.bankroll >= 0.0 && order.size >= 0 && UnitCost(trade.side, trade.price) > 0.0 ==> trade.size >= 0)
            && ticker in Settled(env, b, ticker, check).positions
            && !Settled(env, b, ticker, check).positions[ticker].holdToSettlement
  {
    SettledShape(env, b, ticker, check);
    var order := b.pending[ticker];
    var price := FillPrice(order, ticker, check.quotes).value;
    var size := Settled(env, b, ticker, check).positions[ticker].size;
    if NonNegative(env.terms(ticker)) {
      MakerNeverDearer(size as real, price, env.terms(ticker));
    }
    if order.size >= 0 && UnitCost(order.side, price) > 0.0 {
      BoughtAtMostAsked(b.bankroll, order.size, UnitCost(order.side, price));
    }
  }

  /** Every trade of the call is a fill of a listed order, every order that trades has exactly one, in the
      order they were seen, and earlier trades stay as they were. */
  lemma {:induction false} TradesAreTheFills(env: Env, b: Book, order: seq<string>, check: Check)
    requires Distinct(order) && AllPending(b, order)
    ensures var after, filled := Checked(env, b, order, check), Fated(order, Fates(env, b, order, check), Traded);
            b.trades <= after.trades && FillsFrom(env, b.pending, after, |b.trades|, filled, check)
    decreases |order|
  {
    if order != [] {
      var first, rest := order[0], order[1..];
      var next := Settled(env, b, first, check);
      SettledShape(env, b, first, check);
      KeepsPending(b, order, next);
      TradesAreTheFills(env, next, rest, check);
      FirstSettledOnce(env, b, order, check);
      var fates := Fates(env, b, order, check);
      assert fates[0] == FateOf(env, b, first, check) && fates[1..] == Fates(env, next, rest, check);
      if fates[0] == Traded {
        FillRespectsItsOrder(env, b, first, check);
      }
      ShiftedFills(env, b, next, Checked(env, b, order, check), Fated(rest, fates[1..], Traded), check,
                   if fates[0] == Traded then [first] else []);
    }
  }

  /** The trades from the given position on are fills, one of each ticker's order. */
  predicate FillsFrom(env: Env, pending: map<string, Order>, after: Book, from: nat, filled: seq<string>, check: Check) {
    from + |filled| == |after.trades|
    && forall j :: 0 <= j < |filled| ==>
         filled[j] in pending && FillOf(env, pending[filled[j]], filled[j], after.trades[from + j], check)
  }

  lemma ShiftedFills(env: Env, b: Book, next: Book, after: Book, later: seq<string>, check: Check, one: seq<string>)
    requires FillsFrom(env, next.pending, after, |next.trades|, later, check) && next.trades <= after.trades
    requires |one| <= 1 && FillsFrom(env, b.pending, next, |b.trades|, one, check)
    requires forall t :: t in next.pending ==> t in b.pending && next.pending[t] == b.pending[t]
    ensures FillsFrom(env, b.pending, after, |b.trades|, one + later, check)
  {
    forall j | 0 <= j < |one + later|
      ensures (one + later)[j] in b.pending
      ensures FillOf(env, b.pending[(one + later)[j]], (one + later)[j], after.trades[|b.trades| + j], check)
    {
      if j >= |one| {
        assert (one + later)[j] == later[j - |one|];
        assert after.trades[|b.trades| + j] == after.trades[|next.trades| + (j - |one|)];
      } else {
        assert after.trades[|b.trades| + j] == next.trades[|b.trades| + j];
      }
    }
  }

  // ---- The exposure cap ----

  function HeldBasis(b: Book, ticker: string): real {
    if ticker in b.positions then CostBasis(b.positions[ticker]) else 0.0
  }

  ghost predicate WithinCap(env: Env, b: Book, ticker: string, check: Check)
    requires ticker in b.pending && env.exposureCap.Some?
  {
    Exposure(Settled(env, b, ticker, check)) <= b.bankroll * env.exposureCap.value
  }

  /** What a caller can work out before the call: the book without the position this order would replace,
      plus the whole contracts it would get, fits under the cap. The gate of open_position tests the charge
      instead, which on a debt is the debt itself. */
  ghost predicate ContractsFit(env: Env, b: Book, ticker: string, check: Check)
    requires ticker in b.pending && env.exposureCap.Some?
  {
    var order := b.pending[ticker];
    var price := FillPrice(order, ticker, check.quotes);
    price.Some? ==>
      var unitCost := UnitCost(order.side, price.value);
      Exposure(b) - HeldBasis(b, ticker)
      + Priced(ActualSize(ChargedCost(b.bankroll, order.size, unitCost), unitCost), unitCost)
      <= b.bankroll * env.exposureCap.value
  }

  /** A fill of a positive order at an inside price, on money that is there. */
  predicate Sound(b: Book, ticker: string, check: Check)
    requires ticker in b.pending
  {
    var order := b.pending[ticker];
    var price := FillPrice(order, ticker, check.quotes);
    b.bankroll >= 0.0 && order.size >= 0 && (price.Some? ==> UnitCost(order.side, price.value) > 0.0)
    && HeldBasis(b, ticker) >= 0.0
  }

  /** After a fill the cost basis of the whole book is within the exposure cap, taken on the bankroll before
      it, exactly when the whole contracts fit: always on a non-negative bankroll, and never on a debt of less
      than one contract, which buys nothing yet passes the gate as a negative cost. */
  lemma FillWithinExposureIff(env: Env, b: Book, ticker: string, check: Check)
    requires ticker in b.pending && FateOf(env, b, ticker, check) == Traded && env.exposureCap.Some?
    ensures WithinCap(env, b, ticker, check) <==> ContractsFit(env, b, ticker, check)
    ensures Sound(b, ticker, check) ==> WithinCap(env, b, ticker, check)
    ensures var order := b.pending[ticker];
            var unitCost := UnitCost(order.side, FillPrice(order, ticker, check.quotes).value);
            (-unitCost < b.bankroll < 0.0 && order.size >= 0 && env.exposureCap.value > 0.0
             && ticker !in b.positions && Exposure(b) >= 0.0)
            ==> !WithinCap(env, b, ticker, check)
  {
    SettledShape(env, b, ticker, check);
    var order := b.pending[ticker];
    var price := FillPrice(order, ticker, check.quotes).value;
    var unitCost := UnitCost(order.side, price);
    EntryExposure(b, Settled(env, b, ticker, check), ticker);
    if Sound(b, ticker, check) {
      SlackNonNegative(b.bankroll, order.size, unitCost);
      AcceptedWithinCap(env, b, Open(ticker, EntryFor(order), price, check.clock(ticker), check.halted));
    }
    if -unitCost < b.bankroll < 0.0 && order.size >= 0 && env.exposureCap.value > 0.0 {
      DebtInContracts(b.bankroll, unitCost);
      NonNegativeProduct(order.size as real, unitCost);
      PositiveProduct(-b.bankroll, env.exposureCap.value);
    }
  }

  lemma AcceptedWithinCap(env: Env, b: Book, op: Op)
    requires op.Open? && !Refused(env, b, op) && env.exposureCap.Some?
    ensures Exposure(b) + ChargedCost(b.bankroll, op.entry.size, UnitCost(op.entry.side, op.price))
            <= b.bankroll * env.exposureCap.value
  {
  }

  lemma EntryExposure(b: Book, after: Book, ticker: string)
    requires ticker in after.positions && after.positions == b.positions[ticker := after.positions[ticker]]
    ensures Exposure(after) == Exposure(b) + CostBasis(after.positions[ticker]) - HeldBasis(b, ticker)
  {
    var before := map t | t in b.positions :: CostBasis(b.positions[t]);
    SumUpdate(before, ticker, CostBasis(after.positions[ticker]));
    assert before[ticker := CostBasis(after.positions[ticker])] == map t | t in after.positions :: CostBasis(after.positions[t]);
  }

  /** The book the i-th order of the call meets. */
  ghost function BookAt(env: Env, b: Book, order: seq<string>, check: Check, i: nat): Book
    requires Distinct(order) && AllPending(b, order) && i < |order|
    decreases |order|
  {
    if i == 0 then b
    else
      SettledShape(env, b, order[0], check);
      KeepsPending(b, order, Settled(env, b, order[0], check));
      BookAt(env, Settled(env, b, order[0], check), order[1..], check, i - 1)
  }

  lemma {:induction false} MeetsItsOrder(env: Env, b: Book, order: seq<string>, check: Check, i: nat)
    requires Distinct(order) && AllPending(b, order) && i < |order|
    ensures order[i] in BookAt(env, b, order, check, i).pending
    ensures FateOf(env, BookAt(env, b, order, check, i), order[i], check) == Fates(env, b, order, check)[i]
    decreases |order|
  {
    if i > 0 {
      var next := Settled(env, b, order[0], check);
      SettledShape(env, b, order[0], check);
      KeepsPending(b, order, next);
      MeetsItsOrder(env, next, order[1..], check, i - 1);
      assert Fates(env, b, order, check)[1..] == Fates(env, next, order[1..], check);
    }
  }

  /** The same of every fill of one call, each against the book and the bankroll it meets. */
  lemma EveryFillWithinExposureIff(env: Env, b: Book, order: seq<string>, check: Check, i: nat)
    requires Distinct(order) && AllPending(b, order) && env.exposureCap.Some?
    requires i < |order| && Fates(env, b, order, check)[i] == Traded
    ensures var met := BookAt(env, b, order, check, i);
            && order[i] in met.pending
            && (WithinCap(env, met, order[i], check) <==> ContractsFit(env, met, order[i], check))
            && (Sound(met, order[i], check) ==> WithinCap(env, met, order[i], check))
  {
    MeetsItsOrder(env, b, order, check, i);
    FillWithinExposureIff(env, BookAt(env, b, order, check, i), order[i], check);
  }

  /** A resting order for ten contracts at 50 cents, quoted at 50. */
  function RestingTen(): Order {
    Order(Yes, 10, 0.5, 0.0, 10.0, "limit", None, None, None)
  }

  function QuotedAtHalf(clock: string -> Reading): Check {
    Check(0.0, clock, Quotes(map[], map["T" := 0.5]), None, false)
  }

  /** One cent in debt, an empty book and half the bankroll as the cap: the order trades, buys nothing, and
      leaves an exposure of zero, which is over a cap of minus half a cent. */
  lemma FillMayExceedExposure(b: Book, clock: string -> Reading)
    requires b.bankroll == -0.01 && b.positions == map[] && b.pending == map["T" := RestingTen()]
    ensures var env := FlatEnv(0.0).(exposureCap := Some(0.5));
            FateOf(env, b, "T", QuotedAtHalf(clock)) == Traded && !WithinCap(env, b, "T", QuotedAtHalf(clock))
  {
    var env, check := FlatEnv(0.0).(exposureCap := Some(0.5)), QuotedAtHalf(clock);
    assert (map t | t in b.positions :: CostBasis(b.positions[t])) == map[];
    assert Exposure(b) == 0.0;
    assert FateOf(env, b, "T", check) == Traded;
    FillWithinExposureIff(env, b, "T", check);
  }
}
