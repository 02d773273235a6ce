/**
  services/paper_broker.py: the broker object, whose methods update its fields
  and its tables together. Each is proved against the operations of Ledger.
*/
module PaperBroker {
  import opened Wrappers
  import opened MapSums
  import opened KalshiFees
  import opened Ledger
  import opened LimitOrders
  import opened Equity
  import opened Restart
  import RiskManager

  /** One entry of the list check_pending_fills returns. */
  datatype Decision = Filled(trade: Trade) | FillRejected(ticker: string, side: Side, price: real, byGate: bool)

  class Broker {
    const terms: string -> Terms
    const risk: RiskManager.Manager?
    var bankroll: real
    var starting: real
    var positions: map<string, Position>
    var pending: map<string, Order>
    var tradeLog: seq<Trade>
    var lastTrade: map<string, real>
    var nextId: nat
    var tables: Tables

    ghost function Model(): Book
      reads this
    {
      Book(bankroll, starting, positions, pending, tradeLog, lastTrade, nextId)
    }

    ghost function Environment(): Env
    {
      Env(terms, if risk == null then None else risk.cfg.maxTotalExposurePct)
    }

    ghost predicate Halted()
      reads risk
    {
      risk != null && risk.halted
    }

    /** The stored tables say what the fields say. */
    ghost predicate Mirrored()
      reads this
    {
      tables == Stored(Model())
    }

    /** First run ever: seed the account and persist it. */
    constructor Fresh(starting: real, terms: string -> Terms, risk: RiskManager.Manager?)
      ensures Model() == FreshBook(starting) && Mirrored()
      ensures this.terms == terms && this.risk == risk
    {
      this.terms, this.risk := terms, risk;
      this.bankroll, this.starting := starting, starting;
      positions, pending, tradeLog, lastTrade, nextId := map[], map[], [], map[], 0;
      tables := Tables(starting, starting, map[], [], map[]);
    }

    /** Restart: the stored account wins, with the trades in whichever order ORDER BY timestamp returned them.
        Fields and tables agree exactly when that is the stored order. */
    constructor Reload(tables: Tables, log: seq<Trade>, nextId: nat, terms: string -> Terms, risk: RiskManager.Manager?)
      requires SortedCopy(tables.trades, log)
      ensures Model() == Reloaded(tables, log, nextId) && this.tables == tables
      ensures Mirrored() <==> log == tables.trades
      ensures StrictlyInOrder(tables.trades) ==> Mirrored()
      ensures this.terms == terms && this.risk == risk
    {
      this.terms, this.risk, this.tables, this.nextId := terms, risk, tables, nextId;
      bankroll, starting, positions, pending := tables.bankroll, tables.starting, tables.positions, tables.pending;
      tradeLog := log;
      lastTrade := LastTimes(log);
      if StrictlyInOrder(tables.trades) {
        StrictOrderIsUnique(tables.trades, log);
      }
    }

    /** sum(self.cost_basis(t) for t in self.positions). */
    method CurrentExposure() returns (total: real)
      ensures total == Exposure(Model())
    {
      total := 0.0;
      ghost var basis := map t | t in positions :: CostBasis(positions[t]);
      var todo := positions.Keys;
      assert basis == map t | t in todo :: basis[t];
      while todo != {}
        invariant todo <= positions.Keys
        invariant total + Sum(map t | t in todo :: basis[t]) == Sum(basis)
        decreases todo
      {
        var t :| t in todo;
        ghost var left := map s | s in todo :: basis[s];
        SumRemove(left, t);
        assert left - {t} == map s | s in todo - {t} :: basis[s];
        total := total + CostBasis(positions[t]);
        todo := todo - {t};
      }
    }

    /** Fills at the quoted price, or refuses and touches nothing. */
    method OpenPosition(ticker: string, entry: Entry, price: real, at: Reading) returns (trade: Option<Trade>)
      requires Mirrored()
      modifies this
      ensures Model() == Apply(Environment(), old(Model()), Open(ticker, entry, price, at, Halted())) && Mirrored()
      ensures trade.None? <==> Refused(Environment(), old(Model()), Open(ticker, entry, price, at, Halted()))
      ensures trade.Some? ==> tradeLog == old(tradeLog) + [trade.value]
    {
      if risk != null && risk.halted {
        return None;
      }
      var unitCost := UnitCost(entry.side, price);
      var cost := Priced(entry.size, unitCost);
      if bankroll < cost {
        cost := bankroll;
      }
      var size := if unitCost > 0.0 then Truncate(cost / unitCost) else 0;
      if risk != null {
        var exposure := CurrentExposure();
        if !RiskManager.WithinExposure(risk.cfg.maxTotalExposurePct, exposure, cost, bankroll) {
          return None;
        }
      }
      var fee := if entry.feeKind == Maker then MakerFee(size as real, price, terms(ticker))
                 else TakerFee(size as real, price, terms(ticker));
      bankroll := bankroll - (cost + fee);
      positions := positions[ticker := Position(entry.side, size, price, at.openedAt, fee, entry.holdToSettlement,
                                                entry.fingerprint)];
      var entered := Trade(nextId, ticker, entry.side, size, price, entry.reason, at.loggedAt, entry.fingerprint, fee,
                          entry.signalSeenAt, false);
      nextId := nextId + 1;
      tradeLog := tradeLog + [entered];
      lastTrade := lastTrade[ticker := entered.timestamp];
      tables := tables.(bankroll := bankroll, positions := tables.positions[ticker := positions[ticker]],
                        trades := tables.trades + [entered]);
      trade := Some(entered);
    }

    /** Sells the whole position, or does nothing when there is none. */
    method ClosePosition(ticker: string, exitPrice: real, reason: string, now: real) returns (trade: Option<Trade>)
      requires Mirrored()
      modifies this
      ensures Model() == Apply(Environment(), old(Model()), Close(ticker, exitPrice, reason, now)) && Mirrored()
      ensures trade.Some? <==> ticker in old(positions)
      ensures trade.Some? ==> tradeLog == old(tradeLog) + [trade.value]
    {
      if ticker !in positions {
        return None;
      }
      var p := positions[ticker];
      var fee := TakerFee(p.size as real, exitPrice, terms(ticker));
      var gross := Priced(p.size, UnitCost(p.side, exitPrice));
      bankroll := bankroll + (gross - fee);
      var closed := Trade(nextId, ticker, p.side, p.size, exitPrice, CLOSED + reason, now, p.fingerprint, fee, None, false);
      nextId := nextId + 1;
      tradeLog := tradeLog + [closed];
      positions := positions - {ticker};
      tables := tables.(bankroll := bankroll, positions := tables.positions - {ticker}, trades := tables.trades + [closed]);
      trade := Some(closed);
    }

    /** Rests an order without touching the bankroll; one per ticker. */
    method PlaceLimitOrder(ticker: string, order: Order) returns (placed: bool)
      requires Mirrored()
      modifies this
      ensures Model() == Apply(Environment(), old(Model()), Place(ticker, order)) && Mirrored()
      ensures placed <==> ticker !in old(pending) && order.size > 0
    {
      placed := ticker !in pending && order.size > 0;
      if placed {
        pending := pending[ticker := order];
        tables := tables.(pending := tables.pending[ticker := order]);
      }
    }

    method CancelPending(ticker: string)
      requires Mirrored() && ticker in pending
      modifies this
      ensures Model() == Apply(Environment(), old(Model()), Cancel(ticker)) && Mirrored()
    {
      pending := pending - {ticker};
      tables := tables.(pending := tables.pending - {ticker});
    }

    /** One order of the loop: cancelled and forgotten when expired, left alone while the market has not
        come to it, otherwise cancelled and either filled or reported as rejected. */
    method ResolveOrder(ticker: string, check: Check) returns (decision: Option<Decision>)
      requires Mirrored() && ticker in pending && check.halted == Halted()
      modifies this
      ensures Model() == Settled(Environment(), old(Model()), ticker, check) && Mirrored()
      ensures match FateOf(Environment(), old(Model()), ticker, check)
              case Waiting => decision.None?
              case Expired => decision.None?
              case GateRejected => decision.Some? && decision.value.FillRejected? && decision.value.byGate
              case RiskRejected => decision.Some? && decision.value.FillRejected? && !decision.value.byGate
              case Traded => decision.Some? && decision.value.Filled? && tradeLog == old(tradeLog) + [decision.value.trade]
      ensures tradeLog == old(tradeLog) + FilledIn(decision)
      ensures RejectedIn(decision) == RejectedOne(ticker, FateOf(Environment(), old(Model()), ticker, check))
      ensures decision.Some? && decision.value.FillRejected? ==>
                decision.value.ticker == ticker && decision.value.side == old(pending)[ticker].side
                && Quoted(old(pending)[ticker], ticker, check.quotes, decision.value.price)
    {
      ghost var env, b := Environment(), Model();
      SettledShape(env, b, ticker, check);
      var order := pending[ticker];
      if check.now >= order.expiresAt {
        CancelPending(ticker);
        return None;
      }
      var fillPrice := FillPrice(order, ticker, check.quotes);
      if fillPrice.None? {
        return None;
      }
      if UnitCost(order.side, fillPrice.value) > UnitCost(order.side, order.limitPrice) {
        return None;
      }
      if check.validate.Some? && !check.validate.value(ticker, order.side, fillPrice.value, order.confidence) {
        CancelPending(ticker);
        return Some(FillRejected(ticker, order.side, fillPrice.value, true));
      }
      CancelPending(ticker);
      var trade := OpenPosition(ticker, EntryFor(order), fillPrice.value, check.clock(ticker));
      decision := if trade.None? then Some(FillRejected(ticker, order.side, fillPrice.value, false))
                  else Some(Filled(trade.value));
    }

    /** check_pending_fills over the given order of the resting tickers: the fills it reports are exactly the
        trades it logged, in order, and the rejections exactly the orders rejected, with the gate that did it. */
    method CheckPendingFills(order: seq<string>, check: Check) returns (decisions: seq<Decision>)
      requires Mirrored() && Distinct(order) && AllPending(Model(), order) && check.halted == Halted()
      modifies this
      ensures Model() == Checked(Environment(), old(Model()), order, check) && Mirrored()
      ensures tradeLog == old(tradeLog) + Fills(decisions)
      ensures Rejections(decisions) == Rejected(order, Fates(Environment(), old(Model()), order, check))
      ensures |decisions| == |Fills(decisions)| + |Rejections(decisions)|
      ensures forall d :: d in decisions && d.FillRejected? ==>
                d.ticker in old(pending) && d.side == old(pending)[d.ticker].side
                && Quoted(old(pending)[d.ticker], d.ticker, check.quotes, d.price)
    {
      ghost var env := Environment();
      ghost var end, rejected := Checked(env, Model(), order, check), Rejected(order, Fates(env, Model(), order, check));
      decisions := [];
      var i := 0;
      while i < |order|
        invariant 0 <= i <= |order|
        invariant Mirrored() && Distinct(order[i..]) && AllPending(Model(), order[i..])
        invariant Checked(env, Model(), order[i..], check) == end
        invariant tradeLog == old(tradeLog) + Fills(decisions)
        invariant Rejections(decisions) + Rejected(order[i..], Fates(env, Model(), order[i..], check)) == rejected
        invariant |decisions| == |Fills(decisions)| + |Rejections(decisions)|
        invariant forall t :: t in pending ==> t in old(pending) && pending[t] == old(pending)[t]
        invariant forall d :: d in decisions && d.FillRejected? ==>
                    d.ticker in old(pending) && d.side == old(pending)[d.ticker].side
                    && Quoted(old(pending)[d.ticker], d.ticker, check.quotes, d.price)
      {
        assert order[i..][0] == order[i] && order[i..][1..] == order[i + 1..];
        ghost var before := decisions;
        CheckStep(env, Model(), order[i..], check);
        var decision := ResolveOrder(order[i], check);
        if decision.Some? {
          decisions := decisions + [decision.value];
        }
        DecisionAppend(before, decision, decisions);
        Associative(old(tradeLog), Fills(before), FilledIn(decision));
        Associative(Rejections(before), RejectedIn(decision), Rejected(order[i + 1..], Fates(env, Model(), order[i + 1..], check)));
        i := i + 1;
      }
      assert order[|order|..] == [];
    }

    /** Flattens every position it is given, at its latest quote or its own entry price. */
    method CloseAllPositions(order: seq<string>, prices: map<string, real>, asks: Option<map<string, real>>,
                             reason: string, clock: string -> real)
      returns (closed: seq<Trade>)
      requires Mirrored()
      modifies this
      ensures Model() == Flattened(Environment(), old(Model()), order, prices, asks, reason, clock) && Mirrored()
      ensures tradeLog == old(tradeLog) + closed
      ensures forall t :: t in closed ==> FlattenRow(old(Model()), order, prices, asks, reason, clock, t)
    {
      ghost var env, start := Environment(), Model();
      closed := [];
      var i := 0;
      while i < |order|
        invariant 0 <= i <= |order|
        invariant Mirrored() && tradeLog == old(tradeLog) + closed
        invariant Flattened(env, Model(), order[i..], prices, asks, reason, clock)
                  == Flattened(env, start, order, prices, asks, reason, clock)
      {
        assert order[i..][0] == order[i] && order[i..][1..] == order[i + 1..];
        var ticker := order[i];
        if ticker in positions {
          var p := positions[ticker];
          var price := if ticker in prices then prices[ticker] else p.entryPrice;
          if asks.Some? {
            var ask := if ticker in asks.value then Some(asks.value[ticker]) else None;
            price := ForcedExitQuote(p.side, Some(price), ask, p.entryPrice);
          }
          var trade := ClosePosition(ticker, price, reason, clock(ticker));
          closed := closed + [trade.value];
        }
        i := i + 1;
      }
      assert order[i..] == [];
      forall t | t in closed
        ensures FlattenRow(start, order, prices, asks, reason, clock, t)
      {
        var j :| 0 <= j < |closed| && closed[j] == t;
        FlattenSellsAtMarket(env, start, order, prices, asks, reason, clock, |start.trades| + j);
      }
    }

    /** Reverses one fabricated close, re-credits it at the corrected price if given, and flags the row,
        in the table and in memory. */
    method CorrectErroneousClose(id: nat, correctedPrice: Option<real>) returns (done: bool)
      requires Mirrored()
      modifies this
      ensures Model() == Apply(Environment(), old(Model()), Correct(id, correctedPrice)) && Mirrored()
      ensures done <==> Correctable(old(Model()), id)
    {
      var k := IndexOf(tables.trades, id);
      if k == |tables.trades| {
        return false;
      }
      var t := tables.trades[k];
      if t.excluded || !IsClose(t.reason) {
        return false;
      }
      var reversed := Priced(t.size, UnitCost(t.side, t.price)) - t.fee;
      var credit := 0.0;
      if correctedPrice.Some? {
        var gross := Priced(t.size, UnitCost(t.side, correctedPrice.value));
        credit := gross - TakerFee(t.size as real, correctedPrice.value, terms(t.ticker));
      }
      bankroll := bankroll - reversed + credit;
      tables := tables.(bankroll := bankroll, trades := tables.trades[k := t.(excluded := true)]);
      var i := 0;
      while i < |tradeLog| && tradeLog[i].id != id
        invariant 0 <= i <= k
        invariant forall j :: 0 <= j < i ==> tradeLog[j].id != id
      {
        i := i + 1;
      }
      tradeLog := tradeLog[i := tradeLog[i].(excluded := true)];
      return true;
    }

    /** Wipes the stored account and starts fresh. */
    method Reset(startingBankroll: real)
      modifies this
      ensures Model() == FreshBook(startingBankroll).(nextId := old(nextId)) && Mirrored()
    {
      bankroll, starting := startingBankroll, startingBankroll;
      positions, tradeLog, lastTrade, pending := map[], [], map[], map[];
      tables := Tables(startingBankroll, startingBankroll, map[], [], map[]);
    }
  }

  /** The rejected orders of a call, and whether the validator did it. */
  function Rejected(order: seq<string>, fates: seq<Fate>): seq<(string, bool)>
    requires |order| == |fates|
  {
    if order == [] then []
    else RejectedOne(order[0], fates[0]) + Rejected(order[1..], fates[1..])
  }

  function RejectedOne(ticker: string, fate: Fate): seq<(string, bool)> {
    match fate
    case GateRejected => [(ticker, true)]
    case RiskRejected => [(ticker, false)]
    case _ => []
  }

  /** One step of the loop, against the rest of the call. */
  lemma CheckStep(env: Env, b: Book, order: seq<string>, check: Check)
    requires order != [] && Distinct(order) && AllPending(b, order)
    ensures var next, fate := Settled(env, b, order[0], check), FateOf(env, b, order[0], check);
            && Distinct(order[1..]) && AllPending(next, order[1..])
            && Checked(env, b, order, check) == Checked(env, next, order[1..], check)
            && (fate != Traded ==> next.trades == b.trades)
            && (forall t :: t in next.pending ==> t in b.pending && next.pending[t] == b.pending[t])
            && Rejected(order, Fates(env, b, order, check))
               == RejectedOne(order[0], fate) + Rejected(order[1..], Fates(env, next, order[1..], check))
  {
    SettledShape(env, b, order[0], check);
    KeepsPending(b, order, Settled(env, b, order[0], check));
    assert Fates(env, b, order, check)[1..] == Fates(env, Settled(env, b, order[0], check), order[1..], check);
  }

  function FilledIn(d: Option<Decision>): seq<Trade> {
    if d.Some? && d.value.Filled? then [d.value.trade] else []
  }

  function RejectedIn(d: Option<Decision>): seq<(string, bool)> {
    if d.Some? && d.value.FillRejected? then [(d.value.ticker, d.value.byGate)] else []
  }

  /** The trades reported as filled, in the order reported. */
  function Fills(decisions: seq<Decision>): seq<Trade> {
    if decisions == [] then []
    else Fills(decisions[..|decisions| - 1]) + FilledIn(Some(decisions[|decisions| - 1]))
  }

  /** The tickers reported as rejected, and by which gate, in the order reported. */
  function Rejections(decisions: seq<Decision>): seq<(string, bool)> {
    if decisions == [] then []
    else Rejections(decisions[..|decisions| - 1]) + RejectedIn(Some(decisions[|decisions| - 1]))
  }

  lemma {:induction false} DecisionAppend(before: seq<Decision>, d: Option<Decision>, after: seq<Decision>)
    requires after == if d.Some? then before + [d.value] else before
    ensures Fills(after) == Fills(before) + FilledIn(d)
    ensures Rejections(after) == Rejections(before) + RejectedIn(d)
    ensures |after| - |before| == |FilledIn(d)| + |RejectedIn(d)|
  {
    if d.Some? {
      assert after[..|before|] == before && after[|after| - 1] == d.value && d == Some(d.value);
    } else {
      assert Fills(before) + [] == Fills(before) && Rejections(before) + [] == Rejections(before);
    }
  }
}
