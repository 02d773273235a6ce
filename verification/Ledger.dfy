/**
  The paper account of services/paper_broker.py as values: the book, its
  primitive operations, and where every dollar of it goes. Prices are YES
  prices and money is exact. Trade ids come from a counter that stands for
  uuid4's fresh ids.
*/
module Ledger {
  import opened Wrappers
  import opened MapSums
  import opened KalshiFees
  import RiskManager

  datatype Position = Position(
    side: Side, size: int, entryPrice: real, openedAt: real, entryFee: real, holdToSettlement: bool,
    fingerprint: Option<string>)

  datatype Order = Order(
    side: Side, size: int, limitPrice: real, placedAt: real, expiresAt: real, reason: string,
    fingerprint: Option<string>, signalSeenAt: Option<real>, confidence: Option<real>)

  datatype Trade = Trade(
    id: nat, ticker: string, side: Side, size: int, price: real, reason: string, timestamp: real,
    fingerprint: Option<string>, fee: real, signalSeenAt: Option<real>, excluded: bool)

  datatype Book = Book(
    bankroll: real, starting: real, positions: map<string, Position>, pending: map<string, Order>,
    trades: seq<Trade>, lastTrade: map<string, real>, nextId: nat)

  datatype FeeKind = Taker | Maker

  /** What an entry asks for, beyond ticker and price. */
  datatype Entry = Entry(
    side: Side, size: int, reason: string, feeKind: FeeKind, fingerprint: Option<string>,
    signalSeenAt: Option<real>, holdToSettlement: bool)

  /** open_position reads the clock twice: for the position's opened_at, then for the trade's timestamp. */
  datatype Reading = Reading(openedAt: real, loggedAt: real)

  /** The fee terms of each ticker and the exposure cap of the wired-in risk manager, if any. */
  datatype Env = Env(terms: string -> Terms, exposureCap: Option<real>)

  datatype Op =
    | Open(ticker: string, entry: Entry, price: real, at: Reading, halted: bool)
    | Close(ticker: string, exitPrice: real, reason: string, now: real)
    | Place(ticker: string, order: Order)
    | Cancel(ticker: string)
    | Correct(id: nat, correctedPrice: Option<real>)

  const CLOSED: string := "closed: "

  predicate IsClose(reason: string) {
    |reason| >= 7 && reason[..7] == "closed:"
  }

  function FeeOf(env: Env, kind: FeeKind, size: int, price: real, ticker: string): real {
    match kind
    case Taker => TakerFee(size as real, price, env.terms(ticker))
    case Maker => MakerFee(size as real, price, env.terms(ticker))
  }

  /** int(x): truncation toward zero. */
  function Truncate(x: real): int {
    if x >= 0.0 then x.Floor else -((-x).Floor)
  }

  /** size * unit_cost, the form every dollar figure of a position takes. */
  function Priced(size: int, unitCost: real): real {
    size as real * unitCost
  }

  function CostBasis(p: Position): real {
    Priced(p.size, UnitCost(p.side, p.entryPrice))
  }

  ghost function Exposure(b: Book): real {
    Sum(map t | t in b.positions :: CostBasis(b.positions[t]))
  }

  /** size * unit_cost, clamped to the bankroll. */
  function ChargedCost(bankroll: real, size: int, unitCost: real): real {
    var cost := Priced(size, unitCost);
    if bankroll < cost then bankroll else cost
  }

  function ActualSize(cost: real, unitCost: real): int {
    if unitCost > 0.0 then Truncate(cost / unitCost) else 0
  }

  ghost predicate Refused(env: Env, b: Book, op: Op)
    requires op.Open?
  {
    op.halted || !RiskManager.WithinExposure(env.exposureCap, Exposure(b),
                                             ChargedCost(b.bankroll, op.entry.size, UnitCost(op.entry.side, op.price)),
                                             b.bankroll)
  }

  function Opened(env: Env, b: Book, ticker: string, entry: Entry, price: real, at: Reading): Book {
    var unitCost := UnitCost(entry.side, price);
    var cost := ChargedCost(b.bankroll, entry.size, unitCost);
    var size := ActualSize(cost, unitCost);
    var fee := FeeOf(env, entry.feeKind, size, price, ticker);
    b.(bankroll := b.bankroll - (cost + fee),
       positions := b.positions[ticker := Position(entry.side, size, price, at.openedAt, fee, entry.holdToSettlement,
                                                   entry.fingerprint)],
       trades := b.trades + [Trade(b.nextId, ticker, entry.side, size, price, entry.reason, at.loggedAt,
                                   entry.fingerprint, fee, entry.signalSeenAt, false)],
       lastTrade := b.lastTrade[ticker := at.loggedAt],
       nextId := b.nextId + 1)
  }

  /** What selling the position at this price pays, after the fee. */
  function CashBack(env: Env, ticker: string, side: Side, size: int, price: real): real {
    Priced(size, UnitCost(side, price)) - TakerFee(size as real, price, env.terms(ticker))
  }

  function Closed(env: Env, b: Book, ticker: string, exitPrice: real, reason: string, now: real): Book
    requires ticker in b.positions
  {
    var p := b.positions[ticker];
    b.(bankroll := b.bankroll + CashBack(env, ticker, p.side, p.size, exitPrice),
       positions := b.positions - {ticker},
       trades := b.trades + [Trade(b.nextId, ticker, p.side, p.size, exitPrice, CLOSED + reason, now, p.fingerprint,
                                   TakerFee(p.size as real, exitPrice, env.terms(ticker)), None, false)],
       nextId := b.nextId + 1)
  }

  /** The index of the trade with this id, or |trades|. */
  function IndexOf(trades: seq<Trade>, id: nat): (k: nat)
    ensures k <= |trades|
    ensures k < |trades| ==> trades[k].id == id
    ensures forall j :: 0 <= j < k ==> trades[j].id != id
  {
    if trades == [] || trades[0].id == id then 0 else 1 + IndexOf(trades[1..], id)
  }

  /** A trade that correct_erroneous_close will touch. */
  predicate Correctable(b: Book, id: nat) {
    var k := IndexOf(b.trades, id);
    k < |b.trades| && !b.trades[k].excluded && IsClose(b.trades[k].reason)
  }

  function CorrectionDelta(env: Env, t: Trade, correctedPrice: Option<real>): real {
    -(Priced(t.size, UnitCost(t.side, t.price)) - t.fee)
    + if correctedPrice.Some? then CashBack(env, t.ticker, t.side, t.size, correctedPrice.value) else 0.0
  }

  function Corrected(env: Env, b: Book, id: nat, correctedPrice: Option<real>): Book
    requires Correctable(b, id)
  {
    var k := IndexOf(b.trades, id);
    b.(bankroll := b.bankroll + CorrectionDelta(env, b.trades[k], correctedPrice),
       trades := b.trades[k := b.trades[k].(excluded := true)])
  }

  ghost function Apply(env: Env, b: Book, op: Op): Book {
    match op
    case Open(ticker, entry, price, at, _) => if Refused(env, b, op) then b else Opened(env, b, ticker, entry, price, at)
    case Close(ticker, exitPrice, reason, now) =>
      if ticker in b.positions then Closed(env, b, ticker, exitPrice, reason, now) else b
    case Place(ticker, order) =>
      if ticker in b.pending || order.size <= 0 then b else b.(pending := b.pending[ticker := order])
    case Cancel(ticker) => b.(pending := b.pending - {ticker})
    case Correct(id, correctedPrice) => if Correctable(b, id) then Corrected(env, b, id, correctedPrice) else b
  }

  ghost function Run(env: Env, b: Book, ops: seq<Op>): Book
    decreases |ops|
  {
    if ops == [] then b else Run(env, Apply(env, b, ops[0]), ops[1..])
  }

  lemma {:induction false} RunAppend(env: Env, b: Book, first: seq<Op>, then_: seq<Op>)
    ensures Run(env, b, first + then_) == Run(env, Run(env, b, first), then_)
    decreases |first|
  {
    if first == [] {
      assert first + then_ == then_;
    } else {
      assert (first + then_)[1..] == first[1..] + then_;
      RunAppend(env, Apply(env, b, first[0]), first[1..], then_);
    }
  }

  function MarkToMarket(p: Position, price: real): real {
    (if p.side == Yes then 1.0 else -1.0) * (price - p.entryPrice) * p.size as real
  }

  // ---- Each operation in full ----

  /** What one contract costs: the YES price, or what is left of a dollar. */
  predicate CostsEach(side: Side, price: real, each: real) {
    each == if side == Yes then price else 1.0 - price
  }

  /** The size is what the money buys, truncated toward zero; at no positive cost it is zero. */
  predicate Buys(money: real, each: real, size: int) {
    if each <= 0.0 then size == 0
    else if money >= 0.0 then 0 <= size && size as real * each <= money < (size + 1) as real * each
    else size <= 0 && (size - 1) as real * each < money <= size as real * each
  }

  /** The prospective cost breaks the exposure cap, if there is one. */
  ghost predicate CapExceeded(env: Env, b: Book, op: Op)
    requires op.Open?
  {
    var each := if op.entry.side == Yes then op.price else 1.0 - op.price;
    var asked := op.entry.size as real * each;
    env.exposureCap.Some?
    && Exposure(b) + (if b.bankroll < asked then b.bankroll else asked) > b.bankroll * env.exposureCap.value
  }

  /** An entry is refused exactly under a halt, or where its clamped cost on top of the book's breaks the cap. */
  lemma EntryRefusedIff(env: Env, b: Book, op: Op)
    requires op.Open?
    ensures Refused(env, b, op) <==> op.halted || CapExceeded(env, b, op)
    ensures Refused(env, b, op) ==> Apply(env, b, op) == b
    ensures !Refused(env, b, op) ==> |Apply(env, b, op).trades| == |b.trades| + 1
  {
    var each := if op.entry.side == Yes then op.price else 1.0 - op.price;
    assert UnitCost(op.entry.side, op.price) == each;
    ClampedInFull(b.bankroll, op.entry.size, each);
    RiskManager.WithinExposureIff(env.exposureCap, Exposure(b), ChargedCost(b.bankroll, op.entry.size, each), b.bankroll);
  }

  lemma ClampedInFull(bankroll: real, size: int, each: real)
    ensures Priced(size, each) == size as real * each
    ensures ChargedCost(bankroll, size, each) == if bankroll < size as real * each then bankroll else size as real * each
  {
  }

  /** An accepted entry: what is charged is the cost asked for or all there is, the contracts are what that buys,
      the fee is theirs at the quoted price, and position, trade row and cooldown all say so; resting orders and
      every other position and cooldown stay. */
  lemma EntryInFull(env: Env, b: Book, op: Op, each: real)
    requires op.Open? && !Refused(env, b, op) && CostsEach(op.entry.side, op.price, each)
    ensures var after, asked := Apply(env, b, op), op.entry.size as real * each;
            var charged := if asked <= b.bankroll then asked else b.bankroll;
            && op.ticker in after.positions && |after.trades| == |b.trades| + 1
            && var p, t := after.positions[op.ticker], after.trades[|b.trades|];
               && after == b.(bankroll := b.bankroll - charged - p.entryFee, positions := b.positions[op.ticker := p],
                              trades := b.trades + [t], lastTrade := b.lastTrade[op.ticker := op.at.loggedAt],
                              nextId := b.nextId + 1)
               && Buys(charged, each, p.size)
               && p.entryFee == (if op.entry.feeKind == Maker then MakerFee(p.size as real, op.price, env.terms(op.ticker))
                                 else TakerFee(p.size as real, op.price, env.terms(op.ticker)))
               && p == Position(op.entry.side, p.size, op.price, op.at.openedAt, p.entryFee, op.entry.holdToSettlement,
                                op.entry.fingerprint)
               && t == Trade(b.nextId, op.ticker, op.entry.side, p.size, op.price, op.entry.reason, op.at.loggedAt,
                             op.entry.fingerprint, p.entryFee, op.entry.signalSeenAt, false)
  {
    ClampedInFull(b.bankroll, op.entry.size, each);
    BuysWholeContracts(ChargedCost(b.bankroll, op.entry.size, each), each);
    assert UnitCost(op.entry.side, op.price) == each;
  }

  lemma BuysWholeContracts(money: real, each: real)
    ensures Buys(money, each, ActualSize(money, each))
  {
    if each > 0.0 {
      var q := money / each;
      assert q * each == money;
      var n := ActualSize(money, each);
      TruncateBounds(q);
      SignOfQuotient(q, each);
      PricedCompare(n, q, each);
      PricedCompare(n + 1, q, each);
      PricedCompare(n - 1, q, each);
    }
  }

  /** A close: the whole position is sold at the exit price, the proceeds less the taker fee come back, and the
      row carries what the position was; orders, cooldowns and every other position stay. */
  lemma CloseInFull(env: Env, b: Book, op: Op, each: real)
    requires op.Close? && op.ticker in b.positions && CostsEach(b.positions[op.ticker].side, op.exitPrice, each)
    ensures var p := b.positions[op.ticker];
            var fee := TakerFee(p.size as real, op.exitPrice, env.terms(op.ticker));
            Apply(env, b, op)
            == b.(bankroll := b.bankroll + p.size as real * each - fee, positions := b.positions - {op.ticker},
                  trades := b.trades + [Trade(b.nextId, op.ticker, p.side, p.size, op.exitPrice, "closed: " + op.reason, op.now,
                                              p.fingerprint, fee, None, false)],
                  nextId := b.nextId + 1)
  {
  }

  /** An order rests exactly when its ticker has none and it asks for something, and moves nothing else; a cancel
      takes out that one order. */
  lemma OrdersInFull(env: Env, b: Book, ticker: string, order: Order, t: string)
    ensures var placed := Apply(env, b, Place(ticker, order));
            && placed == b.(pending := placed.pending)
            && (t != ticker ==> (t in placed.pending <==> t in b.pending))
            && (t in b.pending ==> t in placed.pending && placed.pending[t] == b.pending[t])
            && (ticker !in b.pending ==> (ticker in placed.pending <==> order.size > 0))
            && (ticker !in b.pending && order.size > 0 ==> placed.pending[ticker] == order)
    ensures var cancelled := Apply(env, b, Cancel(ticker));
            && cancelled == b.(pending := cancelled.pending) && ticker !in cancelled.pending
            && (t != ticker ==> (t in cancelled.pending <==> t in b.pending))
            && (t in cancelled.pending ==> cancelled.pending[t] == b.pending[t])
  {
  }

  /** A correction takes back what the close paid, and pays the same contracts at the corrected price less a fresh
      fee if one is given; it moves nothing else but the row's flag. */
  lemma CorrectionInFull(env: Env, b: Book, id: nat, corrected: Option<real>, wrong: real, right: real)
    requires Correctable(b, id)
    requires var t := b.trades[IndexOf(b.trades, id)];
             && CostsEach(t.side, t.price, wrong) && (corrected.Some? ==> CostsEach(t.side, corrected.value, right))
    ensures var after, k := Apply(env, b, Correct(id, corrected)), IndexOf(b.trades, id);
            var t := b.trades[k];
            && after == b.(bankroll := after.bankroll, trades := b.trades[k := t.(excluded := true)])
            && after.bankroll == b.bankroll - (t.size as real * wrong - t.fee)
                 + if corrected.None? then 0.0
                   else t.size as real * right - TakerFee(t.size as real, corrected.value, env.terms(t.ticker))
  {
  }

  // ---- Where the money is ----

  /** The part of an entry's charge that bought no whole contract. */
  function Slack(bankroll: real, size: int, unitCost: real): real {
    var cost := ChargedCost(bankroll, size, unitCost);
    cost - Priced(ActualSize(cost, unitCost), unitCost)
  }

  /** The book with its books kept: the slack of each open position, the realized profit (net of slack) of
      the closed ones, and what corrections changed. */
  datatype Account = Account(book: Book, slack: map<string, real>, realized: real, corrected: real)

  function Invested(p: Position, slack: real): real {
    CostBasis(p) + p.entryFee + slack
  }

  ghost predicate Tracked(a: Account) {
    a.slack.Keys == a.book.positions.Keys
  }

  ghost function OpenTotal(a: Account): real
    requires Tracked(a)
  {
    Sum(InvestedIn(a.book.positions, a.slack))
  }

  ghost function InvestedIn(positions: map<string, Position>, slack: map<string, real>): map<string, real>
    requires slack.Keys == positions.Keys
  {
    map t | t in positions :: Invested(positions[t], slack[t])
  }

  /** What the bankroll falls short of the starting one less everything invested, plus everything gained. */
  ghost function Shortfall(a: Account): real
    requires Tracked(a)
  {
    a.book.starting - OpenTotal(a) + a.realized + a.corrected - a.book.bankroll
  }

  ghost function Track(env: Env, a: Account, op: Op): (after: Account)
    requires Tracked(a)
    ensures Tracked(after) && after.book == Apply(env, a.book, op)
  {
    var b := a.book;
    var after := a.(book := Apply(env, b, op));
    match op
    case Open(ticker, entry, price, _, _) =>
      if Refused(env, b, op) then a
      else after.(slack := a.slack[ticker := Slack(b.bankroll, entry.size, UnitCost(entry.side, price))])
    case Close(ticker, exitPrice, _, _) =>
      if ticker !in b.positions then a
      else
        var p := b.positions[ticker];
        var fee := TakerFee(p.size as real, exitPrice, env.terms(ticker));
        after.(slack := a.slack - {ticker},
               realized := a.realized + (MarkToMarket(p, exitPrice) - p.entryFee - fee) - a.slack[ticker])
    case Correct(id, correctedPrice) =>
      if Correctable(b, id)
      then after.(corrected := a.corrected + CorrectionDelta(env, b.trades[IndexOf(b.trades, id)], correctedPrice))
      else a
    case _ => after
  }

  ghost function TrackRun(env: Env, a: Account, ops: seq<Op>): (after: Account)
    requires Tracked(a)
    ensures Tracked(after)
    decreases |ops|
  {
    if ops == [] then a else TrackRun(env, Track(env, a, ops[0]), ops[1..])
  }

  /** Selling at a price pays the cost basis plus the marked gain, less the fee. */
  lemma BasisPlusMark(p: Position, price: real)
    ensures CostBasis(p) + MarkToMarket(p, price) == Priced(p.size, UnitCost(p.side, price))
  {
    var n := p.size as real;
    assert (price - p.entryPrice) * n == n * price - n * p.entryPrice;
    if p.side == No {
      assert -1.0 * (price - p.entryPrice) == p.entryPrice - price;
      assert (p.entryPrice - price) * n == n * p.entryPrice - n * price;
      assert n * (1.0 - p.entryPrice) == n - n * p.entryPrice && n * (1.0 - price) == n - n * price;
    }
  }

  /** Cost basis, fee and slack of an entry add up to what it was charged. */
  lemma EntryChargedInFull(env: Env, b: Book, op: Op)
    requires op.Open?
    ensures var unitCost := UnitCost(op.entry.side, op.price);
            Invested(Opened(env, b, op.ticker, op.entry, op.price, op.at).positions[op.ticker],
                     Slack(b.bankroll, op.entry.size, unitCost))
            == b.bankroll - Opened(env, b, op.ticker, op.entry, op.price, op.at).bankroll
  {
  }

  /** A position that the operation opens over. */
  ghost predicate OpensOver(env: Env, b: Book, op: Op) {
    op.Open? && !Refused(env, b, op) && op.ticker in b.positions
  }

  /** What was invested in the positions that a run opened over. */
  ghost function Overwritten(env: Env, a: Account, ops: seq<Op>): real
    requires Tracked(a)
    decreases |ops|
  {
    if ops == [] then 0.0
    else
      (if OpensOver(env, a.book, ops[0]) then Invested(a.book.positions[ops[0].ticker], a.slack[ops[0].ticker]) else 0.0)
      + Overwritten(env, Track(env, a, ops[0]), ops[1..])
  }

  /** Putting a position in, for what it costs, loses what was invested in the one it replaces. */
  lemma AdditionConserves(a: Account, after: Account, ticker: string, p: Position, slack: real)
    requires Tracked(a) && after.realized == a.realized && after.corrected == a.corrected
    requires after.book.positions == a.book.positions[ticker := p] && after.slack == a.slack[ticker := slack]
    requires after.book.starting == a.book.starting && after.book.bankroll == a.book.bankroll - Invested(p, slack)
    ensures Shortfall(after)
            == Shortfall(a) + if ticker in a.book.positions then Invested(a.book.positions[ticker], a.slack[ticker]) else 0.0
  {
    var invested := InvestedIn(a.book.positions, a.slack);
    SumUpdate(invested, ticker, Invested(p, slack));
    assert invested[ticker := Invested(p, slack)] == InvestedIn(after.book.positions, after.slack);
  }

  lemma OpenConserves(env: Env, a: Account, op: Op)
    requires op.Open? && Tracked(a) && !Refused(env, a.book, op)
    ensures Shortfall(Track(env, a, op))
            == Shortfall(a)
               + if op.ticker in a.book.positions then Invested(a.book.positions[op.ticker], a.slack[op.ticker]) else 0.0
  {
    var after := Track(env, a, op);
    EntryChargedInFull(env, a.book, op);
    AdditionConserves(a, after, op.ticker, after.book.positions[op.ticker], after.slack[op.ticker]);
  }

  /** Taking a position out keeps the books if the bankroll gains what was invested plus the recorded gain. */
  lemma RemovalConserves(a: Account, after: Account, ticker: string, invested: real, gain: real)
    requires Tracked(a) && ticker in a.book.positions
    requires after.book.positions == a.book.positions - {ticker} && after.slack == a.slack - {ticker}
    requires invested == InvestedIn(a.book.positions, a.slack)[ticker]
    requires after.book.bankroll == a.book.bankroll + invested + gain && after.realized == a.realized + gain
    requires after.book.starting == a.book.starting && after.corrected == a.corrected
    ensures Shortfall(after) == Shortfall(a)
  {
    SumRemove(InvestedIn(a.book.positions, a.slack), ticker);
    assert InvestedIn(a.book.positions, a.slack) - {ticker} == InvestedIn(after.book.positions, after.slack);
  }

  lemma CloseConserves(env: Env, a: Account, op: Op)
    requires op.Close? && Tracked(a) && op.ticker in a.book.positions
    ensures Shortfall(Track(env, a, op)) == Shortfall(a)
  {
    var p := a.book.positions[op.ticker];
    BasisPlusMark(p, op.exitPrice);
    var fee := TakerFee(p.size as real, op.exitPrice, env.terms(op.ticker));
    var gain := (MarkToMarket(p, op.exitPrice) - p.entryFee - fee) - a.slack[op.ticker];
    RemovalConserves(a, Track(env, a, op), op.ticker, Invested(p, a.slack[op.ticker]), gain);
  }

  lemma StepConserves(env: Env, a: Account, op: Op)
    requires Tracked(a)
    ensures Shortfall(Track(env, a, op)) == Shortfall(a) + Overwritten(env, a, [op])
  {
    assert [op][1..] == [];
    if op.Open? && !Refused(env, a.book, op) {
      OpenConserves(env, a, op);
    } else if op.Close? && op.ticker in a.book.positions {
      CloseConserves(env, a, op);
    }
  }

  /** Ledger conservation over every run of opens, closes, orders and corrections: the bankroll is the
      starting bankroll, less cost basis, entry fee and slack of every open position, plus realized profit
      less slack of every closed one, plus corrections, less what was invested in positions opened over. */
  lemma {:induction false} LedgerConserved(env: Env, a: Account, ops: seq<Op>)
    requires Tracked(a)
    ensures Shortfall(TrackRun(env, a, ops)) == Shortfall(a) + Overwritten(env, a, ops)
    ensures TrackRun(env, a, ops).book == Run(env, a.book, ops)
    decreases |ops|
  {
    if ops != [] {
      StepConserves(env, a, ops[0]);
      assert [ops[0]][1..] == [];
      LedgerConserved(env, Track(env, a, ops[0]), ops[1..]);
    }
  }

  // ---- One entry per ticker ----

  /** A well-formed entry on money that is there: what a caller sees before the call. */
  predicate Funded(env: Env, b: Book, op: Op) {
    op.Open? ==> b.bankroll > 0.0 && op.entry.size > 0 && 0.0 < op.price < 1.0 && NonNegative(env.terms(op.ticker))
  }

  ghost predicate AllFunded(env: Env, b: Book, ops: seq<Op>)
    decreases |ops|
  {
    ops == [] || (Funded(env, b, ops[0]) && AllFunded(env, Apply(env, b, ops[0]), ops[1..]))
  }

  ghost predicate NeverOpensOver(env: Env, b: Book, ops: seq<Op>)
    decreases |ops|
  {
    ops == [] || (!OpensOver(env, b, ops[0]) && NeverOpensOver(env, Apply(env, b, ops[0]), ops[1..]))
  }

  ghost predicate AllInvested(a: Account)
    requires Tracked(a)
  {
    forall t :: t in a.book.positions ==> Invested(a.book.positions[t], a.slack[t]) > 0.0
  }

  /** A funded entry is charged something. */
  lemma FundedEntryCosts(env: Env, b: Book, op: Op)
    requires op.Open? && Funded(env, b, op)
    ensures Opened(env, b, op.ticker, op.entry, op.price, op.at).bankroll < b.bankroll
  {
    var unitCost := UnitCost(op.entry.side, op.price);
    PricedCompare(0, op.entry.size as real, unitCost);
    PricedNext(0, unitCost);
    var size := ActualSize(ChargedCost(b.bankroll, op.entry.size, unitCost), unitCost);
    FeesNonNegative(env, op.entry.feeKind, size, op.price, op.ticker);
  }

  lemma FeesNonNegative(env: Env, kind: FeeKind, size: int, price: real, ticker: string)
    requires NonNegative(env.terms(ticker))
    ensures FeeOf(env, kind, size, price, ticker) >= 0.0
  {
    MakerNeverDearer(size as real, price, env.terms(ticker));
  }

  lemma StepKeepsInvested(env: Env, a: Account, op: Op)
    requires Tracked(a) && AllInvested(a) && Funded(env, a.book, op)
    ensures AllInvested(Track(env, a, op))
  {
    if op.Open? && !Refused(env, a.book, op) {
      EntryChargedInFull(env, a.book, op);
      FundedEntryCosts(env, a.book, op);
    }
  }

  lemma {:induction false} NothingOverwritten(env: Env, a: Account, ops: seq<Op>)
    requires Tracked(a) && NeverOpensOver(env, a.book, ops)
    ensures Overwritten(env, a, ops) == 0.0
    decreases |ops|
  {
    if ops != [] {
      NothingOverwritten(env, Track(env, a, ops[0]), ops[1..]);
    }
  }

  lemma {:induction false} OverwrittenPositive(env: Env, a: Account, ops: seq<Op>)
    requires Tracked(a) && AllInvested(a) && AllFunded(env, a.book, ops)
    ensures Overwritten(env, a, ops) >= 0.0
    ensures !NeverOpensOver(env, a.book, ops) ==> Overwritten(env, a, ops) > 0.0
    decreases |ops|
  {
    if ops != [] {
      StepKeepsInvested(env, a, ops[0]);
      OverwrittenPositive(env, Track(env, a, ops[0]), ops[1..]);
    }
  }

  /** Open investments and realized gains explain the bankroll at the end of a run if no entry was accepted
      on a ticker that already held a position; and only if, where every position has something invested in
      it and every entry is funded. */
  lemma AccountedForIffNeverOpenedOver(env: Env, a: Account, ops: seq<Op>)
    requires Tracked(a) && Shortfall(a) == 0.0
    ensures NeverOpensOver(env, a.book, ops) ==> Shortfall(TrackRun(env, a, ops)) == 0.0
    ensures AllInvested(a) && AllFunded(env, a.book, ops) ==>
              (Shortfall(TrackRun(env, a, ops)) == 0.0 <==> NeverOpensOver(env, a.book, ops))
  {
    LedgerConserved(env, a, ops);
    if NeverOpensOver(env, a.book, ops) {
      NothingOverwritten(env, a, ops);
    } else if AllInvested(a) && AllFunded(env, a.book, ops) {
      OverwrittenPositive(env, a, ops);
    }
  }

  /** Whatever the funding, one entry over a held ticker leaves unexplained exactly what was invested in the
      position it replaces: nothing only if that was nothing, as for one opened on an empty bankroll. */
  lemma OpeningOverLosesTheInvested(env: Env, a: Account, op: Op)
    requires Tracked(a) && Shortfall(a) == 0.0 && OpensOver(env, a.book, op)
    ensures Shortfall(Track(env, a, op)) == Invested(a.book.positions[op.ticker], a.slack[op.ticker])
  {
    OpenConserves(env, a, op);
  }

  function FreshBook(bankroll: real): Book {
    Book(bankroll, bankroll, map[], map[], [], map[], 0)
  }

  /** Every ticker at one multiplier, and no exposure cap. */
  function FlatEnv(multiplier: real): Env {
    Env(_ => Terms(None, multiplier, false, false), None)
  }

  /** A taker order for ten contracts at 50 cents. */
  function TenAtHalf(at: Reading): Op {
    Open("T", Entry(Yes, 10, "whale print", Taker, None, None, false), 0.5, at, false)
  }

  lemma TenAtHalfCostsFive(b: Book, at: Reading)
    requires b.bankroll >= 5.0
    ensures !Refused(FlatEnv(0.0), b, TenAtHalf(at))
    ensures Apply(FlatEnv(0.0), b, TenAtHalf(at)).bankroll == b.bankroll - 5.0
  {
    assert ActualSize(5.0, 0.5) == 10;
  }

  /** Two accepted entries in a row on one free ticker: the account loses what the first was charged. */
  lemma ReopeningLosesTheFirstCharge(env: Env, a: Account, first: Op, second: Op)
    requires Tracked(a) && first.Open? && second.Open? && first.ticker == second.ticker
    requires first.ticker !in a.book.positions && !Refused(env, a.book, first)
    requires !Refused(env, Apply(env, a.book, first), second)
    ensures Shortfall(Track(env, Track(env, a, first), second))
            == Shortfall(a) + a.book.bankroll - Apply(env, a.book, first).bankroll
  {
    EntryChargedInFull(env, a.book, first);
    OpenConserves(env, a, first);
    OpenConserves(env, Track(env, a, first), second);
  }

  /** An account starts explained. */
  lemma FreshIsExplained(bankroll: real)
    ensures Shortfall(Account(FreshBook(bankroll), map[], 0.0, 0.0)) == 0.0
  {
    var a := Account(FreshBook(bankroll), map[], 0.0, 0.0);
    assert InvestedIn(a.book.positions, a.slack) == map[];
  }

  /** Ten contracts at 50 cents bought twice on one free ticker cost 10 dollars, of which the account
      explains only 5. */
  lemma BuyingTwiceLosesTheFirst(a: Account, first: Reading, second: Reading)
    requires Tracked(a) && a.book.bankroll >= 10.0 && "T" !in a.book.positions
    ensures var env := FlatEnv(0.0);
            var after := Track(env, Track(env, a, TenAtHalf(first)), TenAtHalf(second));
            after.book.bankroll == a.book.bankroll - 10.0 && Shortfall(after) == Shortfall(a) + 5.0
  {
    var env := FlatEnv(0.0);
    var one, two := TenAtHalf(first), TenAtHalf(second);
    TenAtHalfCostsFive(a.book, first);
    TenAtHalfCostsFive(Apply(env, a.book, one), second);
    ReopeningLosesTheFirstCharge(env, a, one, two);
  }

  // ---- Slack ----

  lemma TruncateBounds(x: real)
    ensures x >= 0.0 ==> 0.0 <= Truncate(x) as real <= x < Truncate(x) as real + 1.0
    ensures x <= 0.0 ==> Truncate(x) as real - 1.0 < x <= Truncate(x) as real <= 0.0
  {
  }

  lemma PricedCompare(n: int, q: real, u: real)
    requires u > 0.0
    ensures n as real < q ==> Priced(n, u) < q * u
    ensures n as real == q ==> Priced(n, u) == q * u
    ensures n as real > q ==> Priced(n, u) > q * u
  {
    if n as real < q {
      assert (q - n as real) * u > 0.0;
    }
    if n as real > q {
      assert (n as real - q) * u > 0.0;
    }
  }

  lemma PricedNext(n: int, u: real)
    ensures Priced(n + 1, u) == Priced(n, u) + u && Priced(n - 1, u) == Priced(n, u) - u
    ensures Priced(0, u) == 0.0
  {
  }

  /** What truncated division leaves over. */
  lemma RemainderBounds(cost: real, n: int, unitCost: real)
    requires unitCost > 0.0 && n == ActualSize(cost, unitCost)
    ensures -unitCost < cost - Priced(n, unitCost) < unitCost
    ensures cost >= 0.0 ==> 0 <= n && Priced(n, unitCost) <= cost
  {
    var q := cost / unitCost;
    assert q * unitCost == cost;
    TruncateBounds(q);
    PricedCompare(n, q, unitCost);
    PricedCompare(n + 1, q, unitCost);
    PricedCompare(n - 1, q, unitCost);
    PricedCompare(0, q, unitCost);
    PricedNext(n, unitCost);
    PricedNext(0, unitCost);
  }

  lemma WholeQuotient(size: int, unitCost: real)
    requires unitCost > 0.0
    ensures ActualSize(Priced(size, unitCost), unitCost) == size
  {
    var q := Priced(size, unitCost) / unitCost;
    assert (q - size as real) * unitCost == 0.0;
    assert q == size as real;
  }

  lemma FewerContracts(cost: real, size: int, unitCost: real)
    requires unitCost > 0.0 && 0.0 <= cost <= Priced(size, unitCost)
    ensures ActualSize(cost, unitCost) <= size
  {
    var q := cost / unitCost;
    assert q * unitCost == cost;
    PricedCompare(size, q, unitCost);
    PricedCompare(0, q, unitCost);
    PricedNext(0, unitCost);
    TruncateBounds(q);
  }

  /** An order gets at most what it asked for, and on a non-negative bankroll nothing negative. */
  lemma BoughtAtMostAsked(bankroll: real, size: int, unitCost: real)
    requires unitCost > 0.0 && size >= 0
    ensures ActualSize(ChargedCost(bankroll, size, unitCost), unitCost) <= size
    ensures bankroll >= 0.0 ==> 0 <= ActualSize(ChargedCost(bankroll, size, unitCost), unitCost)
  {
    assert Priced(size, unitCost) >= 0.0;
    if bankroll >= 0.0 {
      SlackNonNegative(bankroll, size, unitCost);
    } else {
      DebtInContracts(bankroll, unitCost);
    }
  }

  /** A debt in whole contracts: none positive, none at all exactly when it is less than one, and short of the
      debt by less than one. */
  lemma DebtInContracts(debt: real, unitCost: real)
    requires unitCost > 0.0 && debt < 0.0
    ensures var n := ActualSize(debt, unitCost);
            n <= 0 && (n == 0 <==> -debt < unitCost) && 0.0 <= Priced(n, unitCost) - debt < unitCost
  {
    var q := debt / unitCost;
    assert q * unitCost == debt;
    SignOfQuotient(q, unitCost);
    TruncateBounds(q);
    var n := Truncate(q);
    PricedCompare(n, q, unitCost);
    PricedCompare(n - 1, q, unitCost);
    PricedNext(n, unitCost);
    PricedNext(0, unitCost);
    PricedCompare(-1, q, unitCost);
  }

  /** The slack of an entry is less than one contract's cost either way. */
  lemma SlackBounded(bankroll: real, size: int, unitCost: real)
    requires unitCost > 0.0
    ensures -unitCost < Slack(bankroll, size, unitCost) < unitCost
  {
    var cost := ChargedCost(bankroll, size, unitCost);
    RemainderBounds(cost, ActualSize(cost, unitCost), unitCost);
  }

  /** An order the bankroll does not clamp buys every contract it asked for and leaves no slack. */
  lemma UnclampedHasNoSlack(bankroll: real, size: int, unitCost: real)
    requires unitCost > 0.0 && bankroll >= Priced(size, unitCost)
    ensures ActualSize(ChargedCost(bankroll, size, unitCost), unitCost) == size
    ensures Slack(bankroll, size, unitCost) == 0.0
  {
    WholeQuotient(size, unitCost);
  }

  /** On a non-negative bankroll the slack is never negative, and an entry gets at most what it asked for. */
  lemma SlackNonNegative(bankroll: real, size: int, unitCost: real)
    requires unitCost > 0.0 && bankroll >= 0.0 && size >= 0
    ensures 0.0 <= Slack(bankroll, size, unitCost)
    ensures 0 <= ActualSize(ChargedCost(bankroll, size, unitCost), unitCost) <= size
  {
    var cost := ChargedCost(bankroll, size, unitCost);
    assert Priced(size, unitCost) >= 0.0;
    RemainderBounds(cost, ActualSize(cost, unitCost), unitCost);
    FewerContracts(cost, size, unitCost);
  }

  lemma SignOfQuotient(q: real, u: real)
    requires u > 0.0
    ensures q * u >= 0.0 <==> q >= 0.0
  {
    if q > 0.0 {
      assert q * u > 0.0;
    }
    if q < 0.0 {
      assert -q * u > 0.0;
    }
  }

  // ---- Below zero ----

  /** The order fits with its fee, or is clamped and what it buys is charged no fee. */
  ghost predicate Affordable(env: Env, b: Book, op: Op)
    requires op.Open?
  {
    var unitCost := UnitCost(op.entry.side, op.price);
    var asked := Priced(op.entry.size, unitCost);
    if asked <= b.bankroll
    then asked + FeeOf(env, op.entry.feeKind, op.entry.size, op.price, op.ticker) <= b.bankroll
    else FeeOf(env, op.entry.feeKind, ActualSize(b.bankroll, unitCost), op.price, op.ticker) <= 0.0
  }

  /** An accepted entry on a non-negative bankroll leaves it non-negative exactly when it is affordable, and
      never overdraws it by more than the fee. */
  lemma OpenStaysNonNegativeIff(env: Env, b: Book, op: Op)
    requires op.Open? && !Refused(env, b, op) && b.bankroll >= 0.0
    ensures Apply(env, b, op).bankroll >= 0.0 <==> Affordable(env, b, op)
    ensures Apply(env, b, op).bankroll >= -Apply(env, b, op).positions[op.ticker].entryFee
  {
    var unitCost := UnitCost(op.entry.side, op.price);
    if unitCost > 0.0 {
      WholeQuotient(op.entry.size, unitCost);
    }
  }

  /** "Never go negative" fails on the simplest order: ten contracts at 50 cents with 5 dollars in hand cost
      the 5 dollars, and the taker fee of 17.5 cents comes on top. */
  lemma OpenMayGoNegative()
    ensures var env := FlatEnv(1.0);
            var op := Open("T", Entry(Yes, 10, "whale print", Taker, None, None, false), 0.5, Reading(1.0, 1.0), false);
            !Refused(env, FreshBook(5.0), op) && Apply(env, FreshBook(5.0), op).bankroll == -0.175
  {
    assert ActualSize(5.0, 0.5) == 10;
    assert Charge(TAKER_RATE, 1.0, 10.0, 0.5) == 0.175;
    assert Ceiling(175000.0) == 175000;
  }

  /** The same for every operation: what a caller checks before it. */
  ghost predicate Covered(env: Env, b: Book, op: Op) {
    match op
    case Open(_, _, _, _, _) => Refused(env, b, op) || Affordable(env, b, op)
    case Close(ticker, exitPrice, _, _) =>
      ticker in b.positions ==>
        var p := b.positions[ticker];
        TakerFee(p.size as real, exitPrice, env.terms(ticker)) <= b.bankroll + Priced(p.size, UnitCost(p.side, exitPrice))
    case Correct(id, correctedPrice) =>
      Correctable(b, id) ==> -CorrectionDelta(env, b.trades[IndexOf(b.trades, id)], correctedPrice) <= b.bankroll
    case _ => true
  }

  ghost predicate AllCovered(env: Env, b: Book, ops: seq<Op>)
    decreases |ops|
  {
    ops == [] || (Covered(env, b, ops[0]) && AllCovered(env, Apply(env, b, ops[0]), ops[1..]))
  }

  /** A run that starts at zero or above is never below zero at any point exactly when every one of its
      operations is covered. */
  lemma {:induction false} NeverNegativeIffCovered(env: Env, b: Book, ops: seq<Op>)
    requires b.bankroll >= 0.0
    ensures (forall k :: 0 <= k <= |ops| ==> Run(env, b, ops[..k]).bankroll >= 0.0) <==> AllCovered(env, b, ops)
    decreases |ops|
  {
    if ops == [] {
      assert forall k :: 0 <= k <= |ops| ==> ops[..k] == [];
    } else {
      var next, rest := Apply(env, b, ops[0]), ops[1..];
      if ops[0].Open? && !Refused(env, b, ops[0]) {
        OpenStaysNonNegativeIff(env, b, ops[0]);
      }
      assert next.bankroll >= 0.0 <==> Covered(env, b, ops[0]);
      RunOfPrefixes(env, b, ops);
      if next.bankroll >= 0.0 {
        NeverNegativeIffCovered(env, next, rest);
        if forall k :: 0 <= k <= |rest| ==> Run(env, next, rest[..k]).bankroll >= 0.0 {
          forall k | 0 <= k <= |ops|
            ensures Run(env, b, ops[..k]).bankroll >= 0.0
          {
            if k > 0 {
              assert Run(env, b, ops[..k]) == Run(env, next, rest[..k - 1]);
            }
          }
        } else {
          var k :| 0 <= k <= |rest| && Run(env, next, rest[..k]).bankroll < 0.0;
          assert Run(env, b, ops[..k + 1]) == Run(env, next, rest[..k]);
        }
      } else {
        assert Run(env, b, ops[..1]) == Run(env, next, rest[..0]);
      }
    }
  }

  lemma RunOfPrefixes(env: Env, b: Book, ops: seq<Op>)
    requires ops != []
    ensures forall k :: 0 < k <= |ops| ==> Run(env, b, ops[..k]) == Run(env, Apply(env, b, ops[0]), ops[1..][..k - 1])
    ensures Run(env, b, ops[..0]) == b
  {
    forall k | 0 < k <= |ops|
      ensures Run(env, b, ops[..k]) == Run(env, Apply(env, b, ops[0]), ops[1..][..k - 1])
    {
      assert ops[..k][0] == ops[0] && ops[..k][1..] == ops[1..][..k - 1];
    }
  }

  /** An entry that a debt clamps is charged the debt itself, so that every debt is back at exactly zero.
      What is not a whole number of contracts is forgiven; the rest is carried as a position of negative size:
      the debt is forgiven whole exactly when it is less than one contract. */
  lemma OpenForgivesDebt(env: Env, b: Book, op: Op)
    requires op.Open? && !Refused(env, b, op) && 0.0 < UnitCost(op.entry.side, op.price)
    requires b.bankroll < 0.0 && b.bankroll < Priced(op.entry.size, UnitCost(op.entry.side, op.price))
    ensures var unitCost := UnitCost(op.entry.side, op.price);
            var p := Apply(env, b, op).positions[op.ticker];
            && Apply(env, b, op).bankroll == 0.0 && p.entryFee == 0.0 && p.size <= 0
            && 0.0 <= CostBasis(p) - b.bankroll < unitCost
            && (p.size == 0 <==> -b.bankroll < unitCost)
  {
    DebtInContracts(b.bankroll, UnitCost(op.entry.side, op.price));
  }
}
