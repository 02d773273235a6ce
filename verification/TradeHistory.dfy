/**
  What the trade log of services/paper_broker.py says on its own. Entries and
  closes share one table without a type column; readers tell them apart by the
  "closed:" prefix of the reason, and build_trade_history of
  services/history/trade_analytics.py pairs each close with the last entry of
  its ticker before it.
*/
module TradeHistory {
  import opened Wrappers
  import opened KalshiFees
  import opened Ledger

  /** The last_entry dict after reading the log: excluded rows are skipped, closes leave it alone. */
  function LastEntry(trades: seq<Trade>): map<string, Trade> {
    if trades == [] then map[]
    else
      var earlier, t := LastEntry(trades[..|trades| - 1]), trades[|trades| - 1];
      if t.excluded || IsClose(t.reason) then earlier else earlier[t.ticker := t]
  }

  /** One row of the history: a close and the entry paired with it, if any. */
  datatype HistoryRow = HistoryRow(entry: Option<Trade>, exit: Trade)

  /** build_trade_history: one row per close that is not excluded. */
  function History(trades: seq<Trade>): seq<HistoryRow> {
    if trades == [] then []
    else
      var front, t := trades[..|trades| - 1], trades[|trades| - 1];
      if t.excluded || !IsClose(t.reason) then History(front)
      else
        var last := LastEntry(front);
        History(front) + [HistoryRow(if t.ticker in last then Some(last[t.ticker]) else None, t)]
  }

  /** The tickers whose last row, by the prefix, is an entry. */
  function OpenPerLog(trades: seq<Trade>): set<string> {
    if trades == [] then {}
    else
      var earlier, t := OpenPerLog(trades[..|trades| - 1]), trades[|trades| - 1];
      if IsClose(t.reason) then earlier - {t.ticker} else earlier + {t.ticker}
  }

  /** The row says what the position is: all but the moment it was opened, which is read off a clock of its
      own. */
  predicate Records(t: Trade, p: Position) {
    t.side == p.side && t.size == p.size && t.price == p.entryPrice && t.fee == p.entryFee && t.fingerprint == p.fingerprint
  }

  ghost predicate LogExplainsBook(b: Book) {
    && OpenPerLog(b.trades) == b.positions.Keys
    && forall t :: t in b.positions ==> t in LastEntry(b.trades) && Records(LastEntry(b.trades)[t], b.positions[t])
  }

  /** A close paired with the entry of the very position it sold. */
  predicate PairedRight(row: HistoryRow) {
    && row.entry.Some? && IsClose(row.exit.reason) && !IsClose(row.entry.value.reason)
    && row.entry.value.ticker == row.exit.ticker && row.entry.value.side == row.exit.side
    && row.entry.value.size == row.exit.size && row.entry.value.fingerprint == row.exit.fingerprint
  }

  predicate AllPaired(trades: seq<Trade>) {
    forall row :: row in History(trades) ==> PairedRight(row)
  }

  lemma {:induction false} LastEntriesAreEntries(trades: seq<Trade>, ticker: string)
    requires ticker in LastEntry(trades)
    ensures var t := LastEntry(trades)[ticker]; t in trades && t.ticker == ticker && !IsClose(t.reason)
  {
    var front, t := trades[..|trades| - 1], trades[|trades| - 1];
    assert trades == front + [t];
    if t.excluded || IsClose(t.reason) || t.ticker != ticker {
      LastEntriesAreEntries(front, ticker);
    }
  }

  lemma Snoc(trades: seq<Trade>, t: Trade)
    ensures (trades + [t])[..|trades|] == trades && (trades + [t])[|trades|] == t
  {
  }

  /** Flagging a close changes neither which tickers are open nor their last entries, and only takes rows
      out of the history. */
  lemma {:induction false} FlagIsHarmless(trades: seq<Trade>, k: nat)
    requires k < |trades| && IsClose(trades[k].reason)
    ensures var flagged := trades[k := trades[k].(excluded := true)];
            && OpenPerLog(flagged) == OpenPerLog(trades) && LastEntry(flagged) == LastEntry(trades)
            && forall row :: row in History(flagged) ==> row in History(trades)
  {
    var flagged := trades[k := trades[k].(excluded := true)];
    var front := trades[..|trades| - 1];
    if k < |front| {
      assert flagged[..|trades| - 1] == front[k := front[k].(excluded := true)];
      FlagIsHarmless(front, k);
    } else {
      assert flagged[..|trades| - 1] == front;
    }
  }

  lemma OpenedRow(env: Env, b: Book, op: Op)
    requires op.Open? && !Refused(env, b, op)
    ensures var after := Apply(env, b, op);
            && |after.trades| == |b.trades| + 1 && op.ticker in after.positions
            && var t, p := after.trades[|b.trades|], after.positions[op.ticker];
               && after.trades == b.trades + [t] && after.positions == b.positions[op.ticker := p]
               && t.ticker == op.ticker && t.reason == op.entry.reason && !t.excluded && Records(t, p)
               && p.openedAt == op.at.openedAt && t.timestamp == op.at.loggedAt
  {
  }

  lemma ClosedRow(env: Env, b: Book, op: Op)
    requires op.Close? && op.ticker in b.positions
    ensures var after := Apply(env, b, op);
            && |after.trades| == |b.trades| + 1 && after.positions == b.positions - {op.ticker}
            && var t, p := after.trades[|b.trades|], b.positions[op.ticker];
               && after.trades == b.trades + [t] && t.ticker == op.ticker && IsClose(t.reason) && !t.excluded
               && t.side == p.side && t.size == p.size && t.fingerprint == p.fingerprint
  {
    assert (CLOSED + op.reason)[..7] == "closed:";
  }

  function Closes(trades: seq<Trade>): seq<Trade> {
    if trades == [] then []
    else
      var t := trades[|trades| - 1];
      Closes(trades[..|trades| - 1]) + if IsClose(t.reason) && !t.excluded then [t] else []
  }

  function Exits(rows: seq<HistoryRow>): seq<Trade> {
    seq(|rows|, i requires 0 <= i < |rows| => rows[i].exit)
  }

  /** The history has one row for each close that is not excluded, in the order of the log, and no other. */
  lemma {:induction false} HistoryListsTheCloses(trades: seq<Trade>)
    ensures Exits(History(trades)) == Closes(trades)
  {
    if trades != [] {
      HistoryListsTheCloses(trades[..|trades| - 1]);
    }
  }

  /** What a run keeps, as long as no entry was given a reason that reads like a close. */
  ghost predicate Readable(b: Book) {
    LogExplainsBook(b) && AllPaired(b.trades)
  }

  lemma StepKeepsReadable(env: Env, b: Book, op: Op)
    requires Readable(b) && (op.Open? ==> !IsClose(op.entry.reason))
    ensures Readable(Apply(env, b, op))
  {
    match op
    case Open(_, _, _, _, _) =>
      if !Refused(env, b, op) {
        OpenedRow(env, b, op);
        Snoc(b.trades, Apply(env, b, op).trades[|b.trades|]);
      }
    case Close(ticker, _, _, _) =>
      if ticker in b.positions {
        ClosedRow(env, b, op);
        Snoc(b.trades, Apply(env, b, op).trades[|b.trades|]);
        LastEntriesAreEntries(b.trades, ticker);
      }
    case Place(_, _) =>
    case Cancel(_) =>
    case Correct(id, _) =>
      if Correctable(b, id) {
        FlagIsHarmless(b.trades, IndexOf(b.trades, id));
      }
  }

  /** Over every run, corrections included, the log alone says which positions are open, on which side, at
      what size, price and fee; and the history pairs every close with the entry of the position it sold, as
      long as no entry was given a reason that reads like a close. */
  lemma {:induction false} LogAlwaysExplainsBook(env: Env, b: Book, ops: seq<Op>)
    requires Readable(b) && forall i :: 0 <= i < |ops| && ops[i].Open? ==> !IsClose(ops[i].entry.reason)
    ensures LogExplainsBook(Run(env, b, ops)) && AllPaired(Run(env, b, ops).trades)
    decreases |ops|
  {
    if ops != [] {
      StepKeepsReadable(env, b, ops[0]);
      LogAlwaysExplainsBook(env, Apply(env, b, ops[0]), ops[1..]);
    }
  }

  /** One accepted entry keeps the log readable exactly when its reason does not begin with "closed:". */
  lemma EntryReadableIff(env: Env, b: Book, op: Op)
    requires Readable(b) && op.Open? && !Refused(env, b, op)
    ensures LogExplainsBook(Apply(env, b, op)) <==> !("closed:" <= op.entry.reason)
  {
    var after := Apply(env, b, op);
    OpenedRow(env, b, op);
    Snoc(b.trades, after.trades[|b.trades|]);
    if IsClose(op.entry.reason) {
      assert op.ticker !in OpenPerLog(after.trades) && op.ticker in after.positions;
    } else {
      StepKeepsReadable(env, b, op);
    }
  }

  // ---- When ----

  /** No open position was opened after its entry was logged. */
  ghost predicate OpenedBeforeLogged(b: Book) {
    forall t :: t in b.positions && t in LastEntry(b.trades) ==>
      b.positions[t].openedAt <= LastEntry(b.trades)[t].timestamp
  }

  /** If the clock never goes back between its two readings of an entry, each open position's opened_at is at
      or before the time its entry is logged at. */
  lemma {:induction false} OpenedAtNotAfterLogged(env: Env, b: Book, ops: seq<Op>)
    requires Readable(b) && OpenedBeforeLogged(b)
    requires forall i :: 0 <= i < |ops| && ops[i].Open? ==>
               !IsClose(ops[i].entry.reason) && ops[i].at.openedAt <= ops[i].at.loggedAt
    ensures OpenedBeforeLogged(Run(env, b, ops))
    decreases |ops|
  {
    if ops != [] {
      StepKeepsReadable(env, b, ops[0]);
      StepKeepsOpenedBefore(env, b, ops[0]);
      OpenedAtNotAfterLogged(env, Apply(env, b, ops[0]), ops[1..]);
    }
  }

  lemma StepKeepsOpenedBefore(env: Env, b: Book, op: Op)
    requires OpenedBeforeLogged(b) && (op.Open? ==> !IsClose(op.entry.reason) && op.at.openedAt <= op.at.loggedAt)
    ensures OpenedBeforeLogged(Apply(env, b, op))
  {
    match op
    case Open(_, _, _, _, _) =>
      if !Refused(env, b, op) {
        OpenedRow(env, b, op);
        Snoc(b.trades, Apply(env, b, op).trades[|b.trades|]);
      }
    case Close(ticker, _, _, _) =>
      if ticker in b.positions {
        ClosedRow(env, b, op);
        Snoc(b.trades, Apply(env, b, op).trades[|b.trades|]);
      }
    case Place(_, _) =>
    case Cancel(_) =>
    case Correct(id, _) =>
      if Correctable(b, id) {
        FlagIsHarmless(b.trades, IndexOf(b.trades, id));
      }
  }
}
