/** What reloading the stored tables gives back in services/paper_broker.py. */
module Restart {
  import opened Ledger

  /** broker_meta, positions, trades (in insertion order) and pending_orders. */
  datatype Tables = Tables(
    bankroll: real, starting: real, positions: map<string, Position>, trades: seq<Trade>, pending: map<string, Order>)

  function Stored(b: Book): Tables {
    Tables(b.bankroll, b.starting, b.positions, b.trades, b.pending)
  }

  /** ORDER BY timestamp ASC, with rows of one moment in insertion order, which SQL does not promise. */
  function InsertByTime(sorted: seq<Trade>, t: Trade): (r: seq<Trade>)
    ensures |r| == |sorted| + 1
  {
    if sorted == [] || sorted[|sorted| - 1].timestamp <= t.timestamp then sorted + [t]
    else InsertByTime(sorted[..|sorted| - 1], t) + [sorted[|sorted| - 1]]
  }

  function ByTime(rows: seq<Trade>): (r: seq<Trade>)
    ensures |r| == |rows|
  {
    if rows == [] then [] else InsertByTime(ByTime(rows[..|rows| - 1]), rows[|rows| - 1])
  }

  /** last_trade_time as the reload loop rebuilds it, over entries and closes alike. */
  function LastTimes(rows: seq<Trade>): map<string, real> {
    if rows == [] then map[]
    else
      var earlier := LastTimes(rows[..|rows| - 1]);
      var t := rows[|rows| - 1];
      var before := if t.ticker in earlier then earlier[t.ticker] else 0.0;
      earlier[t.ticker := if t.timestamp > before then t.timestamp else before]
  }

  /** The account rebuilt from the tables, whose trades came back in the order of log. */
  function Reloaded(tables: Tables, log: seq<Trade>, nextId: nat): Book {
    Book(tables.bankroll, tables.starting, tables.positions, tables.pending, log, LastTimes(log), nextId)
  }

  predicate InOrder(rows: seq<Trade>) {
    forall i, j :: 0 <= i < j < |rows| ==> rows[i].timestamp <= rows[j].timestamp
  }

  predicate StrictlyInOrder(rows: seq<Trade>) {
    forall i, j :: 0 <= i < j < |rows| ==> rows[i].timestamp < rows[j].timestamp
  }

  /** What ORDER BY timestamp ASC may return. */
  predicate SortedCopy(rows: seq<Trade>, log: seq<Trade>) {
    multiset(log) == multiset(rows) && InOrder(log)
  }

  lemma {:induction false} InsertKeepsOrder(sorted: seq<Trade>, t: Trade)
    requires InOrder(sorted)
    ensures InOrder(InsertByTime(sorted, t))
    ensures forall i :: 0 <= i < |InsertByTime(sorted, t)| ==>
              InsertByTime(sorted, t)[i] == t || InsertByTime(sorted, t)[i] in sorted
  {
    if sorted != [] && sorted[|sorted| - 1].timestamp > t.timestamp {
      InsertKeepsOrder(sorted[..|sorted| - 1], t);
    }
  }

  lemma {:induction false} ByTimeInOrder(rows: seq<Trade>)
    ensures InOrder(ByTime(rows))
  {
    if rows != [] {
      ByTimeInOrder(rows[..|rows| - 1]);
      InsertKeepsOrder(ByTime(rows[..|rows| - 1]), rows[|rows| - 1]);
    }
  }

  /** The reloaded log is the logged one exactly when no trade was stamped before an earlier one. */
  lemma {:induction false} LogReloadsIffInOrder(rows: seq<Trade>)
    ensures ByTime(rows) == rows <==> InOrder(rows)
  {
    ByTimeInOrder(rows);
    if InOrder(rows) {
      SortedStays(rows);
    }
  }

  lemma {:induction false} SortedStays(rows: seq<Trade>)
    requires InOrder(rows)
    ensures ByTime(rows) == rows
  {
    if rows != [] {
      var front := rows[..|rows| - 1];
      SortedStays(front);
      assert front == [] || front[|front| - 1] == rows[|rows| - 2];
      assert rows == front + [rows[|rows| - 1]];
    }
  }

  lemma {:induction false} InsertKeepsRows(sorted: seq<Trade>, t: Trade)
    ensures multiset(InsertByTime(sorted, t)) == multiset(sorted) + multiset{t}
  {
    if sorted != [] {
      assert sorted == sorted[..|sorted| - 1] + [sorted[|sorted| - 1]];
      InsertKeepsRows(sorted[..|sorted| - 1], t);
    }
  }

  lemma {:induction false} ByTimeIsSortedCopy(rows: seq<Trade>)
    ensures SortedCopy(rows, ByTime(rows))
  {
    ByTimeInOrder(rows);
    if rows != [] {
      var front, last := rows[..|rows| - 1], rows[|rows| - 1];
      assert rows == front + [last];
      ByTimeIsSortedCopy(front);
      InsertKeepsRows(ByTime(front), last);
    }
  }

  lemma FrontKeepsRows(rows: seq<Trade>, log: seq<Trade>)
    requires multiset(log) == multiset(rows) && log != [] && rows != [] && log[|log| - 1] == rows[|rows| - 1]
    ensures multiset(log[..|log| - 1]) == multiset(rows[..|rows| - 1])
  {
    assert rows == rows[..|rows| - 1] + [rows[|rows| - 1]];
    assert log == log[..|log| - 1] + [log[|log| - 1]];
    assert multiset(log[..|log| - 1]) == multiset(log) - multiset{rows[|rows| - 1]};
  }

  lemma LatestIsLast(rows: seq<Trade>, log: seq<Trade>)
    requires StrictlyInOrder(rows) && SortedCopy(rows, log) && rows != []
    ensures |log| == |rows| && log[|log| - 1] == rows[|rows| - 1]
  {
    assert |log| == |multiset(log)| == |multiset(rows)| == |rows|;
    var first, last := log[|log| - 1], rows[|rows| - 1];
    assert first in multiset(rows) && last in multiset(log);
    var i :| 0 <= i < |rows| && rows[i] == first;
    var j :| 0 <= j < |log| && log[j] == last;
  }

  /** Rows at distinct moments come back in one order only. */
  lemma {:induction false} StrictOrderIsUnique(rows: seq<Trade>, log: seq<Trade>)
    requires StrictlyInOrder(rows) && SortedCopy(rows, log)
    ensures log == rows
    decreases |rows|
  {
    if rows == [] {
      assert |log| == |multiset(log)| == |multiset(rows)|;
    } else {
      LatestIsLast(rows, log);
      FrontKeepsRows(rows, log);
      StrictOrderIsUnique(rows[..|rows| - 1], log[..|log| - 1]);
      assert rows == rows[..|rows| - 1] + [rows[|rows| - 1]];
      assert log == log[..|log| - 1] + [log[|log| - 1]];
    }
  }

  lemma SwapKeepsRows(rows: seq<Trade>, i: nat, j: nat)
    requires i < j < |rows|
    ensures multiset(rows[i := rows[j]][j := rows[i]]) == multiset(rows)
  {
  }

  predicate IdsDistinct(rows: seq<Trade>) {
    forall i, j :: 0 <= i < j < |rows| ==> rows[i].id != rows[j].id
  }

  /** A restart, whichever way rows of one moment come back, changes nothing but the cooldown clocks exactly
      when the logged trades are at distinct moments in the order they were made. */
  lemma RestartRestoresAccount(b: Book)
    requires IdsDistinct(b.trades)
    ensures (forall log :: SortedCopy(b.trades, log) ==>
               var again := Reloaded(Stored(b), log, b.nextId); again == b.(lastTrade := again.lastTrade))
            <==> StrictlyInOrder(b.trades)
  {
    var rows := b.trades;
    if StrictlyInOrder(rows) {
      forall log | SortedCopy(rows, log)
        ensures Reloaded(Stored(b), log, b.nextId).trades == rows
      {
        StrictOrderIsUnique(rows, log);
      }
    } else {
      var log := ByTime(rows);
      ByTimeIsSortedCopy(rows);
      if InOrder(rows) {
        var i, j :| 0 <= i < j < |rows| && rows[i].timestamp >= rows[j].timestamp;
        log := rows[i := rows[j]][j := rows[i]];
        SwapKeepsRows(rows, i, j);
        assert log[i].id != rows[i].id;
      }
      assert SortedCopy(rows, log) && log != rows;
      assert Reloaded(Stored(b), log, b.nextId).trades != b.trades;
    }
  }

  /** The clock readings an operation stamps, in run order from the given moment on. */
  predicate Timely(ops: seq<Op>, from: real)
    decreases |ops|
  {
    ops == [] || (match ops[0]
                  case Open(_, _, _, at, _) => at.loggedAt >= from && Timely(ops[1..], at.loggedAt)
                  case Close(_, _, _, now) => now >= from && Timely(ops[1..], now)
                  case _ => Timely(ops[1..], from))
  }

  /** Every cooldown stamp is the time of a logged trade of its ticker, and stamps are not negative. */
  predicate StampsLogged(b: Book) {
    && (forall t :: t in b.lastTrade ==>
          exists i :: 0 <= i < |b.trades| && b.trades[i].ticker == t && b.trades[i].timestamp == b.lastTrade[t])
    && (forall i :: 0 <= i < |b.trades| ==> b.trades[i].timestamp >= 0.0)
  }

  predicate LoggedUpTo(b: Book, now: real) {
    InOrder(b.trades) && StampsLogged(b) && now >= 0.0
    && forall i :: 0 <= i < |b.trades| ==> b.trades[i].timestamp <= now
  }

  lemma AppendLogged(b: Book, t: Trade, now: real, last: map<string, real>)
    requires LoggedUpTo(b, now) && t.timestamp >= now
    requires last == b.lastTrade || last == b.lastTrade[t.ticker := t.timestamp]
    ensures LoggedUpTo(b.(trades := b.trades + [t], lastTrade := last), t.timestamp)
  {
    var after := b.(trades := b.trades + [t], lastTrade := last);
    forall s | s in after.lastTrade
      ensures exists i :: 0 <= i < |after.trades| && after.trades[i].ticker == s && after.trades[i].timestamp == after.lastTrade[s]
    {
      if s in b.lastTrade && last[s] == b.lastTrade[s] {
        var i :| 0 <= i < |b.trades| && b.trades[i].ticker == s && b.trades[i].timestamp == b.lastTrade[s];
        assert after.trades[i] == b.trades[i];
      } else {
        assert after.trades[|b.trades|] == t;
      }
    }
  }

  lemma SameLogged(b: Book, after: Book, now: real)
    requires LoggedUpTo(b, now) && after.lastTrade == b.lastTrade && |after.trades| == |b.trades|
    requires forall i :: 0 <= i < |b.trades| ==>
               after.trades[i].ticker == b.trades[i].ticker && after.trades[i].timestamp == b.trades[i].timestamp
    ensures LoggedUpTo(after, now)
  {
    forall s | s in after.lastTrade
      ensures exists i :: 0 <= i < |after.trades| && after.trades[i].ticker == s && after.trades[i].timestamp == after.lastTrade[s]
    {
      var i :| 0 <= i < |b.trades| && b.trades[i].ticker == s && b.trades[i].timestamp == b.lastTrade[s];
      assert after.trades[i].ticker == s;
    }
  }

  function ClockAfter(op: Op, from: real): real {
    match op
    case Open(_, _, _, at, _) => at.loggedAt
    case Close(_, _, _, now) => now
    case _ => from
  }

  lemma StepLogged(env: Env, b: Book, op: Op, from: real)
    requires LoggedUpTo(b, from) && ClockAfter(op, from) >= from
    ensures LoggedUpTo(Apply(env, b, op), ClockAfter(op, from))
  {
    var after := Apply(env, b, op);
    if |after.trades| == |b.trades| + 1 {
      var t := after.trades[|b.trades|];
      AppendLogged(b, t, from, after.lastTrade);
      SameLogged(b.(trades := b.trades + [t], lastTrade := after.lastTrade), after, t.timestamp);
    } else {
      SameLogged(b, after, from);
    }
  }

  /** Every timely run keeps the log in time order and every stamp logged, so it can be restarted at any
      point. */
  lemma {:induction false} RunKeepsLogged(env: Env, b: Book, ops: seq<Op>, from: real)
    requires LoggedUpTo(b, from) && Timely(ops, from)
    ensures InOrder(Run(env, b, ops).trades) && StampsLogged(Run(env, b, ops))
    decreases |ops|
  {
    if ops != [] {
      StepLogged(env, b, ops[0], from);
      RunKeepsLogged(env, Apply(env, b, ops[0]), ops[1..], ClockAfter(ops[0], from));
    }
  }

  lemma {:induction false} LastTimesCovers(rows: seq<Trade>, i: nat)
    requires i < |rows|
    ensures rows[i].ticker in LastTimes(rows) && LastTimes(rows)[rows[i].ticker] >= rows[i].timestamp
  {
    if i < |rows| - 1 {
      assert rows[..|rows| - 1][i] == rows[i];
      LastTimesCovers(rows[..|rows| - 1], i);
    }
  }

  /** The rebuilt cooldown clock of a ticker is its latest logged trade, entry or close, and there is one for every
      ticker traded and no other; stamps before the epoch count as the epoch. */
  lemma {:induction false} LastTimesAreLatest(rows: seq<Trade>, ticker: string)
    ensures ticker in LastTimes(rows) <==> exists i :: 0 <= i < |rows| && rows[i].ticker == ticker
    ensures ticker in LastTimes(rows) ==>
              (LastTimes(rows)[ticker] == 0.0
               || exists i :: 0 <= i < |rows| && rows[i].ticker == ticker && rows[i].timestamp == LastTimes(rows)[ticker])
    ensures forall i :: 0 <= i < |rows| && rows[i].ticker == ticker ==> LastTimes(rows)[ticker] >= rows[i].timestamp
  {
    if rows != [] {
      var front, last := rows[..|rows| - 1], rows[|rows| - 1];
      LastTimesAreLatest(front, ticker);
      assert forall i :: 0 <= i < |front| ==> front[i] == rows[i];
      if last.ticker == ticker {
        assert rows[|rows| - 1].ticker == ticker;
      }
    }
  }

  /** After any timely run a restart gives back the same bankroll, positions and orders and the same trades in
      time order; the very same log if ties come back in insertion order or there are none; and since the reload
      counts closes too, it can only lengthen a ticker's cooldown. */
  lemma RestartAfterRun(env: Env, b: Book, ops: seq<Op>, from: real, log: seq<Trade>)
    requires LoggedUpTo(b, from) && Timely(ops, from) && SortedCopy(Run(env, b, ops).trades, log)
    ensures var before := Run(env, b, ops);
            var again := Reloaded(Stored(before), log, before.nextId);
            && again == before.(trades := log, lastTrade := again.lastTrade)
            && (log == ByTime(before.trades) || StrictlyInOrder(before.trades) ==> log == before.trades)
            && forall t :: t in before.lastTrade ==> t in again.lastTrade && again.lastTrade[t] >= before.lastTrade[t]
  {
    RunKeepsLogged(env, b, ops, from);
    var before := Run(env, b, ops);
    LogReloadsIffInOrder(before.trades);
    if StrictlyInOrder(before.trades) {
      StrictOrderIsUnique(before.trades, log);
    }
    CooldownsLengthen(before, log);
  }

  lemma CooldownsLengthen(b: Book, log: seq<Trade>)
    requires StampsLogged(b) && multiset(log) == multiset(b.trades)
    ensures forall t :: t in b.lastTrade ==> t in LastTimes(log) && LastTimes(log)[t] >= b.lastTrade[t]
  {
    forall t | t in b.lastTrade
      ensures t in LastTimes(log) && LastTimes(log)[t] >= b.lastTrade[t]
    {
      var i :| 0 <= i < |b.trades| && b.trades[i].ticker == t && b.trades[i].timestamp == b.lastTrade[t];
      assert b.trades[i] in multiset(log);
      var j :| 0 <= j < |log| && log[j] == b.trades[i];
      LastTimesCovers(log, j);
    }
  }
}
