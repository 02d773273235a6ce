/**
  services/series_evaluator.py: the observing / approved / rejected machine over
  series_status rows, its escalating backoff, and the bulk form of trade
  recording.
*/
module SeriesEvaluator {
  import opened Wrappers
  import opened Reals

  datatype Status = Observing | Approved | Rejected

  datatype Row = Row(
    status: Status, firstSeenAt: real, tradesObserved: nat, strikeCount: nat,
    lastEvaluatedAt: Option<real>, nextEligibleAt: Option<real>)

  type Table = map<string, Row>

  datatype Config = Config(
    minObservationSec: real, minTradesObserved: nat, maxObservationSec: real, minQualifyRate: real,
    backoffBaseSec: real, backoffMultiplier: real, backoffMaxSec: real)

  function Lookup(t: Table, series: string): Option<Row> {
    if series in t then Some(t[series]) else None
  }

  predicate BackoffServed(row: Row, now: real) {
    row.status == Rejected && row.nextEligibleAt.Some? && now >= row.nextEligibleAt.value
  }

  // ---- Recording trades ----

  /** What recording `count` trades at once does to a series' row. */
  function AfterTrades(row: Option<Row>, count: nat, now: real): Option<Row> {
    match row
    case None => Some(Row(Observing, now, count, 0, None, None))
    case Some(r) =>
      if r.status == Rejected then
        if BackoffServed(r, now)
        then Some(r.(status := Observing, firstSeenAt := now, tradesObserved := count, nextEligibleAt := None))
        else row
      else if r.status == Approved then row
      else Some(r.(tradesObserved := r.tradesObserved + count))
  }

  function WithRow(t: Table, series: string, row: Option<Row>): Table {
    if row.Some? then t[series := row.value] else t - {series}
  }

  /** record_trade_observed. */
  function RecordTrade(t: Table, series: string, now: real): Table {
    WithRow(t, series, AfterTrades(Lookup(t, series), 1, now))
  }

  function RecordEach(t: Table, trades: seq<string>, now: real): Table
    decreases |trades|
  {
    if trades == [] then t else RecordEach(RecordTrade(t, trades[0], now), trades[1..], now)
  }

  /** record_trades_observed_bulk. */
  function RecordBulk(t: Table, counts: map<string, nat>, now: real): Table {
    map s | s in t.Keys + counts.Keys ::
      if s in counts then AfterTrades(Lookup(t, s), counts[s], now).value else t[s]
  }

  function CountOf(trades: seq<string>, series: string): nat {
    if trades == [] then 0 else (if trades[0] == series then 1 else 0) + CountOf(trades[1..], series)
  }

  function CountsOf(trades: seq<string>): map<string, nat> {
    map s | s in trades :: CountOf(trades, s)
  }

  lemma {:induction false} CountPositive(trades: seq<string>, series: string)
    ensures CountOf(trades, series) > 0 <==> series in trades
  {
    if trades != [] {
      assert trades == [trades[0]] + trades[1..];
      CountPositive(trades[1..], series);
    }
  }

  lemma {:induction false} RecordEachAt(t: Table, trades: seq<string>, now: real, series: string)
    ensures Lookup(RecordEach(t, trades, now), series)
            == if CountOf(trades, series) == 0 then Lookup(t, series)
               else AfterTrades(Lookup(t, series), CountOf(trades, series), now)
    decreases |trades|
  {
    if trades != [] {
      RecordEachAt(RecordTrade(t, trades[0], now), trades[1..], now, series);
    }
  }

  /** For any list of trades at one moment, however the series interleave, recording them one by one
      and recording their per-series counts in bulk give the same table. */
  lemma BulkEqualsEach(t: Table, trades: seq<string>, now: real)
    ensures RecordEach(t, trades, now) == RecordBulk(t, CountsOf(trades), now)
  {
    var each, bulk := RecordEach(t, trades, now), RecordBulk(t, CountsOf(trades), now);
    forall s
      ensures Lookup(each, s) == Lookup(bulk, s)
    {
      RecordEachAt(t, trades, now, s);
      CountPositive(trades, s);
    }
    SameLookups(each, bulk);
  }

  /** The counts say how often each series was traded, with or without entries of zero. */
  ghost predicate CountsFit(counts: map<string, nat>, trades: seq<string>) {
    forall s :: CountOf(trades, s) == if s in counts then counts[s] else 0
  }

  /** A bulk call that also carries entries of zero trades equals the calls one by one exactly when each such
      series already has a row whose backoff is not due to end: otherwise it opens an observing window that
      no trade opened. */
  lemma ZeroCountsHarmless(t: Table, trades: seq<string>, counts: map<string, nat>, now: real)
    requires CountsFit(counts, trades)
    ensures RecordBulk(t, counts, now) == RecordEach(t, trades, now)
            <==> forall s :: s in counts && counts[s] == 0 ==> s in t && !BackoffServed(t[s], now)
  {
    var each, bulk := RecordEach(t, trades, now), RecordBulk(t, counts, now);
    forall s
      ensures Lookup(bulk, s) == Lookup(each, s)
              <==> s in counts && counts[s] == 0 ==> s in t && !BackoffServed(t[s], now)
    {
      RecordEachAt(t, trades, now, s);
      assert CountOf(trades, s) == if s in counts then counts[s] else 0;
    }
    SameLookups(bulk, each);
  }

  lemma SameLookups(a: Table, b: Table)
    ensures a == b <==> forall s :: Lookup(a, s) == Lookup(b, s)
  {
    if forall s :: Lookup(a, s) == Lookup(b, s) {
      forall s
        ensures s in a <==> s in b
        ensures s in a ==> a[s] == b[s]
      {
        assert Lookup(a, s) == Lookup(b, s);
      }
      assert a == b;
    }
  }

  // ---- Verdicts ----

  function Power(x: real, n: nat): real {
    if n == 0 then 1.0 else x * Power(x, n - 1)
  }

  function Backoff(cfg: Config, strikes: nat): real {
    var escalated := cfg.backoffBaseSec * Power(cfg.backoffMultiplier, strikes);
    if escalated < cfg.backoffMaxSec then escalated else cfg.backoffMaxSec
  }

  predicate ReadyForVerdict(cfg: Config, row: Row, now: real) {
    var elapsed := now - row.firstSeenAt;
    || (elapsed >= cfg.minObservationSec && row.tradesObserved >= cfg.minTradesObserved)
    || elapsed >= cfg.maxObservationSec
  }

  predicate Qualifies(cfg: Config, row: Row, qualified: nat) {
    row.tradesObserved != 0 && qualified as real / row.tradesObserved as real >= cfg.minQualifyRate
  }

  function Evaluated(cfg: Config, row: Row, qualified: nat, now: real): Row {
    if row.status != Observing || !ReadyForVerdict(cfg, row, now) then row
    else if Qualifies(cfg, row, qualified)
    then row.(status := Approved, lastEvaluatedAt := Some(now), nextEligibleAt := None)
    else row.(status := Rejected, strikeCount := row.strikeCount + 1, lastEvaluatedAt := Some(now),
              nextEligibleAt := Some(now + Backoff(cfg, row.strikeCount)))
  }

  /** evaluate_pending; qualified is signal_log's count of signals for a series since a moment. */
  function EvaluateAll(cfg: Config, t: Table, qualified: (string, real) -> nat, now: real): Table {
    map s | s in t :: Evaluated(cfg, t[s], qualified(s, t[s].firstSeenAt), now)
  }

  function ResetRow(row: Row, now: real): Row {
    Row(Observing, now, 0, 0, Some(now), None)
  }

  /** The observation window is complete: long enough with enough trades, or at its maximum. */
  predicate WindowComplete(cfg: Config, row: Row, now: real) {
    || (row.firstSeenAt + cfg.minObservationSec <= now && cfg.minTradesObserved <= row.tradesObserved)
    || row.firstSeenAt + cfg.maxObservationSec <= now
  }

  /** The verdict in counts: a series whose window is complete is approved exactly when it had trades and at least
      the minimum share of them qualified, and rejected exactly otherwise, one strike up and backed off from now; one
      whose window is not complete is left as it is, and so is every row that is not observing. */
  lemma VerdictInCounts(cfg: Config, row: Row, qualified: nat, now: real)
    ensures var after := Evaluated(cfg, row, qualified, now);
            var complete := row.status == Observing && WindowComplete(cfg, row, now);
            var earned := row.tradesObserved > 0 && qualified as real >= cfg.minQualifyRate * row.tradesObserved as real;
            && (!complete ==> after == row)
            && (complete && earned ==> after == row.(status := Approved, lastEvaluatedAt := Some(now), nextEligibleAt := None))
            && (complete && !earned ==>
                  after == row.(status := Rejected, strikeCount := row.strikeCount + 1, lastEvaluatedAt := Some(now),
                                nextEligibleAt := Some(now + Backoff(cfg, row.strikeCount))))
  {
    if row.tradesObserved > 0 {
      var n := row.tradesObserved as real;
      var rate := qualified as real / n;
      assert rate * n == qualified as real;
      Compare(rate, cfg.minQualifyRate, n);
    }
  }

  /** The first strike backs off by the base, and each further one by the multiplier more, up to the cap. */
  lemma BackoffMultiplies(cfg: Config, strikes: nat)
    ensures Backoff(cfg, 0) == if cfg.backoffBaseSec < cfg.backoffMaxSec then cfg.backoffBaseSec else cfg.backoffMaxSec
    ensures Backoff(cfg, strikes) <= cfg.backoffMaxSec
    ensures Backoff(cfg, strikes) < cfg.backoffMaxSec ==>
              var longer := cfg.backoffMultiplier * Backoff(cfg, strikes);
              Backoff(cfg, strikes + 1) == if longer < cfg.backoffMaxSec then longer else cfg.backoffMaxSec
  {
    Swap(cfg.backoffBaseSec, cfg.backoffMultiplier, Power(cfg.backoffMultiplier, strikes));
  }

  lemma Swap(a: real, b: real, c: real)
    ensures a * (b * c) == b * (a * c)
  {
    assert a * (b * c) == (a * b) * c;
    assert b * (a * c) == (b * a) * c;
  }

  /** What a trade does to a row, status by status: it opens a window where there is none or a served backoff, adds
      to one that is open, and leaves an approved or still backed-off row alone. */
  lemma TradesInFull(t: Table, series: string, count: nat, now: real)
    ensures var after := AfterTrades(Lookup(t, series), count, now);
            after.Some?
            && (series !in t ==> after.value == Row(Observing, now, count, 0, None, None))
            && (series in t ==>
                  var row := t[series];
                  && (row.status == Approved ==> after.value == row)
                  && (row.status == Observing ==> after.value == row.(tradesObserved := row.tradesObserved + count))
                  && (row.status == Rejected && row.nextEligibleAt.Some? && row.nextEligibleAt.value <= now ==>
                        after.value == Row(Observing, now, count, row.strikeCount, row.lastEvaluatedAt, None))
                  && (row.status == Rejected && (row.nextEligibleAt.None? || row.nextEligibleAt.value > now) ==>
                        after.value == row))
  {
  }

  datatype Op =
    | Trade(series: string, now: real)
    | Bulk(counts: map<string, nat>, now: real)
    | Evaluate(qualified: (string, real) -> nat, now: real)
    | Reset(series: string, now: real)
    | ClearAll

  function Apply(cfg: Config, t: Table, op: Op): Table {
    match op
    case Trade(series, now) => RecordTrade(t, series, now)
    case Bulk(counts, now) => RecordBulk(t, counts, now)
    case Evaluate(qualified, now) => EvaluateAll(cfg, t, qualified, now)
    case Reset(series, now) => if series in t then t[series := ResetRow(t[series], now)] else t
    case ClearAll => map[]
  }

  function Run(cfg: Config, t: Table, ops: seq<Op>): Table
    decreases |ops|
  {
    if |ops| == 0 then t else Run(cfg, Apply(cfg, t, ops[0]), ops[1..])
  }

  /** A rejected row, and no other, carries the end of its backoff: the backoff of its latest strike
      counted from its verdict. */
  predicate RowFits(cfg: Config, row: Row) {
    && (row.nextEligibleAt.Some? <==> row.status == Rejected)
    && (row.status == Rejected ==>
          && row.strikeCount > 0 && row.lastEvaluatedAt.Some?
          && row.nextEligibleAt.value == row.lastEvaluatedAt.value + Backoff(cfg, row.strikeCount - 1))
  }

  predicate Fits(cfg: Config, t: Table) {
    forall s :: s in t ==> RowFits(cfg, t[s])
  }

  lemma StepFits(cfg: Config, t: Table, op: Op)
    requires Fits(cfg, t)
    ensures Fits(cfg, Apply(cfg, t, op))
  {
    match op
    case Trade(_, _) =>
    case Bulk(_, _) =>
    case Evaluate(_, _) =>
    case Reset(_, _) =>
    case ClearAll =>
  }

  /** Every run keeps each row's backoff tied to its strikes. */
  lemma {:induction false} RunFits(cfg: Config, t: Table, ops: seq<Op>)
    requires Fits(cfg, t)
    ensures Fits(cfg, Run(cfg, t, ops))
    decreases |ops|
  {
    if |ops| != 0 {
      StepFits(cfg, t, ops[0]);
      RunFits(cfg, Apply(cfg, t, ops[0]), ops[1..]);
    }
  }

  lemma {:induction false} PowerGrows(x: real, n: nat)
    requires x >= 1.0
    ensures 1.0 <= Power(x, n) <= Power(x, n + 1)
  {
    if n > 0 {
      PowerGrows(x, n - 1);
    }
    Scale(1.0, x, Power(x, n));
  }

  /** Successive strikes never shorten the backoff, and no backoff passes the cap. */
  lemma {:induction false} BackoffEscalates(cfg: Config, a: nat, b: nat)
    requires cfg.backoffMultiplier >= 1.0 && cfg.backoffBaseSec >= 0.0 && a <= b
    ensures Backoff(cfg, a) <= Backoff(cfg, b) <= cfg.backoffMaxSec
    decreases b - a
  {
    if a < b {
      BackoffEscalates(cfg, a, b - 1);
      PowerGrows(cfg.backoffMultiplier, b - 1);
      Scale(Power(cfg.backoffMultiplier, b - 1), Power(cfg.backoffMultiplier, b), cfg.backoffBaseSec);
    }
  }

  /** What a bystander counts for one series: rejections since insert or reset, and the trades and the
      start of its current observing window. */
  datatype Tally = Tally(rejections: nat, trades: nat, since: real)

  function TallyTrades(before: Option<Row>, count: nat, now: real, tally: Tally): Tally {
    if before.None? then Tally(0, count, now)
    else if before.value.status == Observing then tally.(trades := tally.trades + count)
    else if BackoffServed(before.value, now) then Tally(tally.rejections, count, now)
    else tally
  }

  function TallyStep(cfg: Config, t: Table, op: Op, series: string, tally: Tally): Tally {
    match op
    case Trade(s, now) => if s == series then TallyTrades(Lookup(t, series), 1, now, tally) else tally
    case Bulk(counts, now) =>
      if series in counts then TallyTrades(Lookup(t, series), counts[series], now, tally) else tally
    case Evaluate(_, _) =>
      var after := Apply(cfg, t, op);
      if series in t && t[series].status == Observing && after[series].status == Rejected
      then tally.(rejections := tally.rejections + 1)
      else tally
    case Reset(s, now) => if s == series then Tally(0, 0, now) else tally
    case ClearAll => tally
  }

  function TallyRun(cfg: Config, t: Table, ops: seq<Op>, series: string, tally: Tally): Tally
    decreases |ops|
  {
    if |ops| == 0 then tally
    else TallyRun(cfg, Apply(cfg, t, ops[0]), ops[1..], series, TallyStep(cfg, t, ops[0], series, tally))
  }

  predicate Agrees(t: Table, series: string, tally: Tally) {
    series in t ==>
      t[series].strikeCount == tally.rejections && t[series].tradesObserved == tally.trades
      && t[series].firstSeenAt == tally.since
  }

  /** Over every run a row's strike_count is its rejections since insert or reset, carried through every
      reactivation, and its trades_observed and first_seen_at are those of its current window alone. */
  lemma {:induction false} RowsAreTallies(cfg: Config, t: Table, ops: seq<Op>, series: string, tally: Tally)
    requires Agrees(t, series, tally)
    ensures Agrees(Run(cfg, t, ops), series, TallyRun(cfg, t, ops, series, tally))
    decreases |ops|
  {
    if |ops| != 0 {
      RowsAreTallies(cfg, Apply(cfg, t, ops[0]), ops[1..], series, TallyStep(cfg, t, ops[0], series, tally));
    }
  }

  /** Approval is left only by a reset of that series or by clearing everything. */
  lemma {:induction false} ApprovedIsSticky(cfg: Config, t: Table, ops: seq<Op>, series: string)
    requires series in t && t[series].status == Approved
    requires forall i :: 0 <= i < |ops| ==> !ops[i].ClearAll? && !(ops[i].Reset? && ops[i].series == series)
    ensures series in Run(cfg, t, ops) && Run(cfg, t, ops)[series] == t[series]
    decreases |ops|
  {
    if |ops| != 0 {
      assert !ops[0].ClearAll?;
      ApprovedIsSticky(cfg, Apply(cfg, t, ops[0]), ops[1..], series);
    }
  }

  /** No series is left observing at or past the maximum window, and a series with no trades by then is
      rejected. */
  lemma NoEndlessObservation(cfg: Config, t: Table, qualified: (string, real) -> nat, now: real, series: string)
    requires series in t && t[series].status == Observing && now - t[series].firstSeenAt >= cfg.maxObservationSec
    ensures var row := EvaluateAll(cfg, t, qualified, now)[series];
            row.status != Observing && (t[series].tradesObserved == 0 ==> row.status == Rejected)
  {
  }

  /** In every reachable table a rejected series is filtered out of discovery exactly while a trade
      would not reactivate it. */
  lemma IneligibleIffNotReactivated(cfg: Config, t: Table, series: string, now: real)
    requires Fits(cfg, t) && series in t && t[series].status == Rejected
    ensures t[series].nextEligibleAt.Some?
    ensures t[series].nextEligibleAt.value > now <==> RecordTrade(t, series, now)[series].status == Rejected
  {
  }

  datatype Verdict = Verdict(series: string, approved: bool, rate: real, tradesObserved: nat)

  /** The share of a window's trades that qualified; zero when there were none. */
  function QualifyRate(row: Row, qualified: nat): real {
    if row.tradesObserved == 0 then 0.0 else qualified as real / row.tradesObserved as real
  }

  /** The verdict says how its series left observation between the two tables. */
  predicate Rendered(before: Table, after: Table, qualified: (string, real) -> nat, v: Verdict)
    requires v.series in before
  {
    && v.series in after && before[v.series].status == Observing && after[v.series].status != Observing
    && v.approved == (after[v.series].status == Approved)
    && v.rate == QualifyRate(before[v.series], qualified(v.series, before[v.series].firstSeenAt))
    && v.tradesObserved == before[v.series].tradesObserved
  }

  lemma RenderedOnMerit(cfg: Config, row: Row, qualified: nat, now: real)
    requires row.status == Observing && Evaluated(cfg, row, qualified, now).status != Observing
    ensures WindowComplete(cfg, row, now)
    ensures if row.tradesObserved == 0 then QualifyRate(row, qualified) == 0.0
            else QualifyRate(row, qualified) * row.tradesObserved as real == qualified as real
    ensures Evaluated(cfg, row, qualified, now).status == Approved
            <==> row.tradesObserved > 0 && QualifyRate(row, qualified) >= cfg.minQualifyRate
  {
    VerdictInCounts(cfg, row, qualified, now);
    if row.tradesObserved > 0 {
      var n := row.tradesObserved as real;
      assert QualifyRate(row, qualified) * n == qualified as real;
      Compare(QualifyRate(row, qualified), cfg.minQualifyRate, n);
    }
  }

  /** The verdict is due, its rate is the share that qualified, and it approves exactly on a share that reaches the
      minimum. */
  predicate OnMerit(cfg: Config, row: Row, qualified: (string, real) -> nat, now: real, v: Verdict) {
    && WindowComplete(cfg, row, now) && v.tradesObserved == row.tradesObserved
    && (v.tradesObserved == 0 ==> v.rate == 0.0)
    && (v.tradesObserved > 0 ==> v.rate * v.tradesObserved as real == qualified(v.series, row.firstSeenAt) as real)
    && (v.approved <==> v.tradesObserved > 0 && v.rate >= cfg.minQualifyRate)
  }

  lemma VerdictsOnMerit(cfg: Config, before: Table, after: Table, qualified: (string, real) -> nat, now: real,
                        verdicts: seq<Verdict>)
    requires after == EvaluateAll(cfg, before, qualified, now)
    requires forall v :: v in verdicts ==> v.series in before && Rendered(before, after, qualified, v)
    ensures forall v :: v in verdicts ==> OnMerit(cfg, before[v.series], qualified, now, v)
  {
    forall v | v in verdicts
      ensures OnMerit(cfg, before[v.series], qualified, now, v)
    {
      RenderedOnMerit(cfg, before[v.series], qualified(v.series, before[v.series].firstSeenAt), now);
    }
  }

  class Evaluator {
    var rows: Table

    constructor ()
      ensures rows == map[]
    {
      rows := map[];
    }

    method RecordTradeObserved(series: string, now: real)
      modifies this
      ensures rows == RecordTrade(old(rows), series, now)
    {
      if series !in rows {
        rows := rows[series := Row(Observing, now, 1, 0, None, None)];
        return;
      }
      var row := rows[series];
      if row.status == Rejected {
        if row.nextEligibleAt.Some? && now >= row.nextEligibleAt.value {
          rows := rows[series := row.(status := Observing, firstSeenAt := now, tradesObserved := 1, nextEligibleAt := None)];
        }
        return;
      }
      if row.status == Approved {
        return;
      }
      rows := rows[series := row.(tradesObserved := row.tradesObserved + 1)];
    }

    /** The loop over counts_by_series, in whatever order the dict yields it. */
    method RecordTradesObservedBulk(counts: map<string, nat>, now: real)
      modifies this
      ensures rows == RecordBulk(old(rows), counts, now)
    {
      ghost var before := rows;
      var todo := counts.Keys;
      while todo != {}
        invariant todo <= counts.Keys
        invariant forall s :: Lookup(rows, s) == if s in counts && s !in todo then AfterTrades(Lookup(before, s), counts[s], now)
                                                 else Lookup(before, s)
        decreases todo
      {
        var series :| series in todo;
        assert Lookup(rows, series) == Lookup(before, series);
        CreditSeries(series, counts[series], now);
        todo := todo - {series};
      }
      SameLookups(rows, RecordBulk(before, counts, now));
    }

    method CreditSeries(series: string, count: nat, now: real)
      modifies this
      ensures forall s :: Lookup(rows, s) == if s == series then AfterTrades(Lookup(old(rows), s), count, now)
                                             else Lookup(old(rows), s)
    {
      if series !in rows {
        rows := rows[series := Row(Observing, now, count, 0, None, None)];
        return;
      }
      var row := rows[series];
      if row.status == Rejected {
        if row.nextEligibleAt.Some? && now >= row.nextEligibleAt.value {
          rows := rows[series := row.(status := Observing, firstSeenAt := now, tradesObserved := count, nextEligibleAt := None)];
        }
      } else if row.status == Observing {
        rows := rows[series := row.(tradesObserved := row.tradesObserved + count)];
      }
    }

    /** The verdict loop over the rows observing at the start of the call. */
    method EvaluatePending(cfg: Config, qualified: (string, real) -> nat, now: real) returns (verdicts: seq<Verdict>)
      modifies this
      ensures rows == EvaluateAll(cfg, old(rows), qualified, now)
      ensures forall v :: v in verdicts <==> v.series in old(rows) && Rendered(old(rows), rows, qualified, v)
      ensures forall v :: v in verdicts ==> OnMerit(cfg, old(rows)[v.series], qualified, now, v)
    {
      ghost var before := rows;
      verdicts := [];
      var todo := set s | s in rows && rows[s].status == Observing;
      while todo != {}
        invariant todo <= rows.Keys && rows.Keys == before.Keys
        invariant forall s :: s in todo ==> before[s].status == Observing && rows[s] == before[s]
        invariant forall s :: s in before && s !in todo ==>
                    rows[s] == Evaluated(cfg, before[s], qualified(s, before[s].firstSeenAt), now)
        invariant forall v :: v in verdicts <==>
                    v.series in before && v.series !in todo && Rendered(before, rows, qualified, v)
        decreases todo
      {
        var series :| series in todo;
        var row := rows[series];
        todo := todo - {series};
        if ReadyForVerdict(cfg, row, now) {
          var approved, rate := false, 0.0;
          if row.tradesObserved != 0 {
            rate := qualified(series, row.firstSeenAt) as real / row.tradesObserved as real;
            approved := rate >= cfg.minQualifyRate;
          }
          if approved {
            rows := rows[series := row.(status := Approved, lastEvaluatedAt := Some(now), nextEligibleAt := None)];
          } else {
            rows := rows[series := row.(status := Rejected, strikeCount := row.strikeCount + 1,
                                        lastEvaluatedAt := Some(now),
                                        nextEligibleAt := Some(now + Backoff(cfg, row.strikeCount)))];
          }
          verdicts := verdicts + [Verdict(series, approved, rate, row.tradesObserved)];
        }
      }
      VerdictsOnMerit(cfg, before, rows, qualified, now, verdicts);
    }

    /** In every reachable table, exactly the rejected series that a trade would leave rejected; in any other, a
        rejected row without a backoff is not filtered out either. */
    method IneligibleSeries(now: real) returns (series: set<string>)
      ensures forall s :: s in series <==>
                s in rows && rows[s].status == Rejected && rows[s].nextEligibleAt.Some?
                && RecordTrade(rows, s, now)[s].status == Rejected
      ensures forall cfg :: Fits(cfg, rows) ==>
                forall s :: s in series <==>
                  s in rows && rows[s].status == Rejected && RecordTrade(rows, s, now)[s].status == Rejected
    {
      series := set s | s in rows && rows[s].status == Rejected
                        && rows[s].nextEligibleAt.Some? && rows[s].nextEligibleAt.value > now;
    }

    /** The manual fresh start; False when the series was never observed. */
    method Reset(series: string, now: real) returns (found: bool)
      modifies this
      ensures rows == if series in old(rows) then old(rows)[series := ResetRow(old(rows)[series], now)] else old(rows)
      ensures found ==> series in rows && rows[series] == Row(Observing, now, 0, 0, Some(now), None)
      ensures found <==> series in old(rows)
    {
      found := series in rows;
      if found {
        rows := rows[series := Row(Observing, now, 0, 0, Some(now), None)];
      }
    }
  }
}
