/** correct_erroneous_close of services/paper_broker.py: undoing one fabricated exit price later. */
module Corrections {
  import opened Wrappers
  import opened KalshiFees
  import opened Ledger

  /** Trade ids are handed out once. */
  predicate IdsFresh(b: Book) {
    && (forall i :: 0 <= i < |b.trades| ==> b.trades[i].id < b.nextId)
    && (forall i, j :: 0 <= i < j < |b.trades| ==> b.trades[i].id < b.trades[j].id)
  }

  /** Every run of the ledger keeps ids fresh. */
  lemma {:induction false} RunKeepsIdsFresh(env: Env, b: Book, ops: seq<Op>)
    requires IdsFresh(b)
    ensures IdsFresh(Run(env, b, ops))
    decreases |ops|
  {
    if ops != [] {
      StepKeepsIdsFresh(env, b, ops[0]);
      RunKeepsIdsFresh(env, Apply(env, b, ops[0]), ops[1..]);
    }
  }

  lemma StepKeepsIdsFresh(env: Env, b: Book, op: Op)
    requires IdsFresh(b)
    ensures IdsFresh(Apply(env, b, op))
  {
  }

  lemma CloseReasonIsClose(reason: string)
    ensures IsClose(CLOSED + reason)
  {
    assert (CLOSED + reason)[..7] == "closed:";
  }

  lemma {:induction false} IndexIs(trades: seq<Trade>, k: nat)
    requires k < |trades| && forall j :: 0 <= j < k ==> trades[j].id != trades[k].id
    ensures IndexOf(trades, trades[k].id) == k
  {
  }

  /** A second correction of the same trade does nothing, whatever price it names. */
  lemma CorrectionIsOnce(env: Env, b: Book, id: nat, first: Option<real>, second: Option<real>)
    ensures var once := Apply(env, b, Correct(id, first));
            Apply(env, once, Correct(id, second)) == if Correctable(b, id) then once else b
  {
    if Correctable(b, id) {
      var k := IndexOf(b.trades, id);
      var after := b.trades[k := b.trades[k].(excluded := true)];
      assert after[k].id == id;
      IndexIs(after, k);
    }
  }

  /** A correction changes a row exactly when that row is the first with the id, is not yet excluded and
      has a reason that begins with "closed:"; and then it changes only the flag. */
  lemma CorrectionTouches(env: Env, b: Book, id: nat, price: Option<real>, i: nat)
    requires i < |b.trades|
    ensures var after := Apply(env, b, Correct(id, price)).trades;
            && |after| == |b.trades|
            && (after[i] != b.trades[i]
                <==> i == IndexOf(b.trades, id) && !b.trades[i].excluded && IsClose(b.trades[i].reason))
            && (after[i] == b.trades[i] || after[i] == b.trades[i].(excluded := true))
  {
  }

  /** An entry is out of a correction's reach unless its own reason begins with "closed:". */
  lemma EntryReasonDecidesReach(env: Env, b: Book, op: Op)
    requires IdsFresh(b) && op.Open? && !Refused(env, b, op)
    ensures Correctable(Apply(env, b, op), b.nextId) <==> "closed:" <= op.entry.reason
  {
    var after := Apply(env, b, op).trades;
    IndexIs(after, |b.trades|);
  }

  // ---- Correcting later equals closing right at first ----

  /** An operation that neither clamps nor refuses an entry. */
  ghost predicate Unconstrained(env: Env, b: Book, op: Op) {
    op.Open? ==> !Refused(env, b, op) && b.bankroll >= Priced(op.entry.size, UnitCost(op.entry.side, op.price))
  }

  ghost predicate AllUnconstrained(env: Env, b: Book, ops: seq<Op>)
    decreases |ops|
  {
    ops == [] || (Unconstrained(env, b, ops[0]) && AllUnconstrained(env, Apply(env, b, ops[0]), ops[1..]))
  }

  predicate LeavesAlone(ops: seq<Op>, id: nat) {
    forall i :: 0 <= i < |ops| && ops[i].Correct? ==> ops[i].id != id
  }

  /** Two books alike but for the cash and the price one close was struck at. */
  predicate Shifted(a: Book, b: Book, k: nat, gap: real) {
    && a.bankroll == b.bankroll + gap
    && a == b.(bankroll := a.bankroll, trades := a.trades)
    && |a.trades| == |b.trades| && k < |a.trades|
    && (forall i :: 0 <= i < |a.trades| && i != k ==> a.trades[i] == b.trades[i])
    && a.trades[k].id == b.trades[k].id
    && !a.trades[k].excluded && IsClose(a.trades[k].reason)
  }

  lemma {:induction false} SameIndex(a: seq<Trade>, b: seq<Trade>, id: nat)
    requires |a| == |b| && forall i :: 0 <= i < |a| ==> a[i].id == b[i].id
    ensures IndexOf(a, id) == IndexOf(b, id)
  {
    if a != [] && a[0].id != id {
      SameIndex(a[1..], b[1..], id);
    }
  }

  lemma OpenKeepsShift(env: Env, a: Book, b: Book, k: nat, gap: real, op: Op)
    requires Shifted(a, b, k, gap) && op.Open? && Unconstrained(env, a, op) && Unconstrained(env, b, op)
    ensures Shifted(Apply(env, a, op), Apply(env, b, op), k, gap)
    ensures Apply(env, a, op).trades[k] == a.trades[k]
  {
  }

  lemma StepKeepsShift(env: Env, a: Book, b: Book, k: nat, gap: real, op: Op)
    requires Shifted(a, b, k, gap) && Unconstrained(env, a, op) && Unconstrained(env, b, op)
    requires op.Correct? ==> op.id != a.trades[k].id
    ensures Shifted(Apply(env, a, op), Apply(env, b, op), k, gap)
    ensures Apply(env, a, op).trades[k] == a.trades[k]
  {
    match op
    case Open(_, _, _, _, _) => OpenKeepsShift(env, a, b, k, gap, op);
    case Close(_, _, _, _) =>
    case Place(_, _) =>
    case Cancel(_) =>
    case Correct(id, _) => SameIndex(a.trades, b.trades, id);
  }

  lemma {:induction false} RunKeepsShift(env: Env, a: Book, b: Book, k: nat, gap: real, ops: seq<Op>)
    requires Shifted(a, b, k, gap) && AllUnconstrained(env, a, ops) && AllUnconstrained(env, b, ops)
    requires LeavesAlone(ops, a.trades[k].id)
    ensures Shifted(Run(env, a, ops), Run(env, b, ops), k, gap) && Run(env, a, ops).trades[k] == a.trades[k]
    decreases |ops|
  {
    if ops != [] {
      StepKeepsShift(env, a, b, k, gap, ops[0]);
      assert LeavesAlone(ops[1..], a.trades[k].id);
      RunKeepsShift(env, Apply(env, a, ops[0]), Apply(env, b, ops[0]), k, gap, ops[1..]);
    }
  }

  /** What closing at another price differs by. */
  function PriceGap(env: Env, ticker: string, p: Position, bad: real, good: real): real {
    CashBack(env, ticker, p.side, p.size, bad) - CashBack(env, ticker, p.side, p.size, good)
  }

  lemma ClosesAreShifted(env: Env, b: Book, ticker: string, bad: real, good: real, reason: string, now: real)
    requires ticker in b.positions
    ensures var wrong, right := Apply(env, b, Close(ticker, bad, reason, now)), Apply(env, b, Close(ticker, good, reason, now));
            var gap := PriceGap(env, ticker, b.positions[ticker], bad, good);
            && Shifted(wrong, right, |b.trades|, gap) && wrong.trades[|b.trades|].id == b.nextId
            && CorrectionDelta(env, wrong.trades[|b.trades|], Some(good)) == -gap
  {
    CloseReasonIsClose(reason);
  }

  /** Correcting the shifted close closes the gap. */
  lemma RepairClosesGap(env: Env, wrong: Book, right: Book, k: nat, gap: real, good: real)
    requires Shifted(wrong, right, k, gap) && IdsFresh(wrong)
    requires CorrectionDelta(env, wrong.trades[k], Some(good)) == -gap
    ensures var repaired := Apply(env, wrong, Correct(wrong.trades[k].id, Some(good)));
            repaired == right.(trades := repaired.trades)
  {
    IndexIs(wrong.trades, k);
  }

  /** Correction commutes: closing at a bad price, running any later operations that neither clamp nor
      refuse an entry, and then correcting that close with a good price leaves the account exactly where
      closing at the good price at first would have: same bankroll, positions, orders and clocks. */
  lemma CorrectionCommutes(env: Env, b: Book, ticker: string, bad: real, good: real, reason: string, now: real, ops: seq<Op>)
    requires IdsFresh(b) && ticker in b.positions && LeavesAlone(ops, b.nextId)
    requires AllUnconstrained(env, Apply(env, b, Close(ticker, bad, reason, now)), ops)
    requires AllUnconstrained(env, Apply(env, b, Close(ticker, good, reason, now)), ops)
    ensures var wrong := Run(env, Apply(env, b, Close(ticker, bad, reason, now)), ops);
            var right := Run(env, Apply(env, b, Close(ticker, good, reason, now)), ops);
            var repaired := Apply(env, wrong, Correct(b.nextId, Some(good)));
            repaired == right.(trades := repaired.trades)
  {
    var k, gap := |b.trades|, PriceGap(env, ticker, b.positions[ticker], bad, good);
    var a1, a2 := Apply(env, b, Close(ticker, bad, reason, now)), Apply(env, b, Close(ticker, good, reason, now));
    ClosesAreShifted(env, b, ticker, bad, good, reason, now);
    RunKeepsShift(env, a1, a2, k, gap, ops);
    StepKeepsIdsFresh(env, b, Close(ticker, bad, reason, now));
    RunKeepsIdsFresh(env, a1, ops);
    RepairClosesGap(env, Run(env, a1, ops), Run(env, a2, ops), k, gap, good);
  }
}
