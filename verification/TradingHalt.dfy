/** The risk manager and the broker together: open_position reads the halt the manager holds at the time. */
module TradingHalt {
  import opened Ledger
  import RiskManager

  datatype System = System(risk: RiskManager.Risk, book: Book)

  /** A risk operation (a restart among them) or a ledger operation. */
  datatype Op = RiskOp(risk: RiskManager.Op) | LedgerOp(ledger: Ledger.Op)

  /** An entry meets the halt that is in force. */
  function AsSeen(op: Ledger.Op, halted: bool): Ledger.Op {
    if op.Open? then op.(halted := halted) else op
  }

  ghost function Apply(cfg: RiskManager.Config, env: Env, s: System, op: Op): System {
    match op
    case RiskOp(r) => s.(risk := RiskManager.Apply(cfg, s.risk, r))
    case LedgerOp(l) => s.(book := Ledger.Apply(env, s.book, AsSeen(l, s.risk.halted)))
  }

  ghost function Run(cfg: RiskManager.Config, env: Env, s: System, ops: seq<Op>): System
    decreases |ops|
  {
    if ops == [] then s else Run(cfg, env, Apply(cfg, env, s, ops[0]), ops[1..])
  }

  /** While nothing is halted, an entry is refused for the exposure cap alone. */
  lemma UnhaltedMeetsOnlyTheCap(cfg: RiskManager.Config, env: Env, s: System, op: Ledger.Op)
    requires op.Open? && !s.risk.halted
    ensures var after := Apply(cfg, env, s, LedgerOp(op));
            && after.risk == s.risk
            && (|after.book.trades| == |s.book.trades| <==> CapExceeded(env, s.book, op.(halted := false)))
  {
    EntryRefusedIff(env, s.book, op.(halted := false));
    assert Apply(cfg, env, s, LedgerOp(op)).book == Ledger.Apply(env, s.book, op.(halted := false));
  }

  predicate NeverLifted(ops: seq<Op>, date: int) {
    forall i :: 0 <= i < |ops| && ops[i].RiskOp? ==> !RiskManager.Lifts(ops[i].risk, date)
  }

  /** Only closes were logged since, and earlier rows changed at most their excluded flag. */
  predicate OnlyCloses(before: seq<Trade>, after: seq<Trade>) {
    && |before| <= |after|
    && (forall i :: |before| <= i < |after| ==> IsClose(after[i].reason))
    && (forall i :: 0 <= i < |before| ==> after[i] == before[i].(excluded := after[i].excluded))
  }

  /** From a halt on, through any mix of ledger operations, checks and restarts that do not lift it, no
      position is opened or changed: positions only leave the book, and every new trade is a close. */
  lemma {:induction false} HaltedTradesNothing(cfg: RiskManager.Config, env: Env, s: System, ops: seq<Op>)
    requires s.risk.halted && NeverLifted(ops, s.risk.dayStartDate)
    ensures var after := Run(cfg, env, s, ops);
            && after.risk.halted && OnlyCloses(s.book.trades, after.book.trades)
            && forall t :: t in after.book.positions ==>
                 t in s.book.positions && after.book.positions[t] == s.book.positions[t]
    decreases |ops|
  {
    if ops != [] {
      var next := Apply(cfg, env, s, ops[0]);
      StepWhileHalted(cfg, env, s, ops[0]);
      assert NeverLifted(ops[1..], next.risk.dayStartDate);
      HaltedTradesNothing(cfg, env, next, ops[1..]);
    }
  }

  lemma StepWhileHalted(cfg: RiskManager.Config, env: Env, s: System, op: Op)
    requires s.risk.halted && (op.RiskOp? ==> !RiskManager.Lifts(op.risk, s.risk.dayStartDate))
    ensures var next := Apply(cfg, env, s, op);
            && next.risk.halted && next.risk.dayStartDate == s.risk.dayStartDate
            && OnlyCloses(s.book.trades, next.book.trades)
            && forall t :: t in next.book.positions ==> t in s.book.positions && next.book.positions[t] == s.book.positions[t]
  {
    if op.LedgerOp? && op.ledger.Close? {
      assert (CLOSED + op.ledger.reason)[..7] == "closed:";
    }
  }
}
