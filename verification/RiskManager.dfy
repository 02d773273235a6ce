/**
  services/risk_manager.py: the daily-loss kill switch, its persisted row, and
  the exposure cap. A UTC calendar date is its day number since the epoch.
*/
module RiskManager {
  import opened Wrappers
  import opened Reals

  datatype Config = Config(maxDailyLossPct: real, killSwitchEnabled: bool, maxTotalExposurePct: Option<real>)

  datatype Risk = Risk(dayStartBankroll: real, halted: bool, haltReason: Option<string>, dayStartDate: int)

  /** The risk_meta row; its date is NULL in rows older than the column. */
  datatype RiskRow = RiskRow(dayStartBankroll: real, halted: bool, haltReason: Option<string>, dayStartDate: Option<int>)

  function Today(now: real): int {
    (now / 86400.0).Floor
  }

  function LossPct(r: Risk, bankroll: real): real
    requires r.dayStartBankroll != 0.0
  {
    (r.dayStartBankroll - bankroll) / r.dayStartBankroll
  }

  function ResetDay(bankroll: real, now: real): Risk {
    Risk(bankroll, false, None, Today(now))
  }

  function RolledOver(r: Risk, bankroll: real, now: real): Risk {
    if Today(now) != r.dayStartDate then ResetDay(bankroll, now) else r
  }

  predicate Trips(cfg: Config, r: Risk, bankroll: real) {
    cfg.killSwitchEnabled && !r.halted && r.dayStartBankroll != 0.0 && LossPct(r, bankroll) >= cfg.maxDailyLossPct
  }

  datatype Op =
    | CheckDailyLoss(bankroll: real, now: real)
    | ManualHalt(reason: string)
    | Resume
    | ResetNow(bankroll: real, now: real)
    | Restart(now: real)

  const LOSS_REASON: string := "Daily loss limit hit"

  function ToRow(r: Risk): RiskRow {
    RiskRow(r.dayStartBankroll, r.halted, r.haltReason, Some(r.dayStartDate))
  }

  function Load(row: RiskRow, now: real): Risk {
    Risk(row.dayStartBankroll, row.halted, row.haltReason,
         if row.dayStartDate.Some? then row.dayStartDate.value else Today(now))
  }

  function Apply(cfg: Config, r: Risk, op: Op): Risk {
    match op
    case CheckDailyLoss(bankroll, now) =>
      var rolled := RolledOver(r, bankroll, now);
      if Trips(cfg, rolled, bankroll) then rolled.(halted := true, haltReason := Some(LOSS_REASON)) else rolled
    case ManualHalt(reason) => r.(halted := true, haltReason := Some(reason))
    case Resume => r.(halted := false, haltReason := None)
    case ResetNow(bankroll, now) => ResetDay(bankroll, now)
    case Restart(now) => Load(ToRow(r), now)
  }

  function Run(cfg: Config, r: Risk, ops: seq<Op>): Risk
    decreases |ops|
  {
    if ops == [] then r else Run(cfg, Apply(cfg, r, ops[0]), ops[1..])
  }

  /** An operation that may lift a halt tripped on this date. */
  predicate Lifts(op: Op, date: int) {
    op.Resume? || op.ResetNow? || (op.CheckDailyLoss? && Today(op.now) != date)
  }

  /** A halt, once set, survives checks, further halts and any number of restarts until it is resumed,
      reset, or checked on another UTC day. */
  lemma {:induction false} HaltSurvives(cfg: Config, r: Risk, ops: seq<Op>)
    requires r.halted && forall i :: 0 <= i < |ops| ==> !Lifts(ops[i], r.dayStartDate)
    ensures Run(cfg, r, ops).halted && Run(cfg, r, ops).dayStartBankroll == r.dayStartBankroll
    decreases |ops|
  {
    if ops != [] {
      assert !Lifts(ops[0], r.dayStartDate);
      HaltSurvives(cfg, Apply(cfg, r, ops[0]), ops[1..]);
    }
  }

  /** When the switch trips, in money: from a positive baseline, exactly on a loss of the configured
      share of it. From a negative baseline the comparison turns round, and from zero it never trips. */
  lemma TripsOnLoss(cfg: Config, r: Risk, bankroll: real)
    requires cfg.killSwitchEnabled && !r.halted
    ensures Trips(cfg, r, bankroll) <==>
              || (r.dayStartBankroll > 0.0 && r.dayStartBankroll - bankroll >= cfg.maxDailyLossPct * r.dayStartBankroll)
              || (r.dayStartBankroll < 0.0 && r.dayStartBankroll - bankroll <= cfg.maxDailyLossPct * r.dayStartBankroll)
  {
    if r.dayStartBankroll != 0.0 {
      var start, pct := r.dayStartBankroll, cfg.maxDailyLossPct;
      var loss := LossPct(r, bankroll);
      assert loss * start == start - bankroll;
      if start > 0.0 {
        Compare(loss, pct, start);
      } else {
        Compare(loss, pct, -start);
        assert loss * -start == -(loss * start) && pct * -start == -(pct * start);
      }
    }
  }

  /** On a negative baseline a further loss never trips the switch, and getting back to zero does. */
  lemma NegativeBaselineInverts(cfg: Config, r: Risk, bankroll: real)
    requires cfg.killSwitchEnabled && !r.halted && r.dayStartBankroll < 0.0 && 0.0 < cfg.maxDailyLossPct <= 1.0
    ensures bankroll <= r.dayStartBankroll ==> !Trips(cfg, r, bankroll)
    ensures bankroll >= 0.0 ==> Trips(cfg, r, bankroll)
  {
    TripsOnLoss(cfg, r, bankroll);
    var debt, pct := -r.dayStartBankroll, cfg.maxDailyLossPct;
    assert pct * r.dayStartBankroll == -(pct * debt);
    assert pct * debt > 0.0;
    Compare(1.0, pct, debt);
  }

  /** A UTC day is 86400 seconds. */
  lemma DayIs86400Seconds(now: real)
    ensures 86400.0 * Today(now) as real <= now < 86400.0 * (Today(now) + 1) as real
  {
    var q := now / 86400.0;
    assert q.Floor as real <= q < (q.Floor + 1) as real;
    assert now == 86400.0 * q;
  }

  /** One check: on a new day it first starts over from the bankroll, unhalted; either way the day and its
      baseline are then fixed, and the switch is halted exactly if it still was or this bankroll trips it. */
  lemma CheckInFull(cfg: Config, r: Risk, bankroll: real, now: real)
    ensures var after := Apply(cfg, r, CheckDailyLoss(bankroll, now));
            var newDay := Today(now) != r.dayStartDate;
            var base := if newDay then bankroll else r.dayStartBankroll;
            var was := !newDay && r.halted;
            && after.dayStartDate == Today(now) && after.dayStartBankroll == base
            && (after.halted <==> was || (cfg.killSwitchEnabled && base != 0.0 && (base - bankroll) / base >= cfg.maxDailyLossPct))
            && (after.haltReason == if newDay && !after.halted then None
                                    else if after.halted && !was then Some(LOSS_REASON)
                                    else r.haltReason)
  {
  }

  /** A new day lifts yesterday's halt and takes today's bankroll as its baseline, for every positive limit. */
  lemma NewDayStartsOver(cfg: Config, r: Risk, bankroll: real, now: real)
    requires Today(now) != r.dayStartDate && cfg.maxDailyLossPct > 0.0
    ensures Apply(cfg, r, CheckDailyLoss(bankroll, now)) == Risk(bankroll, false, None, Today(now))
  {
    CheckInFull(cfg, r, bankroll, now);
    if bankroll != 0.0 {
      assert (bankroll - bankroll) / bankroll == 0.0;
    }
  }

  /** What the operator's commands do: a halt keeps the day and names its reason, a resume lifts any halt and
      keeps the day, a reset starts the day over. */
  lemma CommandsInFull(cfg: Config, r: Risk, reason: string, bankroll: real, now: real)
    ensures Apply(cfg, r, ManualHalt(reason)) == Risk(r.dayStartBankroll, true, Some(reason), r.dayStartDate)
    ensures Apply(cfg, r, Resume) == Risk(r.dayStartBankroll, false, None, r.dayStartDate)
    ensures Apply(cfg, r, ResetNow(bankroll, now)) == Risk(bankroll, false, None, Today(now))
    ensures Apply(cfg, r, Restart(now)) == r
  {
  }

  /** Loading a row gives back the state it was written from exactly when the row has its date, or is
      loaded on that very date. */
  lemma RestartRestores(r: Risk, row: RiskRow, now: real)
    requires row == ToRow(r) || row == ToRow(r).(dayStartDate := None)
    ensures Load(row, now) == r <==> row.dayStartDate.Some? || Today(now) == r.dayStartDate
  {
  }

  /** True if the prospective cost keeps total exposure within the cap. */
  predicate WithinExposure(cap: Option<real>, currentExposure: real, prospectiveCost: real, bankroll: real) {
    cap.None? || currentExposure + prospectiveCost <= bankroll * cap.value
  }

  /** There is no cap, or what is held and what would be added stay within its share of the bankroll. */
  lemma WithinExposureIff(cap: Option<real>, current: real, cost: real, bankroll: real)
    ensures WithinExposure(cap, current, cost, bankroll) <==> (cap.Some? ==> !(current + cost > bankroll * cap.value))
  {
  }

  class Manager {
    const cfg: Config
    var dayStartBankroll: real
    var halted: bool
    var haltReason: Option<string>
    var dayStartDate: int
    var row: RiskRow

    ghost function Model(): Risk
      reads this
    {
      Risk(dayStartBankroll, halted, haltReason, dayStartDate)
    }

    /** The row in the file restores the memory, whenever it was written with its date. */
    ghost predicate Persisted()
      reads this
    {
      row == ToRow(Model())
    }

    /** First run ever: seed the row. */
    constructor Fresh(cfg: Config, startingBankroll: real, now: real)
      ensures this.cfg == cfg && Model() == ResetDay(startingBankroll, now) && Persisted()
    {
      this.cfg := cfg;
      dayStartBankroll, halted, haltReason, dayStartDate := startingBankroll, false, None, Today(now);
      row := RiskRow(startingBankroll, false, None, Some(Today(now)));
    }

    /** Restart: the row wins. */
    constructor Reload(cfg: Config, row: RiskRow, now: real)
      ensures this.cfg == cfg && this.row == row && Model() == Load(row, now)
      ensures row.dayStartDate.Some? ==> Persisted()
    {
      this.cfg := cfg;
      this.row := row;
      dayStartBankroll, halted, haltReason := row.dayStartBankroll, row.halted, row.haltReason;
      dayStartDate := if row.dayStartDate.Some? then row.dayStartDate.value else Today(now);
    }

    method Persist()
      modifies `row
      ensures Persisted()
    {
      row := RiskRow(dayStartBankroll, halted, haltReason, Some(dayStartDate));
    }

    method ResetDayNow(bankroll: real, now: real)
      modifies this
      ensures Model() == Apply(cfg, old(Model()), ResetNow(bankroll, now)) && Persisted()
    {
      dayStartBankroll, halted, haltReason, dayStartDate := bankroll, false, None, Today(now);
      Persist();
    }

    /** True if trading should continue. Rolls the day over first, then trips on the loss limit, and
        persists whatever it changed. */
    method CheckDailyLossNow(bankroll: real, now: real) returns (ok: bool)
      modifies this
      ensures Model() == Apply(cfg, old(Model()), CheckDailyLoss(bankroll, now))
      ensures ok == !halted
      ensures old(Persisted()) ==> Persisted()
    {
      if Today(now) != dayStartDate {
        ResetDayNow(bankroll, now);
      }
      if !cfg.killSwitchEnabled || halted {
        return !halted;
      }
      if dayStartBankroll == 0.0 {
        return true;
      }
      var lossPct := (dayStartBankroll - bankroll) / dayStartBankroll;
      if lossPct >= cfg.maxDailyLossPct {
        halted := true;
        haltReason := Some(LOSS_REASON);
        Persist();
        return false;
      }
      return true;
    }

    method HaltManually(reason: string)
      modifies this
      ensures Model() == Apply(cfg, old(Model()), ManualHalt(reason)) && Persisted()
    {
      halted, haltReason := true, Some(reason);
      Persist();
    }

    method ResumeTrading()
      modifies this
      ensures Model() == Apply(cfg, old(Model()), Resume) && Persisted()
    {
      halted, haltReason := false, None;
      Persist();
    }
  }
}
