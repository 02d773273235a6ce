/**
  summary() of services/fault_log.py: which part of a window's occurrences the
  lifetime counts of the table can state exactly, over every run of the table's
  connections once it is indexed. since is None for "everything ever".
*/
module FaultSummary {
  import opened Wrappers
  import opened FaultLog

  predicate Within(t: real, since: Option<real>) {
    since.None? || t >= since.value
  }

  // ---- What summary() reads from the table ----

  function TotalOccurrences(rows: seq<Fault>, since: Option<real>): nat {
    if rows == [] then 0
    else
      var last := rows[|rows| - 1];
      TotalOccurrences(rows[..|rows| - 1], since) + if Within(last.firstSeen, since) then last.count else 0
  }

  function DistinctFaults(rows: seq<Fault>, since: Option<real>): nat {
    if rows == [] then 0
    else DistinctFaults(rows[..|rows| - 1], since) + if Within(rows[|rows| - 1].lastSeen, since) then 1 else 0
  }

  function StartedInWindow(rows: seq<Fault>, since: Option<real>): nat {
    if rows == [] then 0
    else StartedInWindow(rows[..|rows| - 1], since) + if Within(rows[|rows| - 1].firstSeen, since) then 1 else 0
  }

  predicate Ongoing(r: Fault, since: Option<real>) {
    !Within(r.firstSeen, since) && Within(r.lastSeen, since)
  }

  function OngoingFaults(rows: seq<Fault>, since: Option<real>): nat {
    if rows == [] then 0
    else OngoingFaults(rows[..|rows| - 1], since) + if Ongoing(rows[|rows| - 1], since) then 1 else 0
  }

  // ---- What really happened ----

  /** The writes report stored messages, as record() and record_fault() always do, and their clock does not go
      back, from the given moment on. */
  predicate Timely(steps: seq<Step>, from: real)
    decreases |steps|
  {
    steps == []
    || if steps[0].Write?
       then steps[0].report.sig.message.Some? && steps[0].report.now >= from && Timely(steps[1..], steps[0].report.now)
       else Timely(steps[1..], from)
  }

  function ClockAfter(step: Step, from: real): real {
    if step.Write? then step.report.now else from
  }

  /** An indexed table whose rows carry messages and were first seen by the given moment. */
  predicate Settled(s: State, from: real) {
    && Valid(s) && s.indexed
    && forall r :: r in s.rows ==> r.sig.message.Some? && r.firstSeen <= from
  }

  /** Occurrences inside the window. */
  function InWindow(steps: seq<Step>, since: Option<real>): nat {
    if steps == [] then 0
    else (if steps[0].Write? && Within(steps[0].report.now, since) then 1 else 0) + InWindow(steps[1..], since)
  }

  /** Whether the report falls to a row that was there before the window. */
  predicate Continues(rows: seq<Fault>, report: Report, since: Option<real>) {
    Within(report.now, since)
    && RowOf(rows, report.sig).Some? && !Within(RowOf(rows, report.sig).value.firstSeen, since)
  }

  /** In-window occurrences that fall to such a row. */
  function OngoingShare(s: State, steps: seq<Step>, since: Option<real>): nat
    requires Runnable(s, steps)
    decreases |steps|
  {
    if steps == [] then 0
    else
      (if steps[0].Write? && Continues(s.rows, steps[0].report, since) then 1 else 0)
      + OngoingShare(Apply(s, steps[0]), steps[1..], since)
  }

  /** The rows a prune deletes. */
  function Gone(rows: seq<Fault>, cutoff: real): seq<Fault> {
    if rows == [] then []
    else
      var gone, last := Gone(rows[..|rows| - 1], cutoff), rows[|rows| - 1];
      if last.lastSeen < cutoff then gone + [last] else gone
  }

  /** What pruning took out of the window's total. */
  function PrunedShare(s: State, steps: seq<Step>, since: Option<real>): nat
    requires Runnable(s, steps)
    decreases |steps|
  {
    if steps == [] then 0
    else
      (if steps[0].Prune? then TotalOccurrences(Gone(s.rows, steps[0].cutoff), since) else 0)
      + PrunedShare(Apply(s, steps[0]), steps[1..], since)
  }

  lemma SnocTotals(rows: seq<Fault>, r: Fault, since: Option<real>)
    ensures TotalOccurrences(rows + [r], since)
            == TotalOccurrences(rows, since) + if Within(r.firstSeen, since) then r.count else 0
  {
    assert (rows + [r])[..|rows|] == rows;
  }

  /** The row of a signature, if it has one. */
  function RowOf(rows: seq<Fault>, sig: Signature): Option<Fault> {
    if rows == [] then None
    else if Collides(rows[|rows| - 1].sig, sig) then Some(rows[|rows| - 1])
    else RowOf(rows[..|rows| - 1], sig)
  }

  lemma {:induction false} RowOfKnown(rows: seq<Fault>, sig: Signature)
    ensures RowOf(rows, sig).Some? <==> Known(rows, sig)
    ensures RowOf(rows, sig).Some? ==> RowOf(rows, sig).value in rows && Collides(RowOf(rows, sig).value.sig, sig)
  {
    if rows != [] {
      var front := rows[..|rows| - 1];
      assert rows == front + [rows[|rows| - 1]];
      RowOfKnown(front, sig);
      KnownSnoc(front, rows[|rows| - 1], sig);
    }
  }

  lemma {:induction false} RowOfBumped(rows: seq<Fault>, report: Report, sig: Signature)
    ensures RowOf(BumpAll(rows, report), sig)
            == if RowOf(rows, sig).Some? then Some(Bumped(RowOf(rows, sig).value, report)) else None
  {
    if rows != [] {
      var front := rows[..|rows| - 1];
      assert BumpAll(rows, report)[..|rows| - 1] == BumpAll(front, report);
      RowOfBumped(front, report, sig);
    }
  }

  lemma {:induction false} BumpTotals(rows: seq<Fault>, report: Report, since: Option<real>)
    requires SignaturesUnique(rows)
    ensures TotalOccurrences(BumpAll(rows, report), since)
            == TotalOccurrences(rows, since)
               + if RowOf(rows, report.sig).Some? && Within(RowOf(rows, report.sig).value.firstSeen, since) then 1 else 0
  {
    if rows != [] {
      var front, x := rows[..|rows| - 1], rows[|rows| - 1];
      assert BumpAll(rows, report)[..|rows| - 1] == BumpAll(front, report);
      BumpTotals(front, report, since);
      if Collides(x.sig, report.sig) {
        RowOfKnown(front, report.sig);
        assert forall i :: 0 <= i < |front| ==> !Collides(rows[i].sig, rows[|rows| - 1].sig);
      }
    }
  }

  /** What one report does to the row of a signature. */
  lemma RowAfterReport(rows: seq<Fault>, nextId: nat, report: Report, sig: Signature)
    requires sig.message.Some?
    ensures RowOf(Upsert(rows, nextId, report), sig)
            == if report.sig != sig then RowOf(rows, sig)
               else if RowOf(rows, sig).Some? then Some(Bumped(RowOf(rows, sig).value, report))
               else Some(NewRow(nextId, report))
  {
    RowOfKnown(rows, report.sig);
    RowOfKnown(rows, sig);
    if Known(rows, report.sig) {
      RowOfBumped(rows, report, sig);
    } else {
      assert (rows + [NewRow(nextId, report)])[..|rows|] == rows;
    }
  }

  lemma SettledUnique(s: State, from: real)
    requires Settled(s, from)
    ensures SignaturesUnique(s.rows) && Merge(s.rows) == s.rows
  {
    MergeIsReplay(s.rows);
    ReplayOfUnique(s.rows);
  }

  /** Merging a table without duplicates changes nothing. */
  lemma {:induction false} ReplayOfUnique(rows: seq<Fault>)
    requires SignaturesUnique(rows) && AscendingIds(rows) && forall r :: r in rows ==> r.sig.message.Some?
    ensures Replay(rows) == rows
  {
    if rows != [] {
      var front, last := rows[..|rows| - 1], rows[|rows| - 1];
      assert rows == front + [last];
      ReplayOfUnique(front);
      forall i | 0 <= i < |front|
        ensures !SameGroup(front[i], last)
      {
        assert last in rows && rows[i] == front[i] && !Collides(rows[i].sig, rows[|rows| - 1].sig);
      }
    }
  }

  lemma {:induction false} KeptOrGone(rows: seq<Fault>, cutoff: real, since: Option<real>)
    ensures TotalOccurrences(rows, since)
            == TotalOccurrences(Keep(rows, cutoff), since) + TotalOccurrences(Gone(rows, cutoff), since)
  {
    if rows != [] {
      var front, last := rows[..|rows| - 1], rows[|rows| - 1];
      KeptOrGone(front, cutoff, since);
      if last.lastSeen < cutoff {
        SnocTotals(Gone(front, cutoff), last, since);
      } else {
        SnocTotals(Keep(front, cutoff), last, since);
      }
    }
  }

  lemma {:induction false} KeptRows(rows: seq<Fault>, cutoff: real, r: Fault)
    ensures r in Keep(rows, cutoff) <==> r in rows && r.lastSeen >= cutoff
    ensures r in Gone(rows, cutoff) <==> r in rows && r.lastSeen < cutoff
  {
    if rows != [] {
      assert rows == rows[..|rows| - 1] + [rows[|rows| - 1]];
      KeptRows(rows[..|rows| - 1], cutoff, r);
    }
  }

  lemma StepStamps(s: State, step: Step, from: real, r: Fault)
    requires Settled(s, from) && Enabled(s, step) && Timely([step], from)
    requires r in Apply(s, step).rows
    ensures r.sig.message.Some? && r.firstSeen <= ClockAfter(step, from)
  {
    match step
    case Write(_, report) =>
      var i :| 0 <= i < |Apply(s, step).rows| && Apply(s, step).rows[i] == r;
      assert i < |s.rows| ==> s.rows[i] in s.rows;
    case Prune(_, cutoff) => KeptRows(s.rows, cutoff, r);
    case AttemptIndex(_) =>
    case MergeAndIndex(_) => SettledUnique(s, from);
  }

  lemma StepSettled(s: State, step: Step, from: real)
    requires Settled(s, from) && Enabled(s, step) && Timely([step], from)
    ensures Settled(Apply(s, step), ClockAfter(step, from))
  {
    StepValid(s, step);
    forall r | r in Apply(s, step).rows
      ensures r.sig.message.Some? && r.firstSeen <= ClockAfter(step, from)
    {
      StepStamps(s, step, from, r);
    }
  }

  /** What one report adds to the window's total. */
  lemma WriteTotals(rows: seq<Fault>, nextId: nat, report: Report, since: Option<real>)
    requires SignaturesUnique(rows) && report.sig.message.Some?
    requires forall r :: r in rows ==> r.firstSeen <= report.now
    ensures TotalOccurrences(Upsert(rows, nextId, report), since) + (if Continues(rows, report, since) then 1 else 0)
            == TotalOccurrences(rows, since) + if Within(report.now, since) then 1 else 0
  {
    RowOfKnown(rows, report.sig);
    if Known(rows, report.sig) {
      BumpTotals(rows, report, since);
    } else {
      SnocTotals(rows, NewRow(nextId, report), since);
    }
  }

  lemma StepTotals(s: State, step: Step, from: real, since: Option<real>)
    requires Settled(s, from) && Enabled(s, step) && Timely([step], from)
    ensures Runnable(s, [step])
    ensures TotalOccurrences(Apply(s, step).rows, since) + OngoingShare(s, [step], since) + PrunedShare(s, [step], since)
            == TotalOccurrences(s.rows, since) + InWindow([step], since)
  {
    assert [step][1..] == [];
    SettledUnique(s, from);
    match step
    case Write(_, report) => WriteTotals(s.rows, s.nextId, report, since);
    case Prune(_, cutoff) => KeptOrGone(s.rows, cutoff, since);
    case AttemptIndex(_) =>
    case MergeAndIndex(_) =>
  }

  lemma FirstOfRun(s: State, steps: seq<Step>, from: real, since: Option<real>)
    requires steps != [] && Runnable(s, steps) && Timely(steps, from)
    ensures Timely([steps[0]], from) && Timely(steps[1..], ClockAfter(steps[0], from)) && Runnable(s, [steps[0]])
    ensures var next, rest := Apply(s, steps[0]), steps[1..];
            && OngoingShare(s, steps, since) == OngoingShare(s, [steps[0]], since) + OngoingShare(next, rest, since)
            && PrunedShare(s, steps, since) == PrunedShare(s, [steps[0]], since) + PrunedShare(next, rest, since)
            && InWindow(steps, since) == InWindow([steps[0]], since) + InWindow(rest, since)
  {
    assert [steps[0]][1..] == [];
  }

  /** Over every run of writes, prunes and late merges: what total_occurrences grew by is the number of in-window
      occurrences, less the in-window share of rows that were there before the window, less what pruning
      deleted. */
  lemma {:induction false} WindowTotalIsExact(s: State, steps: seq<Step>, from: real, since: Option<real>)
    requires Settled(s, from) && Runnable(s, steps) && Timely(steps, from)
    ensures TotalOccurrences(Run(s, steps).rows, since) + OngoingShare(s, steps, since) + PrunedShare(s, steps, since)
            == TotalOccurrences(s.rows, since) + InWindow(steps, since)
    decreases |steps|
  {
    if steps != [] {
      FirstOfRun(s, steps, from, since);
      StepTotals(s, steps[0], from, since);
      StepSettled(s, steps[0], from);
      WindowTotalIsExact(Apply(s, steps[0]), steps[1..], ClockAfter(steps[0], from), since);
    }
  }

  predicate LastNotBeforeFirst(rows: seq<Fault>) {
    forall r :: r in rows ==> r.firstSeen <= r.lastSeen
  }

  lemma StepKeepsLastNotBeforeFirst(s: State, step: Step, from: real)
    requires Settled(s, from) && Enabled(s, step) && Timely([step], from) && LastNotBeforeFirst(s.rows)
    ensures LastNotBeforeFirst(Apply(s, step).rows)
  {
    SettledUnique(s, from);
    if step.Prune? {
      forall r | r in Keep(s.rows, step.cutoff)
        ensures r in s.rows
      {
        KeptRows(s.rows, step.cutoff, r);
      }
    }
  }

  /** A clock that does not go back never leaves a row last seen before it was first seen. */
  lemma {:induction false} LastSeenNotBeforeFirst(s: State, steps: seq<Step>, from: real)
    requires Settled(s, from) && Runnable(s, steps) && Timely(steps, from) && LastNotBeforeFirst(s.rows)
    ensures LastNotBeforeFirst(Run(s, steps).rows)
    decreases |steps|
  {
    if steps != [] {
      FirstOfRun(s, steps, from, None);
      StepSettled(s, steps[0], from);
      StepKeepsLastNotBeforeFirst(s, steps[0], from);
      LastSeenNotBeforeFirst(Apply(s, steps[0]), steps[1..], ClockAfter(steps[0], from));
    }
  }

  lemma {:induction false} NothingWithin(rows: seq<Fault>, since: Option<real>)
    requires forall r :: r in rows ==> !Within(r.firstSeen, since)
    ensures TotalOccurrences(rows, since) == 0
  {
    if rows != [] {
      assert rows == rows[..|rows| - 1] + [rows[|rows| - 1]];
      NothingWithin(rows[..|rows| - 1], since);
    }
  }

  /** Retention that does not reach into the window takes nothing out of its total: it misses only the ongoing
      rows' share. */
  lemma {:induction false} RetentionOutsideWindow(s: State, steps: seq<Step>, from: real, since: real)
    requires Settled(s, from) && Runnable(s, steps) && Timely(steps, from) && LastNotBeforeFirst(s.rows)
    requires forall i :: 0 <= i < |steps| && steps[i].Prune? ==> steps[i].cutoff <= since
    ensures PrunedShare(s, steps, Some(since)) == 0
    ensures TotalOccurrences(Run(s, steps).rows, Some(since)) + OngoingShare(s, steps, Some(since))
            == TotalOccurrences(s.rows, Some(since)) + InWindow(steps, Some(since))
    decreases |steps|
  {
    WindowTotalIsExact(s, steps, from, Some(since));
    if steps != [] {
      FirstOfRun(s, steps, from, Some(since));
      StepSettled(s, steps[0], from);
      StepKeepsLastNotBeforeFirst(s, steps[0], from);
      if steps[0].Prune? {
        forall r | r in Gone(s.rows, steps[0].cutoff)
          ensures r in s.rows && r.lastSeen < since
        {
          KeptRows(s.rows, steps[0].cutoff, r);
        }
        NothingWithin(Gone(s.rows, steps[0].cutoff), Some(since));
      }
      RetentionOutsideWindow(Apply(s, steps[0]), steps[1..], ClockAfter(steps[0], from), since);
    }
  }

  lemma {:induction false} NoWindow(s: State, steps: seq<Step>)
    requires Runnable(s, steps)
    ensures InWindow(steps, None) == Writes(steps) && OngoingShare(s, steps, None) == 0
    decreases |steps|
  {
    if steps != [] {
      NoWindow(Apply(s, steps[0]), steps[1..]);
    }
  }

  /** With no window there is nothing to misattribute: the total is every occurrence ever but those pruned. */
  lemma LifetimeTotalIsEverything(s: State, steps: seq<Step>, from: real)
    requires Settled(s, from) && Runnable(s, steps) && Timely(steps, from)
    ensures TotalOccurrences(Run(s, steps).rows, None) + PrunedShare(s, steps, None)
            == TotalOccurrences(s.rows, None) + Writes(steps)
  {
    WindowTotalIsExact(s, steps, from, None);
    NoWindow(s, steps);
  }

  // ---- One row ----

  /** What a step should leave of a signature's row: nothing once it is pruned; the last report's stamp, one more
      report and the newest stack any report carried; and a new start after a prune. */
  function Told(row: Option<Fault>, step: Step, sig: Signature): Option<Fault> {
    match step
    case Write(_, report) =>
      if report.sig != sig then row
      else if row.None?
      then Some(Fault(0, sig, report.severity, report.traceback, report.traceback, report.context, 1, report.now, report.now))
      else Some(row.value.(count := row.value.count + 1, lastSeen := report.now,
                           lastTraceback := if report.traceback.Some? then report.traceback else row.value.lastTraceback))
    case Prune(_, cutoff) => if row.Some? && row.value.lastSeen < cutoff then None else row
    case _ => row
  }

  function ToldBy(row: Option<Fault>, steps: seq<Step>, sig: Signature): Option<Fault>
    decreases |steps|
  {
    if steps == [] then row else ToldBy(Told(row, steps[0], sig), steps[1..], sig)
  }

  /** The row of a signature but for its id. */
  function Shown(rows: seq<Fault>, sig: Signature): Option<Fault> {
    if RowOf(rows, sig).Some? then Some(RowOf(rows, sig).value.(id := 0)) else None
  }

  lemma {:induction false} RowOfKept(rows: seq<Fault>, cutoff: real, sig: Signature)
    requires SignaturesUnique(rows)
    ensures RowOf(Keep(rows, cutoff), sig)
            == if RowOf(rows, sig).Some? && RowOf(rows, sig).value.lastSeen < cutoff then None else RowOf(rows, sig)
  {
    if rows != [] {
      var front, last := rows[..|rows| - 1], rows[|rows| - 1];
      assert rows == front + [last];
      RowOfKept(front, cutoff, sig);
      assert (Keep(front, cutoff) + [last])[..|Keep(front, cutoff)|] == Keep(front, cutoff);
      if Collides(last.sig, sig) {
        RowOfKnown(front, sig);
        assert forall i :: 0 <= i < |front| ==> !Collides(rows[i].sig, rows[|rows| - 1].sig);
      }
    }
  }

  /** Over every run, each signature has one row or none, and that is what its reports and prunes tell. */
  lemma {:induction false} RowTellsItsHistory(s: State, steps: seq<Step>, from: real, sig: Signature)
    requires Settled(s, from) && Runnable(s, steps) && Timely(steps, from) && sig.message.Some?
    ensures Shown(Run(s, steps).rows, sig) == ToldBy(Shown(s.rows, sig), steps, sig)
    decreases |steps|
  {
    if steps != [] {
      FirstOfRun(s, steps, from, None);
      StepSettled(s, steps[0], from);
      StepTells(s, steps[0], from, sig);
      RowTellsItsHistory(Apply(s, steps[0]), steps[1..], ClockAfter(steps[0], from), sig);
    }
  }

  lemma WriteTells(s: State, step: Step, sig: Signature)
    requires step.Write? && Enabled(s, step) && sig.message.Some?
    ensures Shown(Apply(s, step).rows, sig) == Told(Shown(s.rows, sig), step, sig)
  {
    RowAfterReport(s.rows, s.nextId, step.report, sig);
    RowOfKnown(s.rows, sig);
  }

  lemma StepTells(s: State, step: Step, from: real, sig: Signature)
    requires Settled(s, from) && Enabled(s, step) && sig.message.Some?
    ensures Shown(Apply(s, step).rows, sig) == Told(Shown(s.rows, sig), step, sig)
  {
    SettledUnique(s, from);
    match step
    case Write(_, report) => WriteTells(s, step, sig);
    case Prune(_, cutoff) => RowOfKept(s.rows, cutoff, sig);
    case AttemptIndex(_) =>
    case MergeAndIndex(_) =>
  }

  /** Rows active in a window split into those that started in it and those ongoing exactly when no
      row was last seen before the window yet first seen in it. */
  lemma {:induction false} ActiveRowsSplit(rows: seq<Fault>, since: Option<real>)
    ensures DistinctFaults(rows, since) <= StartedInWindow(rows, since) + OngoingFaults(rows, since)
    ensures DistinctFaults(rows, since) == StartedInWindow(rows, since) + OngoingFaults(rows, since)
            <==> forall r :: r in rows && Within(r.firstSeen, since) ==> Within(r.lastSeen, since)
  {
    if rows != [] {
      var front, last := rows[..|rows| - 1], rows[|rows| - 1];
      assert rows == front + [last];
      ActiveRowsSplit(front, since);
    }
  }
}
