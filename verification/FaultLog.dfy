/**
  services/fault_log.py: the deduplicating fault table, the one-time merge of
  NULL-exception duplicates that many connections may run at once, and the
  windowed summary over lifetime counts.

  Rows are kept in rowid order, which is id order. The partial unique index of
  the source is the flag `indexed`; a connection attempts to create it, merges
  and retries if the table still holds duplicates, and only then writes.
*/
module FaultLog {
  import opened Wrappers

  /** The deduplication key. excType is NULL for a fault that is not an exception. */
  datatype Signature = Signature(
    component: string, operation: string, excType: Option<string>, message: Option<string>)

  datatype Fault = Fault(
    id: nat, sig: Signature, severity: string, firstTraceback: Option<string>, lastTraceback: Option<string>,
    context: Option<string>, count: nat, firstSeen: real, lastSeen: real)

  datatype Report = Report(
    sig: Signature, severity: string, traceback: Option<string>, context: Option<string>, now: real)

  /** Equality as a unique constraint sees it: a NULL message equals nothing. */
  predicate Collides(a: Signature, b: Signature) {
    a == b && a.message.Some?
  }

  /** One GROUP BY group of the merge, where NULL messages do fall together. */
  predicate SameGroup(a: Fault, b: Fault) {
    a.sig.excType.None? && a.sig == b.sig
  }

  predicate AscendingIds(rows: seq<Fault>) {
    forall i, j :: 0 <= i < j < |rows| ==> rows[i].id < rows[j].id
  }

  /** What the partial index demands. */
  predicate NullRowsUnique(rows: seq<Fault>) {
    forall i, j :: 0 <= i < j < |rows| && rows[i].sig.excType.None? ==> !Collides(rows[i].sig, rows[j].sig)
  }

  function Total(rows: seq<Fault>): nat {
    if rows == [] then 0 else Total(rows[..|rows| - 1]) + rows[|rows| - 1].count
  }

  // ---- The merge, as its three statements compute it ----

  function GroupCount(rows: seq<Fault>, r: Fault): nat {
    if rows == [] then 0
    else GroupCount(rows[..|rows| - 1], r) + if SameGroup(rows[|rows| - 1], r) then 1 else 0
  }

  function GroupSum(rows: seq<Fault>, r: Fault): nat {
    if rows == [] then 0
    else GroupSum(rows[..|rows| - 1], r) + if SameGroup(rows[|rows| - 1], r) then rows[|rows| - 1].count else 0
  }

  function GroupMinId(rows: seq<Fault>, r: Fault): nat {
    if rows == [] then r.id
    else
      var rest := GroupMinId(rows[..|rows| - 1], r);
      var last := rows[|rows| - 1];
      if SameGroup(last, r) && last.id < rest then last.id else rest
  }

  function GroupLastSeen(rows: seq<Fault>, r: Fault): real {
    if rows == [] then r.lastSeen
    else
      var rest := GroupLastSeen(rows[..|rows| - 1], r);
      var last := rows[|rows| - 1];
      if SameGroup(last, r) && last.lastSeen > rest then last.lastSeen else rest
  }

  /** What the UPDATE and the DELETE leave of one row. */
  function MergedRow(all: seq<Fault>, r: Fault): seq<Fault> {
    if r.sig.excType.Some? || GroupCount(all, r) <= 1 then [r]
    else if r.id == GroupMinId(all, r) then [r.(count := GroupSum(all, r), lastSeen := GroupLastSeen(all, r))]
    else []
  }

  function MergedRows(all: seq<Fault>, n: nat): seq<Fault>
    requires n <= |all|
  {
    if n == 0 then [] else MergedRows(all, n - 1) + MergedRow(all, all[n - 1])
  }

  function Merge(rows: seq<Fault>): seq<Fault> {
    MergedRows(rows, |rows|)
  }

  // ---- The same table, had deduplication been there from the start ----

  function Absorb(kept: Fault, r: Fault): Fault {
    kept.(count := kept.count + r.count, lastSeen := if r.lastSeen > kept.lastSeen then r.lastSeen else kept.lastSeen)
  }

  function AbsorbAll(rows: seq<Fault>, r: Fault): seq<Fault> {
    seq(|rows|, i requires 0 <= i < |rows| => if SameGroup(rows[i], r) then Absorb(rows[i], r) else rows[i])
  }

  predicate HasGroup(rows: seq<Fault>, r: Fault) {
    exists i :: 0 <= i < |rows| && SameGroup(rows[i], r)
  }

  function Insert(rows: seq<Fault>, r: Fault): seq<Fault> {
    if HasGroup(rows, r) then AbsorbAll(rows, r) else rows + [r]
  }

  function Replay(rows: seq<Fault>): seq<Fault> {
    if rows == [] then [] else Insert(Replay(rows[..|rows| - 1]), rows[|rows| - 1])
  }

  lemma {:induction false} GroupFacts(rows: seq<Fault>, r: Fault)
    ensures GroupMinId(rows, r) <= r.id && GroupLastSeen(rows, r) >= r.lastSeen
    ensures forall i :: 0 <= i < |rows| && SameGroup(rows[i], r) ==>
              GroupMinId(rows, r) <= rows[i].id && GroupLastSeen(rows, r) >= rows[i].lastSeen
    ensures GroupCount(rows, r) > 0 <==> HasGroup(rows, r)
    ensures GroupMinId(rows, r) == r.id
            || exists i :: 0 <= i < |rows| && SameGroup(rows[i], r) && rows[i].id == GroupMinId(rows, r)
  {
    if rows != [] {
      var front := rows[..|rows| - 1];
      GroupFacts(front, r);
      if HasGroup(front, r) {
        var i :| 0 <= i < |front| && SameGroup(front[i], r);
        assert rows[i] == front[i];
      }
      if HasGroup(rows, r) && !SameGroup(rows[|rows| - 1], r) {
        var i :| 0 <= i < |rows| && SameGroup(rows[i], r);
        assert front[i] == rows[i];
      }
      if GroupMinId(rows, r) != r.id && GroupMinId(rows, r) == GroupMinId(front, r) {
        var i :| 0 <= i < |front| && SameGroup(front[i], r) && front[i].id == GroupMinId(front, r);
        assert rows[i] == front[i];
      }
    }
  }

  /** A group of one aggregates to itself. */
  lemma {:induction false} Singleton(rows: seq<Fault>, k: nat)
    requires k < |rows| && rows[k].sig.excType.None? && GroupCount(rows, rows[k]) <= 1
    ensures GroupSum(rows, rows[k]) == rows[k].count
    ensures GroupMinId(rows, rows[k]) == rows[k].id && GroupLastSeen(rows, rows[k]) == rows[k].lastSeen
  {
    var r := rows[k];
    var front := rows[..|rows| - 1];
    if k == |rows| - 1 {
      Nobody(front, r);
    } else {
      assert front[k] == r;
      GroupFacts(front, r);
      Singleton(front, k);
    }
  }

  lemma {:induction false} Nobody(rows: seq<Fault>, r: Fault)
    requires GroupCount(rows, r) == 0
    ensures GroupSum(rows, r) == 0 && GroupMinId(rows, r) == r.id && GroupLastSeen(rows, r) == r.lastSeen
  {
    if rows != [] {
      Nobody(rows[..|rows| - 1], r);
    }
  }

  /** What one more row at the end does to the merge of an earlier row. */
  lemma MergedRowExtends(pre: seq<Fault>, r: Fault, k: nat)
    requires AscendingIds(pre + [r]) && k < |pre|
    ensures MergedRow(pre + [r], pre[k])
            == if SameGroup(pre[k], r) && MergedRow(pre, pre[k]) != [] then [Absorb(MergedRow(pre, pre[k])[0], r)]
               else MergedRow(pre, pre[k])
  {
    var all := pre + [r];
    var x := pre[k];
    assert all[..|all| - 1] == pre;
    assert all[k] == x && all[|pre|] == r;
    if SameGroup(x, r) {
      GroupFacts(pre, x);
      if GroupCount(pre, x) <= 1 {
        Singleton(pre, k);
      }
    }
  }

  lemma AbsorbAllConcat(a: seq<Fault>, b: seq<Fault>, r: Fault)
    ensures AbsorbAll(a + b, r) == AbsorbAll(a, r) + AbsorbAll(b, r)
  {
  }

  lemma MergedRowAbsorbs(pre: seq<Fault>, r: Fault, k: nat)
    requires AscendingIds(pre + [r]) && k < |pre|
    ensures MergedRow(pre + [r], pre[k]) == AbsorbAll(MergedRow(pre, pre[k]), r)
  {
    MergedRowExtends(pre, r, k);
  }

  lemma {:induction false} MergedRowsExtend(pre: seq<Fault>, r: Fault, n: nat)
    requires AscendingIds(pre + [r]) && n <= |pre|
    ensures MergedRows(pre + [r], n) == AbsorbAll(MergedRows(pre, n), r)
  {
    if n > 0 {
      var all, row := pre + [r], pre[n - 1];
      MergedRowsExtend(pre, r, n - 1);
      MergedRowAbsorbs(pre, r, n - 1);
      assert all[n - 1] == row && MergedRows(all, n) == MergedRows(all, n - 1) + MergedRow(all, row);
      AbsorbAllConcat(MergedRows(pre, n - 1), MergedRow(pre, row), r);
      assert MergedRows(pre, n) == MergedRows(pre, n - 1) + MergedRow(pre, row);
    }
  }

  /** Every merged row stands for a row that was there. */
  lemma {:induction false} MergedFrom(all: seq<Fault>, n: nat, m: Fault)
    requires n <= |all| && m in MergedRows(all, n)
    ensures exists j :: 0 <= j < n && MergedRow(all, all[j]) == [m] && all[j].sig == m.sig && all[j].id == m.id
  {
    if m in MergedRows(all, n - 1) {
      MergedFrom(all, n - 1, m);
    } else {
      assert MergedRow(all, all[n - 1]) == [m];
    }
  }

  lemma {:induction false} KeptRowIn(all: seq<Fault>, k: nat, n: nat)
    requires k < n <= |all| && |MergedRow(all, all[k])| == 1
    ensures MergedRow(all, all[k])[0] in MergedRows(all, n)
  {
    if n - 1 > k {
      KeptRowIn(all, k, n - 1);
    }
  }

  lemma GroupKeepsRow(all: seq<Fault>, i: nat)
    requires i < |all| && all[i].sig.excType.None?
    ensures HasGroup(Merge(all), all[i])
  {
    GroupFacts(all, all[i]);
    var k :| 0 <= k < |all| && SameGroup(all[k], all[i]) && all[k].id == GroupMinId(all, all[i]);
    GroupFacts(all, all[k]);
    KeptRowIn(all, k, |all|);
    assert SameGroup(MergedRow(all, all[k])[0], all[i]);
  }

  /** A group has a merged row exactly when it had a row. */
  lemma GroupSurvives(all: seq<Fault>, r: Fault)
    ensures HasGroup(Merge(all), r) <==> HasGroup(all, r)
  {
    if HasGroup(all, r) {
      var i :| 0 <= i < |all| && SameGroup(all[i], r);
      GroupKeepsRow(all, i);
      var j :| 0 <= j < |Merge(all)| && SameGroup(Merge(all)[j], all[i]);
      assert SameGroup(Merge(all)[j], r);
    }
    if HasGroup(Merge(all), r) {
      var i :| 0 <= i < |Merge(all)| && SameGroup(Merge(all)[i], r);
      MergedFrom(all, |all|, Merge(all)[i]);
      var j :| 0 <= j < |all| && all[j].sig == Merge(all)[i].sig;
      assert SameGroup(all[j], r);
    }
  }

  /** A row that joins an existing group is not the one kept; a row without a group is kept as it is. */
  lemma LastRowMerged(pre: seq<Fault>, r: Fault)
    requires AscendingIds(pre + [r])
    ensures MergedRow(pre + [r], r) == if HasGroup(pre, r) then [] else [r]
  {
    var all := pre + [r];
    assert all[..|pre|] == pre && all[|pre|] == r;
    GroupFacts(pre, r);
    GroupFacts(all, r);
    if HasGroup(pre, r) {
      var i :| 0 <= i < |pre| && SameGroup(pre[i], r);
      assert all[i] == pre[i];
    }
  }

  /** The one-time merge gives the table that deduplicating every insert would have given. */
  lemma {:induction false} MergeIsReplay(rows: seq<Fault>)
    requires AscendingIds(rows)
    ensures Merge(rows) == Replay(rows)
  {
    if rows != [] {
      var pre, r := rows[..|rows| - 1], rows[|rows| - 1];
      assert rows == pre + [r];
      MergeIsReplay(pre);
      MergedRowsExtend(pre, r, |pre|);
      GroupSurvives(pre, r);
      LastRowMerged(pre, r);
      if !HasGroup(pre, r) {
        assert AbsorbAll(Merge(pre), r) == Merge(pre);
      }
    }
  }

  predicate GroupsUnique(rows: seq<Fault>) {
    forall i, j :: 0 <= i < j < |rows| ==> !SameGroup(rows[i], rows[j])
  }

  function ExceptionRows(rows: seq<Fault>): seq<Fault> {
    if rows == [] then []
    else
      var last := rows[|rows| - 1];
      ExceptionRows(rows[..|rows| - 1]) + if last.sig.excType.Some? then [last] else []
  }

  lemma Snoc(rows: seq<Fault>, r: Fault)
    ensures Total(rows + [r]) == Total(rows) + r.count
    ensures ExceptionRows(rows + [r]) == ExceptionRows(rows) + if r.sig.excType.Some? then [r] else []
  {
    assert (rows + [r])[..|rows + [r]| - 1] == rows;
  }

  lemma HasGroupSnoc(rows: seq<Fault>, x: Fault, r: Fault)
    ensures HasGroup(rows + [x], r) <==> HasGroup(rows, r) || SameGroup(x, r)
  {
    var all := rows + [x];
    assert all[|rows|] == x;
    if HasGroup(rows, r) {
      var i :| 0 <= i < |rows| && SameGroup(rows[i], r);
      assert all[i] == rows[i];
    }
  }

  lemma AbsorbAllSnoc(front: seq<Fault>, x: Fault, r: Fault)
    ensures AbsorbAll(front + [x], r) == AbsorbAll(front, r) + [if SameGroup(x, r) then Absorb(x, r) else x]
  {
  }

  lemma {:induction false} AbsorbAllTotal(rows: seq<Fault>, r: Fault)
    requires GroupsUnique(rows)
    ensures Total(AbsorbAll(rows, r)) == Total(rows) + if HasGroup(rows, r) then r.count else 0
  {
    if rows != [] {
      var front, x := rows[..|rows| - 1], rows[|rows| - 1];
      assert rows == front + [x];
      AbsorbAllSnoc(front, x, r);
      AbsorbAllTotal(front, r);
      Snoc(front, x);
      Snoc(AbsorbAll(front, r), if SameGroup(x, r) then Absorb(x, r) else x);
      HasGroupSnoc(front, x, r);
      if HasGroup(front, r) {
        var i :| 0 <= i < |front| && SameGroup(front[i], r);
        assert rows[i] == front[i] && !SameGroup(rows[i], rows[|rows| - 1]);
      }
    }
  }

  lemma {:induction false} AbsorbAllExceptions(rows: seq<Fault>, r: Fault)
    ensures ExceptionRows(AbsorbAll(rows, r)) == ExceptionRows(rows)
  {
    if rows != [] {
      var front, x := rows[..|rows| - 1], rows[|rows| - 1];
      assert rows == front + [x];
      AbsorbAllSnoc(front, x, r);
      AbsorbAllExceptions(front, r);
      Snoc(front, x);
      Snoc(AbsorbAll(front, r), if SameGroup(x, r) then Absorb(x, r) else x);
    }
  }

  lemma InsertFacts(acc: seq<Fault>, r: Fault)
    requires GroupsUnique(acc)
    ensures GroupsUnique(Insert(acc, r))
    ensures Total(Insert(acc, r)) == Total(acc) + r.count
    ensures ExceptionRows(Insert(acc, r)) == ExceptionRows(acc) + if r.sig.excType.Some? then [r] else []
  {
    AbsorbAllTotal(acc, r);
    AbsorbAllExceptions(acc, r);
    Snoc(acc, r);
    forall i, j | 0 <= i < j < |Insert(acc, r)|
      ensures !SameGroup(Insert(acc, r)[i], Insert(acc, r)[j])
    {
      if j < |acc| {
        assert !SameGroup(acc[i], acc[j]);
      }
    }
  }

  lemma {:induction false} ReplayFacts(rows: seq<Fault>)
    ensures GroupsUnique(Replay(rows))
    ensures Total(Replay(rows)) == Total(rows) && ExceptionRows(Replay(rows)) == ExceptionRows(rows)
  {
    if rows != [] {
      ReplayFacts(rows[..|rows| - 1]);
      InsertFacts(Replay(rows[..|rows| - 1]), rows[|rows| - 1]);
    }
  }

  lemma InsertAscends(acc: seq<Fault>, r: Fault)
    requires AscendingIds(acc) && (acc != [] ==> acc[|acc| - 1].id < r.id)
    ensures AscendingIds(Insert(acc, r)) && |Insert(acc, r)| > 0
    ensures Insert(acc, r)[|Insert(acc, r)| - 1].id <= r.id
  {
  }

  lemma {:induction false} ReplayAscends(rows: seq<Fault>)
    requires AscendingIds(rows)
    ensures AscendingIds(Replay(rows))
    ensures Replay(rows) != [] ==> rows != [] && Replay(rows)[|Replay(rows)| - 1].id <= rows[|rows| - 1].id
  {
    if rows != [] {
      var pre := rows[..|rows| - 1];
      ReplayAscends(pre);
      if pre != [] {
        assert rows[|rows| - 2].id < rows[|rows| - 1].id;
      }
      InsertAscends(Replay(pre), rows[|rows| - 1]);
    }
  }

  /** The merge loses no count, leaves no duplicate and keeps exception rows exactly as they were. */
  lemma MergeConsolidates(rows: seq<Fault>)
    requires AscendingIds(rows)
    ensures Total(Merge(rows)) == Total(rows) && ExceptionRows(Merge(rows)) == ExceptionRows(rows)
    ensures GroupsUnique(Merge(rows)) && AscendingIds(Merge(rows))
  {
    MergeIsReplay(rows);
    ReplayFacts(rows);
    ReplayAscends(rows);
  }

  /** A merged NULL-exception row is its group's earliest row, unchanged but for the summed count and
      the greatest last_seen. */
  lemma MergedRowIsKeeper(rows: seq<Fault>, m: Fault) returns (j: nat)
    requires AscendingIds(rows) && m in Merge(rows) && m.sig.excType.None?
    ensures j < |rows| && m == rows[j].(count := GroupSum(rows, rows[j]), lastSeen := GroupLastSeen(rows, rows[j]))
    ensures forall i :: 0 <= i < |rows| && SameGroup(rows[i], m) ==> m.id <= rows[i].id && rows[i].lastSeen <= m.lastSeen
  {
    MergedFrom(rows, |rows|, m);
    j :| 0 <= j < |rows| && MergedRow(rows, rows[j]) == [m] && rows[j].sig == m.sig && rows[j].id == m.id;
    GroupFacts(rows, rows[j]);
    if GroupCount(rows, rows[j]) <= 1 {
      Singleton(rows, j);
    }
    forall i | 0 <= i < |rows| && SameGroup(rows[i], m)
      ensures m.id <= rows[i].id && rows[i].lastSeen <= m.lastSeen
    {
      assert SameGroup(rows[i], rows[j]);
    }
  }

  // ---- Connections ----

  /** Where one connection is: not yet connected, holding an IntegrityError from its first index
      attempt, ready to run its statement, or done. */
  datatype Phase = Connecting | MustMerge | Ready | Done

  datatype State = State(rows: seq<Fault>, indexed: bool, nextId: nat, phases: seq<Phase>, pruned: nat)

  datatype Step =
    | AttemptIndex(c: nat)
    | MergeAndIndex(c: nat)
    | Write(c: nat, report: Report)
    | Prune(c: nat, cutoff: real)

  predicate Enabled(s: State, step: Step) {
    match step
    case AttemptIndex(c) => c < |s.phases| && s.phases[c] == Connecting
    case MergeAndIndex(c) => c < |s.phases| && s.phases[c] == MustMerge
    case Write(c, _) => c < |s.phases| && s.phases[c] == Ready
    case Prune(c, _) => c < |s.phases| && s.phases[c] == Ready
  }

  /** The row an INSERT conflicts with, if any. */
  predicate Known(rows: seq<Fault>, sig: Signature) {
    exists i :: 0 <= i < |rows| && Collides(rows[i].sig, sig)
  }

  function Bumped(r: Fault, report: Report): Fault {
    if Collides(r.sig, report.sig)
    then r.(count := r.count + 1, lastSeen := report.now,
            lastTraceback := if report.traceback.Some? then report.traceback else r.lastTraceback)
    else r
  }

  function NewRow(id: nat, report: Report): Fault {
    Fault(id, report.sig, report.severity, report.traceback, report.traceback, report.context, 1, report.now, report.now)
  }

  function Upsert(rows: seq<Fault>, nextId: nat, report: Report): seq<Fault> {
    if Known(rows, report.sig) then BumpAll(rows, report)
    else rows + [NewRow(nextId, report)]
  }

  function Keep(rows: seq<Fault>, cutoff: real): (out: seq<Fault>)
    ensures Total(out) <= Total(rows)
  {
    if rows == [] then []
    else
      var last := rows[|rows| - 1];
      var front := Keep(rows[..|rows| - 1], cutoff);
      assert (front + [last])[..|front|] == front;
      if last.lastSeen < cutoff then front else front + [last]
  }

  function Apply(s: State, step: Step): State
    requires Enabled(s, step)
  {
    match step
    case AttemptIndex(c) =>
      if s.indexed || NullRowsUnique(s.rows) then s.(indexed := true, phases := s.phases[c := Ready])
      else s.(phases := s.phases[c := MustMerge])
    case MergeAndIndex(c) => s.(rows := Merge(s.rows), indexed := true, phases := s.phases[c := Ready])
    case Write(c, report) =>
      s.(rows := Upsert(s.rows, s.nextId, report),
         nextId := if Known(s.rows, report.sig) then s.nextId else s.nextId + 1,
         phases := s.phases[c := Done])
    case Prune(c, cutoff) =>
      s.(rows := Keep(s.rows, cutoff), phases := s.phases[c := Done],
         pruned := s.pruned + Total(s.rows) - Total(Keep(s.rows, cutoff)))
  }

  predicate Runnable(s: State, steps: seq<Step>)
    decreases |steps|
  {
    steps == [] || (Enabled(s, steps[0]) && Runnable(Apply(s, steps[0]), steps[1..]))
  }

  function Run(s: State, steps: seq<Step>): State
    requires Runnable(s, steps)
    decreases |steps|
  {
    if steps == [] then s else Run(Apply(s, steps[0]), steps[1..])
  }

  function Writes(steps: seq<Step>): nat {
    if steps == [] then 0 else (if steps[0].Write? then 1 else 0) + Writes(steps[1..])
  }

  /** A signature conflicts with at most one row. */
  predicate SignaturesUnique(rows: seq<Fault>) {
    forall i, j :: 0 <= i < j < |rows| ==> !Collides(rows[i].sig, rows[j].sig)
  }

  /** The table constraint on exception rows, ids in order, and the index where it exists. */
  predicate Valid(s: State) {
    && AscendingIds(s.rows)
    && (forall i :: 0 <= i < |s.rows| ==> s.rows[i].id < s.nextId)
    && (forall i, j :: 0 <= i < j < |s.rows| && s.rows[i].sig.excType.Some? ==> !Collides(s.rows[i].sig, s.rows[j].sig))
    && (s.indexed ==> NullRowsUnique(s.rows))
    && (forall c :: 0 <= c < |s.phases| && s.phases[c] == Ready ==> s.indexed)
  }

  lemma KnownSnoc(rows: seq<Fault>, x: Fault, sig: Signature)
    ensures Known(rows + [x], sig) <==> Known(rows, sig) || Collides(x.sig, sig)
  {
    var all := rows + [x];
    assert all[|rows|] == x;
    if Known(rows, sig) {
      var i :| 0 <= i < |rows| && Collides(rows[i].sig, sig);
      assert all[i] == rows[i];
    }
  }

  lemma {:induction false} BumpTotal(rows: seq<Fault>, report: Report)
    requires SignaturesUnique(rows)
    ensures Total(BumpAll(rows, report)) == Total(rows) + if Known(rows, report.sig) then 1 else 0
  {
    if rows != [] {
      var front, x := rows[..|rows| - 1], rows[|rows| - 1];
      assert rows == front + [x];
      assert BumpAll(rows, report) == BumpAll(front, report) + [Bumped(x, report)];
      BumpTotal(front, report);
      Snoc(front, x);
      Snoc(BumpAll(front, report), Bumped(x, report));
      KnownSnoc(front, x, report.sig);
      if Known(front, report.sig) {
        var i :| 0 <= i < |front| && Collides(front[i].sig, report.sig);
        assert rows[i] == front[i] && !Collides(rows[i].sig, rows[|rows| - 1].sig);
      }
    }
  }

  /** Which row of the table the i-th surviving row is. */
  function Origin(rows: seq<Fault>, cutoff: real, i: nat): (k: nat)
    requires i < |Keep(rows, cutoff)|
    ensures k < |rows| && rows[k] == Keep(rows, cutoff)[i]
  {
    var front := rows[..|rows| - 1];
    if i < |Keep(front, cutoff)| then Origin(front, cutoff, i) else |rows| - 1
  }

  lemma {:induction false} OriginAscends(rows: seq<Fault>, cutoff: real, i: nat, j: nat)
    requires i < j < |Keep(rows, cutoff)|
    ensures Origin(rows, cutoff, i) < Origin(rows, cutoff, j)
  {
    var front := rows[..|rows| - 1];
    if j < |Keep(front, cutoff)| {
      OriginAscends(front, cutoff, i, j);
    }
  }

  lemma PruneStepValid(s: State, cutoff: real)
    requires Valid(s)
    ensures Valid(s.(rows := Keep(s.rows, cutoff)))
  {
    var out := Keep(s.rows, cutoff);
    forall i, j | 0 <= i < j < |out|
      ensures out[i].id < out[j].id && (s.indexed || out[i].sig.excType.Some? ==> !Collides(out[i].sig, out[j].sig))
    {
      OriginAscends(s.rows, cutoff, i, j);
    }
    forall i | 0 <= i < |out|
      ensures out[i].id < s.nextId
    {
      assert s.rows[Origin(s.rows, cutoff, i)] == out[i];
    }
  }

  lemma MergeKeepsExceptionsApart(rows: seq<Fault>, a: Fault, b: Fault)
    requires AscendingIds(rows) && a in Merge(rows) && b in Merge(rows) && a.id < b.id && a.sig.excType.Some?
    requires forall i, j :: 0 <= i < j < |rows| && rows[i].sig.excType.Some? ==> !Collides(rows[i].sig, rows[j].sig)
    ensures !Collides(a.sig, b.sig)
  {
    MergedFrom(rows, |rows|, a);
    MergedFrom(rows, |rows|, b);
    var i :| 0 <= i < |rows| && rows[i].sig == a.sig && rows[i].id == a.id;
    var j :| 0 <= j < |rows| && rows[j].sig == b.sig && rows[j].id == b.id;
    assert i < j;
  }

  lemma MergeStepValid(s: State)
    requires Valid(s)
    ensures NullRowsUnique(Merge(s.rows)) && Valid(s.(rows := Merge(s.rows), indexed := true))
  {
    MergeConsolidates(s.rows);
    var out := Merge(s.rows);
    forall i | 0 <= i < |out|
      ensures out[i].id < s.nextId
    {
      MergedFrom(s.rows, |s.rows|, out[i]);
    }
    forall i, j | 0 <= i < j < |out|
      ensures !Collides(out[i].sig, out[j].sig)
    {
      if out[i].sig.excType.None? {
        assert !SameGroup(out[i], out[j]);
      } else {
        MergeKeepsExceptionsApart(s.rows, out[i], out[j]);
      }
    }
  }

  function BumpAll(rows: seq<Fault>, report: Report): seq<Fault> {
    seq(|rows|, i requires 0 <= i < |rows| => Bumped(rows[i], report))
  }

  lemma BumpUnique(rows: seq<Fault>, report: Report)
    requires AscendingIds(rows) && SignaturesUnique(rows)
    ensures AscendingIds(BumpAll(rows, report)) && SignaturesUnique(BumpAll(rows, report))
    ensures forall i :: 0 <= i < |rows| ==> BumpAll(rows, report)[i].id == rows[i].id
  {
    var out := BumpAll(rows, report);
    forall i, j | 0 <= i < j < |out|
      ensures out[i].id < out[j].id && !Collides(out[i].sig, out[j].sig)
    {
      assert rows[i].id < rows[j].id && !Collides(rows[i].sig, rows[j].sig);
    }
  }

  lemma UpsertUnique(rows: seq<Fault>, nextId: nat, report: Report)
    requires AscendingIds(rows) && SignaturesUnique(rows) && forall i :: 0 <= i < |rows| ==> rows[i].id < nextId
    ensures var out := Upsert(rows, nextId, report);
            && AscendingIds(out) && SignaturesUnique(out)
            && (forall i :: 0 <= i < |out| ==> out[i].id < if Known(rows, report.sig) then nextId else nextId + 1)
    ensures Total(Upsert(rows, nextId, report)) == Total(rows) + 1
  {
    if Known(rows, report.sig) {
      BumpTotal(rows, report);
      BumpUnique(rows, report);
    } else {
      Snoc(rows, NewRow(nextId, report));
      var out := Upsert(rows, nextId, report);
      forall i, j | 0 <= i < j < |out|
        ensures out[i].id < out[j].id && !Collides(out[i].sig, out[j].sig)
      {
        if j < |rows| {
          assert rows[i].id < rows[j].id && !Collides(rows[i].sig, rows[j].sig);
        }
      }
    }
  }

  lemma StepValid(s: State, step: Step)
    requires Valid(s) && Enabled(s, step)
    ensures Valid(Apply(s, step))
    ensures Total(Apply(s, step).rows) + Apply(s, step).pruned
            == Total(s.rows) + s.pruned + if step.Write? then 1 else 0
  {
    match step
    case AttemptIndex(c) =>
    case MergeAndIndex(c) =>
      MergeConsolidates(s.rows);
      MergeStepValid(s);
    case Write(c, report) =>
      assert SignaturesUnique(s.rows);
      UpsertUnique(s.rows, s.nextId, report);
    case Prune(c, cutoff) => PruneStepValid(s, cutoff);
  }

  /** Two rows that an index over NULL-exception signatures refuses: neither is an exception, and all of component,
      operation and a stored message are the same. */
  predicate Duplicates(a: Signature, b: Signature) {
    a.excType.None? && b.excType.None? && a.component == b.component && a.operation == b.operation
    && a.message.Some? && a.message == b.message
  }

  /** The index is there after an attempt exactly if it was, or no two rows are duplicates; a failed attempt leaves
      the connection to merge and changes no row. */
  lemma AttemptInFull(s: State, c: nat)
    requires Enabled(s, AttemptIndex(c))
    ensures var after := Apply(s, AttemptIndex(c));
            && after.rows == s.rows && after.nextId == s.nextId && after.pruned == s.pruned
            && (after.indexed <==> s.indexed || forall i, j :: 0 <= i < j < |s.rows| ==> !Duplicates(s.rows[i].sig, s.rows[j].sig))
            && after.phases == s.phases[c := if after.indexed then Ready else MustMerge]
  {
    if NullRowsUnique(s.rows) {
      forall i, j | 0 <= i < j < |s.rows|
        ensures !Duplicates(s.rows[i].sig, s.rows[j].sig)
      {
        assert s.rows[i].sig.excType.None? ==> !Collides(s.rows[i].sig, s.rows[j].sig);
      }
    } else {
      var i, j :| 0 <= i < j < |s.rows| && s.rows[i].sig.excType.None? && Collides(s.rows[i].sig, s.rows[j].sig);
      assert Duplicates(s.rows[i].sig, s.rows[j].sig);
    }
  }

  /** The row a report conflicts with: the same signature with a stored message. A NULL message conflicts with
      nothing. */
  predicate Conflicts(r: Fault, report: Report) {
    r.sig == report.sig && report.sig.message.Some?
  }

  /** One report: it bumps the row it conflicts with, moving only its count, last stamp and newest stack; and where
      there is none it adds a row of its own under the next id. No other row moves. */
  lemma ReportInFull(s: State, c: nat, report: Report)
    requires Enabled(s, Write(c, report))
    ensures var after := Apply(s, Write(c, report));
            if exists i :: 0 <= i < |s.rows| && Conflicts(s.rows[i], report)
            then
              after.nextId == s.nextId && |after.rows| == |s.rows|
              && forall i :: 0 <= i < |s.rows| ==>
                   after.rows[i]
                   == if !Conflicts(s.rows[i], report) then s.rows[i]
                      else s.rows[i].(count := s.rows[i].count + 1, lastSeen := report.now,
                                      lastTraceback := if report.traceback.Some? then report.traceback
                                                       else s.rows[i].lastTraceback)
            else
              after.nextId == s.nextId + 1
              && after.rows == s.rows + [Fault(s.nextId, report.sig, report.severity, report.traceback, report.traceback,
                                               report.context, 1, report.now, report.now)]
  {
    assert forall i :: 0 <= i < |s.rows| ==> (Conflicts(s.rows[i], report) <==> Collides(s.rows[i].sig, report.sig));
  }

  /** However many connections attempt the index, merge and write at once, from any table with
      NULL-exception duplicates, the counts left plus the counts pruned are the initial counts plus
      one per write; and once any connection is ready to write, no non-NULL key has two rows. */
  lemma {:induction false} NoOccurrenceLost(s: State, steps: seq<Step>)
    requires Valid(s) && Runnable(s, steps)
    ensures Valid(Run(s, steps))
    ensures Total(Run(s, steps).rows) + Run(s, steps).pruned == Total(s.rows) + s.pruned + Writes(steps)
    ensures Run(s, steps).indexed ==> SignaturesUnique(Run(s, steps).rows)
    decreases |steps|
  {
    if steps != [] {
      StepValid(s, steps[0]);
      NoOccurrenceLost(Apply(s, steps[0]), steps[1..]);
    }
  }

  /** The faults table of the file. phases is where each connection stands, pruned the counts deleted so far. */
  class Store {
    var rows: seq<Fault>
    var indexed: bool
    var nextId: nat
    ghost var phases: seq<Phase>
    ghost var pruned: nat

    ghost function Model(): State
      reads this
    {
      State(rows, indexed, nextId, phases, pruned)
    }

    constructor (rows: seq<Fault>, nextId: nat, ghost connections: nat)
      requires Valid(State(rows, false, nextId, seq(connections, _ => Connecting), 0))
      ensures Model() == State(rows, false, nextId, seq(connections, _ => Connecting), 0)
    {
      this.rows, this.nextId, indexed := rows, nextId, false;
      phases := seq(connections, _ => Connecting);
      pruned := 0;
    }

    /** CREATE UNIQUE INDEX IF NOT EXISTS: fails exactly on duplicates the index would forbid. */
    method AttemptIndex(ghost c: nat) returns (ok: bool)
      requires Enabled(Model(), Step.AttemptIndex(c))
      modifies this
      ensures Model() == Apply(old(Model()), Step.AttemptIndex(c))
      ensures ok <==> phases[c] == Ready
    {
      ok := indexed;
      if !indexed {
        ok := true;
        var i := 0;
        while i < |rows| && ok
          invariant 0 <= i <= |rows|
          invariant ok <==> forall a, b :: 0 <= a < b < |rows| && a < i && rows[a].sig.excType.None? ==>
                              !Collides(rows[a].sig, rows[b].sig)
        {
          var j := i + 1;
          while j < |rows| && ok
            invariant i < j <= |rows|
            invariant ok <==> forall b :: i < b < j && rows[i].sig.excType.None? ==> !Collides(rows[i].sig, rows[b].sig)
          {
            ok := !(rows[i].sig.excType.None? && Collides(rows[i].sig, rows[j].sig));
            j := j + 1;
          }
          i := i + 1;
        }
        indexed := ok;
      }
      phases := phases[c := if ok then Ready else MustMerge];
    }

    /** BEGIN IMMEDIATE, the three merge statements, the retried index, COMMIT. */
    method MergeAndIndex(ghost c: nat)
      requires Enabled(Model(), Step.MergeAndIndex(c))
      modifies this
      ensures Model() == Apply(old(Model()), Step.MergeAndIndex(c))
    {
      var kept: seq<Fault> := [];
      var i := 0;
      while i < |rows|
        invariant 0 <= i <= |rows|
        invariant kept == MergedRows(rows, i)
      {
        kept := kept + MergedRow(rows, rows[i]);
        i := i + 1;
      }
      rows := kept;
      indexed := true;
      phases := phases[c := Ready];
    }

    method Write(ghost c: nat, report: Report)
      requires Valid(Model()) && Enabled(Model(), Step.Write(c, report))
      modifies this
      ensures Model() == Apply(old(Model()), Step.Write(c, report))
    {
      ghost var before := rows;
      var i := 0;
      while i < |rows| && !Collides(rows[i].sig, report.sig)
        invariant 0 <= i <= |rows|
        invariant forall k :: 0 <= k < i ==> !Collides(rows[k].sig, report.sig)
      {
        i := i + 1;
      }
      if i < |rows| {
        rows := rows[i := Bumped(rows[i], report)];
        OnlyOneBumped(before, i, report);
      } else {
        rows := rows + [NewRow(nextId, report)];
        nextId := nextId + 1;
      }
      phases := phases[c := Done];
    }

    method Prune(ghost c: nat, cutoff: real) returns (deleted: nat)
      requires Enabled(Model(), Step.Prune(c, cutoff))
      modifies this
      ensures Model() == Apply(old(Model()), Step.Prune(c, cutoff))
      ensures deleted == |old(rows)| - |rows|
    {
      ghost var before := rows;
      var kept: seq<Fault> := [];
      var i := 0;
      deleted := 0;
      while i < |rows|
        invariant 0 <= i <= |rows|
        invariant kept == Keep(rows[..i], cutoff) && deleted == i - |kept|
      {
        assert rows[..i + 1][..i] == rows[..i];
        if rows[i].lastSeen < cutoff {
          deleted := deleted + 1;
        } else {
          kept := kept + [rows[i]];
        }
        i := i + 1;
      }
      assert rows[..i] == rows;
      rows := kept;
      pruned := pruned + Total(before) - Total(kept);
      phases := phases[c := Done];
    }
  }

  lemma OnlyOneBumped(rows: seq<Fault>, k: nat, report: Report)
    requires SignaturesUnique(rows) && k < |rows| && Collides(rows[k].sig, report.sig)
    ensures Known(rows, report.sig) && BumpAll(rows, report) == rows[k := Bumped(rows[k], report)]
  {
    forall i | 0 <= i < |rows| && i != k
      ensures !Collides(rows[i].sig, report.sig)
    {
      if i < k {
        assert !Collides(rows[i].sig, rows[k].sig);
      } else {
        assert !Collides(rows[k].sig, rows[i].sig);
      }
    }
  }
}
