/**
  Insert-mode stores of services/capture_writer.py (raw_trades and
  rejection_events): a list buffer that any thread appends to, swapped out whole
  by any number of flushing threads and then committed, handed back or dropped.

  The lock of the source covers one Submit, one Take or one Finish, so a
  concurrent run is a sequence of those steps in any order. Each store is
  independent of the others; the model is of one store.
*/
module InsertStore {
  import opened Wrappers
  import opened Batches

  const MAX_RETAINED_ROWS: nat := 200_000

  /** A submitted tuple. raw_trades rows carry their primary key; rejection_events
      rows carry None there, and the table numbers them itself. */
  datatype Row = Row(id: Option<string>, body: string)

  /** What the database transaction of one flush did. */
  datatype Outcome = CommitOk | LockError | OtherError

  /** How a row left the writer. */
  datatype Fate = Committed | Dropped | Overflowed

  datatype Settled = Settled(row: Row, fate: Fate)

  /** inFlight[t] is the batch thread t has taken out and not yet finished; settled
      records, in order, every row that left the writer and why. */
  datatype State = State(
    buffer: seq<Row>,
    inFlight: seq<seq<Row>>,
    settled: seq<Settled>,
    table: seq<Row>,
    droppedCount: nat,
    overflowCount: nat,
    lockRetries: nat)

  datatype Step = Submit(row: Row) | Take(thread: nat) | Finish(thread: nat, outcome: Outcome)

  /** A thread starts a flush only when it is not in one, and finishes only the one it is in. */
  predicate Enabled(s: State, step: Step) {
    match step
    case Submit(_) => true
    case Take(t) => t < |s.inFlight| && s.inFlight[t] == []
    case Finish(t, _) => t < |s.inFlight| && s.inFlight[t] != []
  }

  function Mark(rows: seq<Row>, fate: Fate): (r: seq<Settled>)
    ensures |r| == |rows|
  {
    seq(|rows|, i requires 0 <= i < |rows| => Settled(rows[i], fate))
  }

  predicate HasId(table: seq<Row>, id: Option<string>) {
    id.Some? && exists i | 0 <= i < |table| :: table[i].id == id
  }

  /** executemany of INSERT OR IGNORE over one batch. */
  function InsertOrIgnore(table: seq<Row>, rows: seq<Row>): seq<Row>
    decreases |rows|
  {
    if rows == [] then table
    else InsertOrIgnore(if HasId(table, rows[0].id) then table else table + [rows[0]], rows[1..])
  }

  /** How many of the oldest rows the retained-buffer cap discards. */
  function Overflow(rows: seq<Row>, current: seq<Row>): nat {
    if |rows| + |current| > MAX_RETAINED_ROWS then |rows| + |current| - MAX_RETAINED_ROWS else 0
  }

  function Apply(s: State, step: Step): State
    requires Enabled(s, step)
  {
    match step
    case Submit(row) => s.(buffer := s.buffer + [row])
    case Take(t) => s.(buffer := [], inFlight := s.inFlight[t := s.buffer])
    case Finish(t, outcome) =>
      var rows := s.inFlight[t];
      var idle := s.(inFlight := s.inFlight[t := []]);
      match outcome
      case CommitOk =>
        idle.(table := InsertOrIgnore(s.table, rows), settled := s.settled + Mark(rows, Committed))
      case OtherError =>
        idle.(droppedCount := s.droppedCount + |rows|, settled := s.settled + Mark(rows, Dropped))
      case LockError =>
        var merged := rows + s.buffer;
        var overflow := Overflow(rows, s.buffer);
        idle.(buffer := merged[overflow..],
              lockRetries := s.lockRetries + 1,
              overflowCount := s.overflowCount + overflow,
              settled := s.settled + Mark(merged[..overflow], Overflowed))
  }

  predicate Runnable(s: State, steps: seq<Step>)
    decreases |steps|
  {
    steps == [] || (Enabled(s, steps[0]) && Runnable(Apply(s, steps[0]), steps[1..]))
  }

  function Run(s: State, steps: seq<Step>): State
    requires Runnable(s, steps)
    decreases |steps|
  {
    if steps == [] then s else Run(Apply(s, steps[0]), steps[1..])
  }

  function SubmittedRows(steps: seq<Step>): seq<Row> {
    if steps == [] then []
    else (if steps[0].Submit? then [steps[0].row] else []) + SubmittedRows(steps[1..])
  }

  function RowsOf(settled: seq<Settled>): (r: seq<Row>)
    ensures |r| == |settled|
  {
    seq(|settled|, i requires 0 <= i < |settled| => settled[i].row)
  }

  function WithFate(settled: seq<Settled>, fate: Fate): seq<Row> {
    if settled == [] then []
    else (if settled[0].fate == fate then [settled[0].row] else []) + WithFate(settled[1..], fate)
  }

  function InFlightCopies(batches: seq<seq<Row>>, row: Row): nat {
    if batches == [] then 0 else multiset(batches[0])[row] + InFlightCopies(batches[1..], row)
  }

  /** How many times the row is held by the writer or recorded as having left it. */
  function Copies(s: State, row: Row): nat {
    multiset(WithFate(s.settled, Committed))[row] + multiset(WithFate(s.settled, Dropped))[row]
    + multiset(WithFate(s.settled, Overflowed))[row] + InFlightCopies(s.inFlight, row) + multiset(s.buffer)[row]
  }

  /** The loss counters are the sizes of the two lost parts. */
  predicate CountersExact(s: State) {
    s.droppedCount == |WithFate(s.settled, Dropped)| && s.overflowCount == |WithFate(s.settled, Overflowed)|
  }

  lemma {:induction false} WithFateAppend(a: seq<Settled>, b: seq<Settled>, fate: Fate)
    ensures WithFate(a + b, fate) == WithFate(a, fate) + WithFate(b, fate)
  {
    if a == [] {
      assert a + b == b;
    } else {
      assert (a + b)[0] == a[0] && (a + b)[1..] == a[1..] + b;
      WithFateAppend(a[1..], b, fate);
      Associative(if a[0].fate == fate then [a[0].row] else [], WithFate(a[1..], fate), WithFate(b, fate));
    }
  }

  lemma {:induction false} WithFateMark(rows: seq<Row>, mark: Fate, fate: Fate)
    ensures WithFate(Mark(rows, mark), fate) == if mark == fate then rows else []
  {
    if rows != [] {
      assert Mark(rows, mark)[1..] == Mark(rows[1..], mark);
      WithFateMark(rows[1..], mark, fate);
    }
  }

  lemma SettleAll(settled: seq<Settled>, rows: seq<Row>, mark: Fate)
    ensures var after := settled + Mark(rows, mark);
            && WithFate(after, Committed) == WithFate(settled, Committed) + (if mark == Committed then rows else [])
            && WithFate(after, Dropped) == WithFate(settled, Dropped) + (if mark == Dropped then rows else [])
            && WithFate(after, Overflowed) == WithFate(settled, Overflowed) + (if mark == Overflowed then rows else [])
  {
    WithFateAppend(settled, Mark(rows, mark), Committed);
    WithFateAppend(settled, Mark(rows, mark), Dropped);
    WithFateAppend(settled, Mark(rows, mark), Overflowed);
    WithFateMark(rows, mark, Committed);
    WithFateMark(rows, mark, Dropped);
    WithFateMark(rows, mark, Overflowed);
  }

  lemma {:induction false} InFlightReplace(batches: seq<seq<Row>>, t: nat, batch: seq<Row>, row: Row)
    requires t < |batches|
    ensures InFlightCopies(batches[t := batch], row) + multiset(batches[t])[row]
            == InFlightCopies(batches, row) + multiset(batch)[row]
  {
    if t == 0 {
      assert batches[t := batch][1..] == batches[1..];
    } else {
      assert batches[t := batch][1..] == batches[1..][t - 1 := batch];
      InFlightReplace(batches[1..], t - 1, batch, row);
    }
  }

  lemma SplitCopies(merged: seq<Row>, a: seq<Row>, b: seq<Row>, cut: nat, row: Row)
    requires merged == a + b && cut <= |merged|
    ensures multiset(a)[row] + multiset(b)[row] == multiset(merged[..cut])[row] + multiset(merged[cut..])[row]
  {
    assert merged == merged[..cut] + merged[cut..];
    assert multiset(merged)[row] == multiset(a)[row] + multiset(b)[row];
    assert multiset(merged[..cut] + merged[cut..])[row] == multiset(merged[..cut])[row] + multiset(merged[cut..])[row];
  }

  lemma CopiesAfterSettling(s: State, rows: seq<Row>, mark: Fate, row: Row)
    ensures Copies(s.(settled := s.settled + Mark(rows, mark)), row) == Copies(s, row) + multiset(rows)[row]
  {
    SettleAll(s.settled, rows, mark);
  }

  lemma FinishAccounts(s: State, t: nat, outcome: Outcome, row: Row)
    requires Enabled(s, Finish(t, outcome))
    ensures Copies(Apply(s, Finish(t, outcome)), row) == Copies(s, row)
  {
    var rows := s.inFlight[t];
    InFlightReplace(s.inFlight, t, [], row);
    match outcome
    case CommitOk => CopiesAfterSettling(s, rows, Committed, row);
    case OtherError => CopiesAfterSettling(s, rows, Dropped, row);
    case LockError =>
      var overflow := Overflow(rows, s.buffer);
      CopiesAfterSettling(s, (rows + s.buffer)[..overflow], Overflowed, row);
      SplitCopies(rows + s.buffer, rows, s.buffer, overflow, row);
  }

  lemma FinishCounts(s: State, t: nat, outcome: Outcome)
    requires Enabled(s, Finish(t, outcome)) && CountersExact(s)
    ensures CountersExact(Apply(s, Finish(t, outcome)))
  {
    var rows := s.inFlight[t];
    match outcome
    case CommitOk => SettleAll(s.settled, rows, Committed);
    case OtherError => SettleAll(s.settled, rows, Dropped);
    case LockError => SettleAll(s.settled, (rows + s.buffer)[..Overflow(rows, s.buffer)], Overflowed);
  }

  lemma StepAccounts(s: State, step: Step, row: Row)
    requires Enabled(s, step)
    ensures Copies(Apply(s, step), row) == Copies(s, row) + multiset(SubmittedRows([step]))[row]
    ensures CountersExact(s) ==> CountersExact(Apply(s, step))
  {
    match step
    case Submit(r) =>
      assert SubmittedRows([step]) == [r];
    case Take(t) =>
      InFlightReplace(s.inFlight, t, s.buffer, row);
    case Finish(t, outcome) =>
      FinishAccounts(s, t, outcome, row);
      if CountersExact(s) {
        FinishCounts(s, t, outcome);
      }
  }

  function Collisions(steps: seq<Step>): nat {
    if steps == [] then 0
    else (if steps[0].Finish? && steps[0].outcome == LockError then 1 else 0) + Collisions(steps[1..])
  }

  lemma StepCollides(s: State, step: Step)
    requires Enabled(s, step)
    ensures Apply(s, step).lockRetries == s.lockRetries + Collisions([step])
  {
    assert [step][1..] == [];
  }

  /** In every interleaving of submitters and flushing threads, each copy of a row submitted is
      in exactly one of: committed, dropped, overflow-dropped, in flight, buffered; and the
      two loss counters are the sizes of the two lost parts, and the retry counter counts the lock
      collisions. */
  lemma {:induction false} NoRowLostUncounted(s: State, steps: seq<Step>, row: Row)
    requires Runnable(s, steps)
    ensures Copies(Run(s, steps), row) == Copies(s, row) + multiset(SubmittedRows(steps))[row]
    ensures CountersExact(s) ==> CountersExact(Run(s, steps))
    ensures Run(s, steps).lockRetries == s.lockRetries + Collisions(steps)
    decreases |steps|
  {
    if steps != [] {
      var next := Apply(s, steps[0]);
      StepAccounts(s, steps[0], row);
      StepCollides(s, steps[0]);
      SubmittedCopies(steps, row);
      NoRowLostUncounted(next, steps[1..], row);
      assert Run(s, steps) == Run(next, steps[1..]);
    }
  }

  lemma SubmittedCopies(steps: seq<Step>, row: Row)
    requires steps != []
    ensures multiset(SubmittedRows(steps))[row]
            == multiset(SubmittedRows([steps[0]]))[row] + multiset(SubmittedRows(steps[1..]))[row]
  {
    SubmittedSplit(steps);
  }

  /** A retained buffer never exceeds the cap, the rows discarded are exactly the oldest
      ones past it, and none is discarded while the cap is not exceeded. */
  lemma RetainKeepsNewestUpToCap(s: State, t: nat)
    requires Enabled(s, Finish(t, LockError))
    ensures var after := Apply(s, Finish(t, LockError));
            && |after.buffer| <= 200_000
            && RowsOf(after.settled) + after.buffer == RowsOf(s.settled) + s.inFlight[t] + s.buffer
            && (after.overflowCount > s.overflowCount ==> |after.buffer| == 200_000)
            && after.table == s.table && after.droppedCount == s.droppedCount
  {
  }

  predicate NeverOverlaps(s: State, steps: seq<Step>)
    requires Runnable(s, steps)
    decreases |steps|
  {
    OneFlusher(s.inFlight) && (steps == [] || NeverOverlaps(Apply(s, steps[0]), steps[1..]))
  }

  /** Everything ever submitted, oldest first, as far as the state still shows it. */
  function History(s: State): seq<Row> {
    RowsOf(s.settled) + Concat(s.inFlight) + s.buffer
  }

  lemma TakeKeepsOrder(s: State, t: nat)
    requires Enabled(s, Take(t)) && OneFlusher(Apply(s, Take(t)).inFlight)
    ensures History(Apply(s, Take(t))) == History(s)
  {
    var after := Apply(s, Take(t));
    if s.buffer == [] {
      assert after.inFlight == s.inFlight;
    } else {
      OthersIdle(after.inFlight, t);
      forall i | 0 <= i < |s.inFlight|
        ensures s.inFlight[i] == []
      {
        assert i != t ==> after.inFlight[i] == s.inFlight[i];
      }
      ConcatSingle(after.inFlight, t);
      ConcatEmpty(s.inFlight);
    }
  }

  lemma FinishKeepsOrder(s: State, t: nat, outcome: Outcome)
    requires Enabled(s, Finish(t, outcome)) && OneFlusher(s.inFlight)
    ensures History(Apply(s, Finish(t, outcome))) == History(s)
  {
    var after := Apply(s, Finish(t, outcome));
    var rows := s.inFlight[t];
    OthersIdle(s.inFlight, t);
    ConcatSingle(s.inFlight, t);
    ConcatEmpty(after.inFlight);
    match outcome
    case CommitOk => assert RowsOf(after.settled) == RowsOf(s.settled) + rows;
    case OtherError => assert RowsOf(after.settled) == RowsOf(s.settled) + rows;
    case LockError => RetainKeepsNewestUpToCap(s, t);
  }

  lemma StepKeepsOrder(s: State, step: Step)
    requires Enabled(s, step) && OneFlusher(s.inFlight) && OneFlusher(Apply(s, step).inFlight)
    ensures History(Apply(s, step)) == History(s) + SubmittedRows([step])
  {
    match step
    case Submit(row) =>
      assert SubmittedRows([step]) == [row];
    case Take(t) =>
      TakeKeepsOrder(s, t);
    case Finish(t, outcome) =>
      FinishKeepsOrder(s, t, outcome);
  }

  /** While flushes do not overlap, rows leave the writer in the order they were submitted,
      through any number of lock collisions, drops and overflows. */
  lemma {:induction false} ArrivalOrderSurvives(s: State, steps: seq<Step>)
    requires Runnable(s, steps) && NeverOverlaps(s, steps)
    ensures History(Run(s, steps)) == History(s) + SubmittedRows(steps)
    decreases |steps|
  {
    if steps != [] {
      var after := Apply(s, steps[0]);
      StepKeepsOrder(s, steps[0]);
      ArrivalOrderSurvives(after, steps[1..]);
      SubmittedSplit(steps);
      Associative(History(s), SubmittedRows([steps[0]]), SubmittedRows(steps[1..]));
    }
  }

  lemma SubmittedSplit(steps: seq<Step>)
    requires steps != []
    ensures SubmittedRows(steps) == SubmittedRows([steps[0]]) + SubmittedRows(steps[1..])
  {
    assert SubmittedRows([steps[0]][1..]) == [];
  }

  /** Two threads holding batches, the older taken first, both hit the lock, and the cap is not
      reached. The buffer comes back in arrival order exactly when the later taker is the first
      to hand its batch back, or the two batches commute as sequences. */
  lemma OverlappingRetainsOrder(s: State, older: nat, newer: nat, newerFirst: bool)
    requires older < |s.inFlight| && newer < |s.inFlight| && older != newer
    requires s.inFlight[older] != [] && s.inFlight[newer] != []
    requires |s.inFlight[older]| + |s.inFlight[newer]| + |s.buffer| <= MAX_RETAINED_ROWS
    ensures var a, b := s.inFlight[older], s.inFlight[newer];
            var first, second := if newerFirst then newer else older, if newerFirst then older else newer;
            var steps := [Finish(first, LockError), Finish(second, LockError)];
            Runnable(s, steps) && (Run(s, steps).buffer == a + b + s.buffer <==> newerFirst || a + b == b + a)
  {
    var a, b := s.inFlight[older], s.inFlight[newer];
    var first, second := if newerFirst then newer else older, if newerFirst then older else newer;
    var steps := [Finish(first, LockError), Finish(second, LockError)];
    var s1 := Apply(s, steps[0]);
    assert steps[1..] == [steps[1]] && steps[1..][1..] == [];
    assert Run(s1, steps[1..]) == Apply(s1, steps[1]);
    var out := Apply(s1, steps[1]).buffer;
    if newerFirst {
      assert out == a + b + s.buffer;
    } else {
      assert out == b + a + s.buffer;
      assert out[..|a| + |b|] == b + a;
      assert (a + b + s.buffer)[..|a| + |b|] == a + b;
    }
  }

  lemma {:induction false} InsertAppend(table: seq<Row>, a: seq<Row>, b: seq<Row>)
    ensures InsertOrIgnore(table, a + b) == InsertOrIgnore(InsertOrIgnore(table, a), b)
    decreases |a|
  {
    if a == [] {
      assert a + b == b;
    } else {
      assert (a + b)[1..] == a[1..] + b && (a + b)[0] == a[0];
      InsertAppend(if HasId(table, a[0].id) then table else table + [a[0]], a[1..], b);
    }
  }

  /** The table is always the committed rows, presented in commit order, whatever was retried in between. */
  lemma {:induction false} TableIsCommittedRows(s: State, steps: seq<Step>, start: seq<Row>)
    requires Runnable(s, steps)
    requires s.table == InsertOrIgnore(start, WithFate(s.settled, Committed))
    ensures Run(s, steps).table == InsertOrIgnore(start, WithFate(Run(s, steps).settled, Committed))
    decreases |steps|
  {
    if steps != [] {
      var step := steps[0];
      var after := Apply(s, step);
      if step.Finish? {
        var rows := s.inFlight[step.thread];
        match step.outcome {
          case CommitOk =>
            SettleAll(s.settled, rows, Committed);
            InsertAppend(start, WithFate(s.settled, Committed), rows);
          case OtherError =>
            SettleAll(s.settled, rows, Dropped);
            assert WithFate(after.settled, Committed) == WithFate(s.settled, Committed);
          case LockError =>
            SettleAll(s.settled, (rows + s.buffer)[..Overflow(rows, s.buffer)], Overflowed);
            assert WithFate(after.settled, Committed) == WithFate(s.settled, Committed);
        }
        assert after.table == InsertOrIgnore(start, WithFate(after.settled, Committed));
      }
      TableIsCommittedRows(after, steps[1..], start);
    }
  }

  predicate UniqueIds(table: seq<Row>) {
    forall i, j :: 0 <= i < j < |table| && table[i].id.Some? ==> table[i].id != table[j].id
  }

  /** Presenting rows keeps every earlier row in place, keeps the primary key unique, and adds
      nothing but presented rows. */
  lemma {:induction false} PresentingOnlyAdds(table: seq<Row>, rows: seq<Row>)
    requires UniqueIds(table)
    ensures var out := InsertOrIgnore(table, rows);
            UniqueIds(out) && table <= out && (forall r :: r in out ==> r in table || r in rows)
    decreases |rows|
  {
    if rows != [] {
      var next := if HasId(table, rows[0].id) then table else table + [rows[0]];
      PresentingOnlyAdds(next, rows[1..]);
    }
  }

  lemma FirstHeldLater(first: Row, rest: seq<Row>, id: Option<string>)
    requires !HasId([first] + rest, id) && id.Some?
    ensures first.id != id && !HasId(rest, id)
  {
    assert ([first] + rest)[0] == first;
    forall i | 0 <= i < |rest|
      ensures rest[i].id != id
    {
      assert ([first] + rest)[i + 1] == rest[i];
    }
  }

  /** Every presented row's key is held afterwards, by the first row presented with it; so a
      re-presented trade_id neither fails nor replaces anything. */
  lemma {:induction false} PresentedIdsAreHeld(table: seq<Row>, rows: seq<Row>, k: nat)
    requires UniqueIds(table) && k < |rows| && rows[k].id.Some?
    ensures HasId(InsertOrIgnore(table, rows), rows[k].id)
    ensures !HasId(table, rows[k].id) && !HasId(rows[..k], rows[k].id) ==> rows[k] in InsertOrIgnore(table, rows)
    decreases |rows|
  {
    var next := if HasId(table, rows[0].id) then table else table + [rows[0]];
    PresentingOnlyAdds(next, rows[1..]);
    var out := InsertOrIgnore(next, rows[1..]);
    if k == 0 {
      var i :| 0 <= i < |next| && next[i].id == rows[0].id && (next == table || i == |table|);
      assert out[i] == next[i];
    } else {
      PresentedIdsAreHeld(next, rows[1..], k - 1);
      if !HasId(table, rows[k].id) && !HasId(rows[..k], rows[k].id) {
        assert rows[..k] == [rows[0]] + rows[1..][..k - 1];
        assert rows[..k][0] == rows[0];
        FirstHeldLater(rows[0], rows[1..][..k - 1], rows[k].id);
      }
    }
  }

  /** rejection_events rows have no key of their own, so every one presented is kept, in order. */
  lemma {:induction false} UnkeyedRowsAllKept(table: seq<Row>, rows: seq<Row>)
    requires forall r :: r in rows ==> r.id.None?
    ensures InsertOrIgnore(table, rows) == table + rows
    decreases |rows|
  {
    if rows != [] {
      assert rows[0] in rows;
      UnkeyedRowsAllKept(table + [rows[0]], rows[1..]);
    }
  }

  /** The module's state for one store: the buffer under the lock, its counters, and the table in
      the file. inFlight and settled are the batches held by threads and the record of departures. */
  class Writer {
    var buffer: seq<Row>
    var table: seq<Row>
    var droppedCount: nat
    var overflowCount: nat
    var lockRetries: nat
    ghost var inFlight: seq<seq<Row>>
    ghost var settled: seq<Settled>

    ghost function Model(): State
      reads this
    {
      State(buffer, inFlight, settled, table, droppedCount, overflowCount, lockRetries)
    }

    constructor (ghost threads: nat)
      ensures Model() == State([], seq(threads, _ => []), [], [], 0, 0, 0)
    {
      buffer, table := [], [];
      droppedCount, overflowCount, lockRetries := 0, 0, 0;
      inFlight := seq(threads, _ => []);
      settled := [];
    }

    method Append(row: Row)
      modifies this
      ensures Model() == Apply(old(Model()), Submit(row))
    {
      buffer := buffer + [row];
    }

    method SwapOut(ghost thread: nat) returns (rows: seq<Row>)
      requires Enabled(Model(), Take(thread))
      modifies this
      ensures Model() == Apply(old(Model()), Take(thread))
      ensures rows == inFlight[thread]
    {
      rows := buffer;
      buffer := [];
      inFlight := inFlight[thread := rows];
    }

    method CommitBatch(ghost thread: nat, rows: seq<Row>)
      requires Enabled(Model(), Finish(thread, CommitOk)) && rows == inFlight[thread]
      modifies this
      ensures Model() == Apply(old(Model()), Finish(thread, CommitOk))
    {
      var i := 0;
      while i < |rows|
        invariant 0 <= i <= |rows|
        invariant InsertOrIgnore(table, rows[i..]) == InsertOrIgnore(old(table), rows)
        invariant unchanged(`buffer, `droppedCount, `overflowCount, `lockRetries, `inFlight, `settled)
      {
        assert rows[i..][1..] == rows[i + 1..];
        if !HasId(table, rows[i].id) {
          table := table + [rows[i]];
        }
        i := i + 1;
      }
      settled := settled + Mark(rows, Committed);
      inFlight := inFlight[thread := []];
    }

    method DropBatch(ghost thread: nat, rows: seq<Row>)
      requires Enabled(Model(), Finish(thread, OtherError)) && rows == inFlight[thread]
      modifies this
      ensures Model() == Apply(old(Model()), Finish(thread, OtherError))
    {
      droppedCount := droppedCount + |rows|;
      settled := settled + Mark(rows, Dropped);
      inFlight := inFlight[thread := []];
    }

    method Retain(ghost thread: nat, rows: seq<Row>) returns (overflow: nat)
      requires Enabled(Model(), Finish(thread, LockError)) && rows == inFlight[thread]
      modifies this
      ensures Model() == Apply(old(Model()), Finish(thread, LockError))
      ensures overflow == overflowCount - old(overflowCount)
    {
      var merged := rows + buffer;
      overflow := if |merged| > MAX_RETAINED_ROWS then |merged| - MAX_RETAINED_ROWS else 0;
      settled := settled + Mark(merged[..overflow], Overflowed);
      if overflow > 0 {
        merged := merged[overflow..];
      }
      buffer := merged;
      lockRetries := lockRetries + 1;
      overflowCount := overflowCount + overflow;
      inFlight := inFlight[thread := []];
    }

    /** One whole flush with nothing interleaved: an empty buffer touches nothing, any other
        batch ends committed, retained or dropped, and the thread is idle again. */
    method FlushStore(ghost thread: nat, outcome: Outcome)
      requires Enabled(Model(), Take(thread))
      modifies this
      ensures Model() == if old(buffer) == [] then old(Model())
                         else Apply(Apply(old(Model()), Take(thread)), Finish(thread, outcome))
    {
      var rows := SwapOut(thread);
      if rows == [] {
        assert inFlight == old(inFlight);
        return;
      }
      match outcome {
        case CommitOk => CommitBatch(thread, rows);
        case LockError => var _ := Retain(thread, rows);
        case OtherError => DropBatch(thread, rows);
      }
    }
  }
}
