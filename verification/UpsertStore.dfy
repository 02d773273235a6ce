/**
  The upsert-mode store of services/capture_writer.py (rejected_candidates): a
  dict buffer that keeps the newest row per key, flushed through an
  INSERT ... ON CONFLICT DO UPDATE ... WHERE resolved = 0, beside the settlement
  pass of services/candidate_log.py that resolves rows in the same table.

  The dict is a sequence of rows with distinct keys, in Python's insertion order.
*/
module UpsertStore {
  import opened Wrappers
  import opened Batches

  const MAX_RETAINED_ROWS: nat := 200_000

  datatype Key = Key(ticker: string, strategy: string, gate: string)

  datatype Observation = Observation(
    observed: Option<real>, threshold: Option<real>, side: Option<string>, rejectedAt: real, unitCost: Option<real>)

  datatype Row = Row(key: Key, seen: Observation)

  datatype Candidate = Candidate(seen: Observation, resolved: bool, result: Option<string>, resolvedAt: Option<real>)

  type Table = map<Key, Candidate>

  /** The settlement results of one pass, ticker to "yes" or "no". */
  type Verdicts = map<string, string>

  datatype Outcome = CommitOk | LockError | OtherError

  datatype State = State(
    table: Table, inFlight: seq<seq<Row>>, buffer: seq<Row>, droppedCount: nat, overflowCount: nat, lockRetries: nat)

  datatype Step =
    | Submit(row: Row)
    | Take(thread: nat)
    | Finish(thread: nat, outcome: Outcome)
    | Resolve(verdicts: Verdicts, now: real)

  /** dict.get. */
  function Find(rows: seq<Row>, key: Key): Option<Observation> {
    if rows == [] then None
    else if rows[0].key == key then Some(rows[0].seen)
    else Find(rows[1..], key)
  }

  predicate DistinctKeys(rows: seq<Row>) {
    rows == [] || (Find(rows[1..], rows[0].key).None? && DistinctKeys(rows[1..]))
  }

  function Lookup(t: Table, key: Key): Option<Candidate> {
    if key in t then Some(t[key]) else None
  }

  /** Dict assignment: an existing key keeps its place, a new one goes last. */
  function Put(rows: seq<Row>, row: Row): (r: seq<Row>)
    ensures |rows| <= |r| <= |rows| + 1
  {
    if rows == [] then [row]
    else if rows[0].key == row.key then [row] + rows[1..]
    else [rows[0]] + Put(rows[1..], row)
  }

  /** dict.update. */
  function PutAll(rows: seq<Row>, newer: seq<Row>): seq<Row>
    decreases |newer|
  {
    if newer == [] then rows else PutAll(Put(rows, newer[0]), newer[1..])
  }

  /** The upsert statement on one row: a resolved row is never overwritten. */
  function Upsert(t: Table, row: Row): Table {
    if row.key !in t then t[row.key := Candidate(row.seen, false, None, None)]
    else if t[row.key].resolved then t
    else t[row.key := t[row.key].(seen := row.seen)]
  }

  function UpsertAll(t: Table, rows: seq<Row>): Table
    decreases |rows|
  {
    if rows == [] then t else UpsertAll(Upsert(t, rows[0]), rows[1..])
  }

  /** The settlement pass as a scan of every unresolved row. */
  function Settle(t: Table, verdicts: Verdicts, now: real): Table {
    map k | k in t ::
      if !t[k].resolved && k.ticker in verdicts
      then Candidate(t[k].seen, true, Some(verdicts[k.ticker]), Some(now))
      else t[k]
  }

  function Overflow(rows: seq<Row>): nat {
    if |rows| > MAX_RETAINED_ROWS then |rows| - MAX_RETAINED_ROWS else 0
  }

  predicate Enabled(s: State, step: Step) {
    match step
    case Submit(_) => true
    case Take(t) => t < |s.inFlight| && s.inFlight[t] == []
    case Finish(t, _) => t < |s.inFlight| && s.inFlight[t] != []
    case Resolve(_, _) => true
  }

  function Apply(s: State, step: Step): State
    requires Enabled(s, step)
  {
    match step
    case Submit(row) => s.(buffer := Put(s.buffer, row))
    case Take(t) => s.(buffer := [], inFlight := s.inFlight[t := s.buffer])
    case Resolve(verdicts, now) => s.(table := Settle(s.table, verdicts, now))
    case Finish(t, outcome) =>
      var rows := s.inFlight[t];
      var idle := s.(inFlight := s.inFlight[t := []]);
      match outcome
      case CommitOk => idle.(table := UpsertAll(s.table, rows))
      case OtherError => idle.(droppedCount := s.droppedCount + |rows|)
      case LockError =>
        var merged := PutAll(rows, s.buffer);
        idle.(buffer := merged[Overflow(merged)..],
              overflowCount := s.overflowCount + Overflow(merged),
              lockRetries := s.lockRetries + 1)
  }

  predicate Runnable(s: State, steps: seq<Step>)
    decreases |steps|
  {
    steps == [] || (Enabled(s, steps[0]) && Runnable(Apply(s, steps[0]), steps[1..]))
  }

  function Run(s: State, steps: seq<Step>): State
    requires Runnable(s, steps)
    decreases |steps|
  {
    if steps == [] then s else Run(Apply(s, steps[0]), steps[1..])
  }

  /** The table the former synchronous statement would have produced. */
  function SyncRun(t: Table, steps: seq<Step>): Table
    decreases |steps|
  {
    if steps == [] then t
    else SyncRun(match steps[0]
                 case Submit(row) => Upsert(t, row)
                 case Resolve(verdicts, now) => Settle(t, verdicts, now)
                 case Take(_) => t
                 case Finish(_, _) => t,
                 steps[1..])
  }

  // ---- The dict buffer and the upsert fold ----

  lemma {:induction false} PutFinds(rows: seq<Row>, row: Row, key: Key)
    ensures Find(Put(rows, row), key) == if key == row.key then Some(row.seen) else Find(rows, key)
  {
    if rows != [] {
      PutFinds(rows[1..], row, key);
    }
  }

  lemma {:induction false} PutDistinct(rows: seq<Row>, row: Row)
    requires DistinctKeys(rows)
    ensures DistinctKeys(Put(rows, row))
  {
    if rows != [] {
      PutDistinct(rows[1..], row);
      PutFinds(rows[1..], row, rows[0].key);
    }
  }

  lemma {:induction false} PutAllDistinct(rows: seq<Row>, newer: seq<Row>)
    requires DistinctKeys(rows)
    ensures DistinctKeys(PutAll(rows, newer))
    decreases |newer|
  {
    if newer != [] {
      PutDistinct(rows, newer[0]);
      PutAllDistinct(Put(rows, newer[0]), newer[1..]);
    }
  }

  lemma {:induction false} UpsertMovesPast(t: Table, rest: seq<Row>, row: Row)
    requires Find(rest, row.key).None?
    ensures UpsertAll(Upsert(t, row), rest) == Upsert(UpsertAll(t, rest), row)
    decreases |rest|
  {
    if rest != [] {
      assert Upsert(Upsert(t, row), rest[0]) == Upsert(Upsert(t, rest[0]), row);
      UpsertMovesPast(Upsert(t, rest[0]), rest[1..], row);
    }
  }

  /** Collapsing in memory and then upserting once is upserting every time. */
  lemma {:induction false} PutThenUpsert(t: Table, rows: seq<Row>, row: Row)
    requires DistinctKeys(rows)
    ensures UpsertAll(t, Put(rows, row)) == Upsert(UpsertAll(t, rows), row)
    decreases |rows|
  {
    if rows != [] {
      if rows[0].key == row.key {
        assert Upsert(Upsert(t, rows[0]), row) == Upsert(t, row);
        UpsertMovesPast(Upsert(t, rows[0]), rows[1..], row);
      } else {
        PutThenUpsert(Upsert(t, rows[0]), rows[1..], row);
      }
    }
  }

  lemma {:induction false} PutAllThenUpsert(t: Table, rows: seq<Row>, newer: seq<Row>)
    requires DistinctKeys(rows)
    ensures UpsertAll(t, PutAll(rows, newer)) == UpsertAll(UpsertAll(t, rows), newer)
    decreases |newer|
  {
    if newer != [] {
      PutDistinct(rows, newer[0]);
      PutThenUpsert(t, rows, newer[0]);
      PutAllThenUpsert(t, Put(rows, newer[0]), newer[1..]);
    }
  }

  /** What one upsert leaves at its key. */
  function Overwritten(current: Option<Candidate>, seen: Option<Observation>): Option<Candidate> {
    if seen.None? then current
    else if current.None? then Some(Candidate(seen.value, false, None, None))
    else if current.value.resolved then current
    else Some(current.value.(seen := seen.value))
  }

  /** Upserting distinct rows, key by key. */
  lemma {:induction false} UpsertAllAt(t: Table, rows: seq<Row>, k: Key)
    requires DistinctKeys(rows)
    ensures Lookup(UpsertAll(t, rows), k) == Overwritten(Lookup(t, k), Find(rows, k))
    decreases |rows|
  {
    if rows != [] {
      UpsertAllAt(Upsert(t, rows[0]), rows[1..], k);
    }
  }

  lemma SameLookups(a: Table, b: Table)
    requires forall k :: Lookup(a, k) == Lookup(b, k)
    ensures a == b
  {
    forall k
      ensures k in a <==> k in b
      ensures k in a ==> a[k] == b[k]
    {
      assert Lookup(a, k) == Lookup(b, k);
    }
  }

  // ---- The buffered store looks like the synchronous table ----

  predicate Valid(s: State) {
    DistinctKeys(s.buffer) && forall t :: 0 <= t < |s.inFlight| ==> DistinctKeys(s.inFlight[t])
  }

  predicate NothingPending(s: State) {
    s.buffer == [] && forall t :: 0 <= t < |s.inFlight| ==> s.inFlight[t] == []
  }

  /** The table, with the batch in flight and then the buffer laid over it. */
  function View(s: State): Table {
    UpsertAll(UpsertAll(s.table, Concat(s.inFlight)), s.buffer)
  }

  /** Flushes never overlap, and each settlement pass finds nothing pending. */
  predicate Orderly(s: State, steps: seq<Step>)
    requires Runnable(s, steps)
    decreases |steps|
  {
    && OneFlusher(s.inFlight)
    && (steps == [] || ((steps[0].Resolve? ==> NothingPending(s)) && Orderly(Apply(s, steps[0]), steps[1..])))
  }

  lemma StepValid(s: State, step: Step)
    requires Valid(s) && Enabled(s, step)
    ensures Valid(Apply(s, step))
  {
    match step
    case Submit(row) => PutDistinct(s.buffer, row);
    case Take(t) =>
    case Resolve(_, _) =>
    case Finish(t, outcome) =>
      PutAllDistinct(s.inFlight[t], s.buffer);
      var merged := PutAll(s.inFlight[t], s.buffer);
      DistinctDrop(merged, Overflow(merged));
  }

  lemma {:induction false} DistinctDrop(rows: seq<Row>, n: nat)
    requires DistinctKeys(rows) && n <= |rows|
    ensures DistinctKeys(rows[n..])
  {
    if n > 0 {
      assert rows[1..][n - 1..] == rows[n..];
      DistinctDrop(rows[1..], n - 1);
    }
  }

  lemma TakeKeepsView(s: State, t: nat)
    requires Enabled(s, Take(t)) && OneFlusher(Apply(s, Take(t)).inFlight)
    ensures View(Apply(s, Take(t))) == View(s)
  {
    var after := Apply(s, Take(t));
    if s.buffer == [] {
      assert after.inFlight == s.inFlight;
    } else {
      OthersIdle(after.inFlight, t);
      assert after.inFlight[t := []] == s.inFlight;
    }
  }

  lemma FinishKeepsView(s: State, t: nat, outcome: Outcome)
    requires Valid(s) && Enabled(s, Finish(t, outcome)) && OneFlusher(s.inFlight)
    requires var after := Apply(s, Finish(t, outcome));
             after.droppedCount == s.droppedCount && after.overflowCount == s.overflowCount
    ensures View(Apply(s, Finish(t, outcome))) == View(s)
  {
    OthersIdle(s.inFlight, t);
    if outcome == LockError {
      PutAllThenUpsert(s.table, s.inFlight[t], s.buffer);
      var merged := PutAll(s.inFlight[t], s.buffer);
      assert merged[0..] == merged;
    }
  }

  lemma {:induction false} LossCountersGrow(s: State, steps: seq<Step>)
    requires Runnable(s, steps)
    ensures Run(s, steps).droppedCount >= s.droppedCount && Run(s, steps).overflowCount >= s.overflowCount
    decreases |steps|
  {
    if steps != [] {
      LossCountersGrow(Apply(s, steps[0]), steps[1..]);
    }
  }

  /** Refinement: while flushes do not overlap, each settlement pass follows a committed flush and
      the loss counters do not move, the table with the pending rows laid over it is always the
      table that a synchronous upsert per rejection would have given, through any number of lock
      collisions. */
  lemma {:induction false} LooksSynchronous(s: State, steps: seq<Step>)
    requires Valid(s) && Runnable(s, steps) && Orderly(s, steps)
    requires Run(s, steps).droppedCount == s.droppedCount && Run(s, steps).overflowCount == s.overflowCount
    ensures View(Run(s, steps)) == SyncRun(View(s), steps)
    decreases |steps|
  {
    if steps != [] {
      var step := steps[0];
      var after := Apply(s, step);
      LossCountersGrow(after, steps[1..]);
      StepValid(s, step);
      match step {
        case Submit(row) =>
          PutThenUpsert(UpsertAll(s.table, Concat(s.inFlight)), s.buffer, row);
        case Take(t) => TakeKeepsView(s, t);
        case Finish(t, outcome) => FinishKeepsView(s, t, outcome);
        case Resolve(verdicts, now) => ConcatEmpty(s.inFlight);
      }
      LooksSynchronous(after, steps[1..]);
    }
  }

  /** In any run whatever, with overlapping flushes, drops and overflows, a resolved row stays
      exactly as it was resolved. */
  lemma {:induction false} ResolvedRowsNeverOverwritten(s: State, steps: seq<Step>, k: Key)
    requires Runnable(s, steps) && k in s.table && s.table[k].resolved
    ensures k in Run(s, steps).table && Run(s, steps).table[k] == s.table[k]
    decreases |steps|
  {
    if steps != [] {
      if steps[0].Finish? {
        ResolvedStays(s.table, s.inFlight[steps[0].thread], k);
      }
      ResolvedRowsNeverOverwritten(Apply(s, steps[0]), steps[1..], k);
    }
  }

  lemma {:induction false} ResolvedStays(t: Table, rows: seq<Row>, k: Key)
    requires k in t && t[k].resolved
    ensures k in UpsertAll(t, rows) && UpsertAll(t, rows)[k] == t[k]
    decreases |rows|
  {
    if rows != [] {
      ResolvedStays(Upsert(t, rows[0]), rows[1..], k);
    }
  }

  /** A pending row a settlement pass may overtake: its table row is already resolved, or
      already carries the same values. */
  predicate Moot(current: Option<Candidate>, seen: Observation) {
    current.Some? && (current.value.resolved || current.value.seen == seen)
  }

  /** A settlement pass that finds rows still pending gives the synchronous answer exactly when
      every pending row of a settling ticker is moot. */
  lemma PendingRowsDecideSettlement(t: Table, pending: seq<Row>, verdicts: Verdicts, now: real)
    requires DistinctKeys(pending)
    ensures UpsertAll(Settle(t, verdicts, now), pending) == Settle(UpsertAll(t, pending), verdicts, now)
            <==> forall k :: Find(pending, k).Some? && k.ticker in verdicts ==> Moot(Lookup(t, k), Find(pending, k).value)
  {
    var late := UpsertAll(Settle(t, verdicts, now), pending);
    var sync := Settle(UpsertAll(t, pending), verdicts, now);
    forall k
      ensures Lookup(late, k) == Lookup(sync, k)
              <==> (Find(pending, k).Some? && k.ticker in verdicts ==> Moot(Lookup(t, k), Find(pending, k).value))
    {
      UpsertAllAt(t, pending, k);
      UpsertAllAt(Settle(t, verdicts, now), pending, k);
    }
    if forall k :: Lookup(late, k) == Lookup(sync, k) {
      SameLookups(late, sync);
    }
  }

  /** Two overlapping flushes, the older batch committing last, leave the latest values exactly
      when every shared key is already resolved or carries the same values in both. */
  lemma OverlapKeepsLatest(t: Table, older: seq<Row>, newer: seq<Row>)
    requires DistinctKeys(older) && DistinctKeys(newer)
    ensures UpsertAll(UpsertAll(t, newer), older) == UpsertAll(UpsertAll(t, older), newer)
            <==> forall k :: Find(older, k).Some? && Find(newer, k).Some? ==>
                   (k in t && t[k].resolved) || Find(older, k) == Find(newer, k)
  {
    var a := UpsertAll(UpsertAll(t, newer), older);
    var b := UpsertAll(UpsertAll(t, older), newer);
    forall k
      ensures Lookup(a, k) == Lookup(b, k)
              <==> (Find(older, k).Some? && Find(newer, k).Some? ==>
                      (k in t && t[k].resolved) || Find(older, k) == Find(newer, k))
    {
      UpsertAllAt(t, newer, k);
      UpsertAllAt(t, older, k);
      UpsertAllAt(UpsertAll(t, newer), older, k);
      UpsertAllAt(UpsertAll(t, older), newer, k);
    }
    if forall k :: Lookup(a, k) == Lookup(b, k) {
      SameLookups(a, b);
    }
  }

  /** A batch handed back after a lock failure yields, key by key, to what was submitted since. */
  lemma {:induction false} RetainedYieldsToNewer(rows: seq<Row>, newer: seq<Row>, k: Key)
    requires DistinctKeys(newer)
    ensures Find(PutAll(rows, newer), k) == if Find(newer, k).Some? then Find(newer, k) else Find(rows, k)
    decreases |newer|
  {
    if newer != [] {
      PutFinds(rows, newer[0], k);
      RetainedYieldsToNewer(Put(rows, newer[0]), newer[1..], k);
    }
  }

  /** What each ending of a flush does: a commit upserts the batch, another failure counts it as dropped, and a lock
      failure hands it back under the newer rows, keeping the newest up to the cap and counting exactly the oldest
      keys it let go. Only the last touches the buffer and only the first the table. */
  lemma EndingsInFull(s: State, t: nat, outcome: Outcome)
    requires Enabled(s, Finish(t, outcome))
    ensures var after, rows := Apply(s, Finish(t, outcome)), s.inFlight[t];
            && after.inFlight == s.inFlight[t := []]
            && after.table == (if outcome == CommitOk then UpsertAll(s.table, rows) else s.table)
            && after.droppedCount == s.droppedCount + (if outcome == OtherError then |rows| else 0)
            && after.lockRetries == s.lockRetries + (if outcome == LockError then 1 else 0)
            && (outcome != LockError ==> after.buffer == s.buffer && after.overflowCount == s.overflowCount)
            && (outcome == LockError ==>
                  var merged, lost := PutAll(rows, s.buffer), after.overflowCount - s.overflowCount;
                  && 0 <= lost <= |merged| && after.buffer == merged[lost..] && |after.buffer| <= 200_000
                  && (lost > 0 ==> |after.buffer| == 200_000))
  {
  }

  /** The module's state for the upsert store: the dict buffer under the lock, its counters, and the
      table in the file. inFlight is the batches held by flushing threads. */
  class Writer {
    var buffer: seq<Row>
    var table: Table
    var droppedCount: nat
    var overflowCount: nat
    var lockRetries: nat
    ghost var inFlight: seq<seq<Row>>

    ghost function Model(): State
      reads this
    {
      State(table, inFlight, buffer, droppedCount, overflowCount, lockRetries)
    }

    constructor (ghost threads: nat)
      ensures Model() == State(map[], seq(threads, _ => []), [], 0, 0, 0) && Valid(Model())
    {
      buffer, table := [], map[];
      droppedCount, overflowCount, lockRetries := 0, 0, 0;
      inFlight := seq(threads, _ => []);
    }

    method Assign(row: Row)
      modifies this
      ensures Model() == Apply(old(Model()), Submit(row))
    {
      buffer := Put(buffer, row);
    }

    method SwapOut(ghost thread: nat) returns (rows: seq<Row>)
      requires Enabled(Model(), Take(thread))
      modifies this
      ensures Model() == Apply(old(Model()), Take(thread))
      ensures rows == inFlight[thread]
    {
      rows := buffer;
      buffer := [];
      inFlight := inFlight[thread := rows];
    }

    method CommitBatch(ghost thread: nat, rows: seq<Row>)
      requires Enabled(Model(), Finish(thread, CommitOk)) && rows == inFlight[thread]
      modifies this
      ensures Model() == Apply(old(Model()), Finish(thread, CommitOk))
    {
      var i := 0;
      while i < |rows|
        invariant 0 <= i <= |rows|
        invariant UpsertAll(table, rows[i..]) == UpsertAll(old(table), rows)
        invariant unchanged(`buffer, `droppedCount, `overflowCount, `lockRetries, `inFlight)
      {
        assert rows[i..][1..] == rows[i + 1..];
        table := Upsert(table, rows[i]);
        i := i + 1;
      }
      inFlight := inFlight[thread := []];
    }

    method DropBatch(ghost thread: nat, rows: seq<Row>)
      requires Enabled(Model(), Finish(thread, OtherError)) && rows == inFlight[thread]
      modifies this
      ensures Model() == Apply(old(Model()), Finish(thread, OtherError))
    {
      droppedCount := droppedCount + |rows|;
      inFlight := inFlight[thread := []];
    }

    /** merged.update(current), then the oldest keys past the cap deleted one by one. */
    method Retain(ghost thread: nat, rows: seq<Row>) returns (overflow: nat)
      requires Enabled(Model(), Finish(thread, LockError)) && rows == inFlight[thread]
      modifies this
      ensures Model() == Apply(old(Model()), Finish(thread, LockError))
      ensures overflow == overflowCount - old(overflowCount) && |buffer| <= MAX_RETAINED_ROWS
    {
      var merged := rows;
      var i := 0;
      while i < |buffer|
        invariant 0 <= i <= |buffer|
        invariant PutAll(merged, buffer[i..]) == PutAll(rows, buffer)
      {
        assert buffer[i..][1..] == buffer[i + 1..];
        merged := Put(merged, buffer[i]);
        i := i + 1;
      }
      ghost var all := merged;
      overflow := if |merged| > MAX_RETAINED_ROWS then |merged| - MAX_RETAINED_ROWS else 0;
      var removed := 0;
      while removed < overflow
        invariant 0 <= removed <= overflow && merged == all[removed..]
      {
        merged := merged[1..];
        removed := removed + 1;
      }
      buffer := merged;
      lockRetries := lockRetries + 1;
      overflowCount := overflowCount + overflow;
      inFlight := inFlight[thread := []];
    }

    /** One whole flush with nothing interleaved. */
    method FlushStore(ghost thread: nat, outcome: Outcome)
      requires Enabled(Model(), Take(thread))
      modifies this
      ensures Model() == if old(buffer) == [] then old(Model())
                         else Apply(Apply(old(Model()), Take(thread)), Finish(thread, outcome))
    {
      var rows := SwapOut(thread);
      if rows == [] {
        assert inFlight == old(inFlight);
        return;
      }
      match outcome {
        case CommitOk => CommitBatch(thread, rows);
        case LockError => var _ := Retain(thread, rows);
        case OtherError => DropBatch(thread, rows);
      }
    }
  }
}
