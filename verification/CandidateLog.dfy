/**
  services/candidate_log.py: the settlement pass over rejected_candidates and
  rejection_events, the per-gate counts read from the first, and the unit-cost
  bands that group the second.
*/
module CandidateLog {
  import opened Wrappers
  import opened UpsertStore

  /** One rejection_events row, as far as settlement and grouping read it. */
  datatype Event = Event(
    ticker: string, strategy: string, gate: string, side: Option<string>, unitCost: Option<real>,
    resolved: bool, result: Option<string>, resolvedAt: Option<real>)

  // ---- Settlement ----

  /** What str.strip() removes. */
  predicate IsSpace(c: char) {
    || '\t' <= c <= '\r' || '\U{1C}' <= c <= ' ' || c == '\U{85}' || c == '\U{A0}' || c == '\U{1680}'
    || '\U{2000}' <= c <= '\U{200A}' || c == '\U{2028}' || c == '\U{2029}' || c == '\U{202F}' || c == '\U{205F}'
    || c == '\U{3000}'
  }

  /** By code point. */
  lemma SpaceCodes(c: char)
    ensures IsSpace(c) <==> c as int in {32, 133, 160, 5760, 8232, 8233, 8239, 8287, 12288}
                            || 9 <= c as int <= 13 || 28 <= c as int <= 31 || 8192 <= c as int <= 8202
  {
  }

  function Strip(s: string): string
    decreases |s|
  {
    if s == [] then s
    else if IsSpace(s[0]) then Strip(s[1..])
    else if IsSpace(s[|s| - 1]) then Strip(s[..|s| - 1])
    else s
  }

  function Lower(s: string): string {
    seq(|s|, i requires 0 <= i < |s| => if 'A' <= s[i] <= 'Z' then s[i] + 32 as char else s[i])
  }

  /** The settled side a market reports, if it reports one. */
  function Verdict(raw: Option<string>): Option<string> {
    var result := Lower(Strip(if raw.Some? then raw.value else ""));
    if result == "yes" || result == "no" then Some(result) else None
  }

  predicate Spaces(s: string, from: nat, to: nat)
    requires to <= |s|
  {
    forall k :: from <= k < to ==> IsSpace(s[k])
  }

  predicate Is(c: char, lower: char, upper: char) {
    c == lower || c == upper
  }

  /** The word at i, three letters in either case, with nothing but spaces around it. */
  predicate YesAt(raw: string, i: nat) {
    i + 3 <= |raw| && Spaces(raw, 0, i) && Spaces(raw, i + 3, |raw|)
    && Is(raw[i], 'y', 'Y') && Is(raw[i + 1], 'e', 'E') && Is(raw[i + 2], 's', 'S')
  }

  predicate NoAt(raw: string, i: nat) {
    i + 2 <= |raw| && Spaces(raw, 0, i) && Spaces(raw, i + 2, |raw|) && Is(raw[i], 'n', 'N') && Is(raw[i + 1], 'o', 'O')
  }

  /** The side a reported result says, if it says one. */
  function Said(raw: Option<string>): Option<string> {
    if raw.None? then None
    else if exists i :: 0 <= i < |raw.value| && YesAt(raw.value, i) then Some("yes")
    else if exists i :: 0 <= i < |raw.value| && NoAt(raw.value, i) then Some("no")
    else None
  }

  /** All but i to j is spaces, and what is left does not begin or end with one. */
  predicate Trimmed(s: string, i: nat, j: nat) {
    i <= j <= |s| && Spaces(s, 0, i) && Spaces(s, j, |s|) && (i < j ==> !IsSpace(s[i]) && !IsSpace(s[j - 1]))
  }

  lemma TrimmedFront(s: string, i: nat, j: nat)
    requires s != [] && IsSpace(s[0]) && Trimmed(s[1..], i, j)
    ensures Trimmed(s, i + 1, j + 1) && s[i + 1..j + 1] == s[1..][i..j]
  {
    assert forall k :: 1 <= k < |s| ==> s[k] == s[1..][k - 1];
  }

  lemma TrimmedBack(s: string, i: nat, j: nat)
    requires s != [] && IsSpace(s[|s| - 1]) && Trimmed(s[..|s| - 1], i, j)
    ensures Trimmed(s, i, j) && s[i..j] == s[..|s| - 1][i..j]
  {
    assert forall k :: 0 <= k < |s| - 1 ==> s[k] == s[..|s| - 1][k];
  }

  /** Stripping takes spaces off both ends and stops at something else. */
  lemma {:induction false} StripLeaves(s: string) returns (i: nat, j: nat)
    ensures Trimmed(s, i, j) && Strip(s) == s[i..j]
    decreases |s|
  {
    if s == [] {
      i, j := 0, 0;
    } else if IsSpace(s[0]) {
      i, j := StripLeaves(s[1..]);
      TrimmedFront(s, i, j);
      i, j := i + 1, j + 1;
    } else if IsSpace(s[|s| - 1]) {
      i, j := StripLeaves(s[..|s| - 1]);
      TrimmedBack(s, i, j);
    } else {
      i, j := 0, |s|;
      assert s[0..|s|] == s;
    }
  }

  /** A word without a space at either end is what stripping leaves of it, however many surround it. */
  lemma {:induction false} StripFinds(s: string, i: nat, j: nat)
    requires i < j <= |s| && Spaces(s, 0, i) && Spaces(s, j, |s|) && !IsSpace(s[i]) && !IsSpace(s[j - 1])
    ensures Strip(s) == s[i..j]
    decreases |s|
  {
    if i > 0 {
      var rest := s[1..];
      assert forall k :: 0 <= k < |rest| ==> rest[k] == s[k + 1];
      assert IsSpace(s[0]) && rest[i - 1..j - 1] == s[i..j];
      StripFinds(rest, i - 1, j - 1);
    } else if j < |s| {
      var rest := s[..|s| - 1];
      assert forall k :: 0 <= k < |rest| ==> rest[k] == s[k];
      assert IsSpace(s[|s| - 1]) && rest[i..j] == s[i..j];
      StripFinds(rest, i, j);
    } else {
      assert s[0..|s|] == s;
    }
  }

  lemma LowerReads(word: string)
    ensures Lower(word) == "yes" <==> |word| == 3 && Is(word[0], 'y', 'Y') && Is(word[1], 'e', 'E') && Is(word[2], 's', 'S')
    ensures Lower(word) == "no" <==> |word| == 2 && Is(word[0], 'n', 'N') && Is(word[1], 'o', 'O')
  {
    var low := Lower(word);
    if |word| == 3 {
      assert low == "yes" <==> low[0] == 'y' && low[1] == 'e' && low[2] == 's';
    }
    if |word| == 2 {
      assert low == "no" <==> low[0] == 'n' && low[1] == 'o';
    }
  }

  lemma YesIsRead(s: string, i: nat)
    requires YesAt(s, i)
    ensures Lower(Strip(s)) == "yes"
  {
    StripFinds(s, i, i + 3);
    LowerReads(s[i..i + 3]);
  }

  lemma NoIsRead(s: string, i: nat)
    requires NoAt(s, i)
    ensures Lower(Strip(s)) == "no"
  {
    StripFinds(s, i, i + 2);
    LowerReads(s[i..i + 2]);
  }

  lemma ReadIsSaid(s: string) returns (i: nat)
    ensures Lower(Strip(s)) == "yes" ==> i < |s| && YesAt(s, i)
    ensures Lower(Strip(s)) == "no" ==> i < |s| && NoAt(s, i)
  {
    var j;
    i, j := StripLeaves(s);
    LowerReads(s[i..j]);
    assert forall k :: i <= k < j ==> s[i..j][k - i] == s[k];
  }

  /** A market settles the side its result says, spelled in either case with spaces around it, and any other
      result, or none, settles nothing. */
  lemma VerdictIsWhatWasSaid(raw: Option<string>)
    ensures Verdict(raw) == Said(raw)
  {
    if raw.None? {
      assert Lower(Strip("")) == "";
    } else {
      var s := raw.value;
      var at := ReadIsSaid(s);
      if i :| 0 <= i < |s| && YesAt(s, i) {
        YesIsRead(s, i);
      } else if i :| 0 <= i < |s| && NoAt(s, i) {
        NoIsRead(s, i);
      }
    }
  }

  function VerdictsOf(results: map<string, Option<string>>): Verdicts {
    map t | t in results && Verdict(results[t]).Some? :: Verdict(results[t]).value
  }

  predicate YesOrNo(verdicts: Verdicts) {
    forall t :: t in verdicts ==> verdicts[t] == "yes" || verdicts[t] == "no"
  }

  /** UPDATE ... WHERE ticker = ? AND resolved = 0, and the rows it counts. */
  function UpdateTicker(t: Table, ticker: string, result: string, now: real): Table {
    map k | k in t ::
      if k.ticker == ticker && !t[k].resolved then Candidate(t[k].seen, true, Some(result), Some(now)) else t[k]
  }

  function UnresolvedOf(t: Table, ticker: string): set<Key> {
    set k | k in t && k.ticker == ticker && !t[k].resolved
  }

  /** The rows a scan of all unresolved rows would pick for these verdicts. */
  function Unsettled(t: Table, verdicts: Verdicts): set<Key> {
    set k | k in t && !t[k].resolved && k.ticker in verdicts
  }

  function SettleEvent(e: Event, verdicts: Verdicts, now: real): Event {
    if !e.resolved && e.ticker in verdicts
    then e.(resolved := true, result := Some(verdicts[e.ticker]), resolvedAt := Some(now))
    else e
  }

  function SettleEvents(events: seq<Event>, verdicts: Verdicts, now: real): seq<Event> {
    seq(|events|, i requires 0 <= i < |events| => SettleEvent(events[i], verdicts, now))
  }

  function SaidOf(results: map<string, Option<string>>, ticker: string): Option<string> {
    if ticker in results then Said(results[ticker]) else None
  }

  /** An unresolved row takes the side its market said, now; any other stays as it is. */
  predicate RowSettled(before: Candidate, after: Candidate, said: Option<string>, now: real) {
    after == if !before.resolved && said.Some? then Candidate(before.seen, true, said, Some(now)) else before
  }

  predicate EventSettled(before: Event, after: Event, said: Option<string>, now: real) {
    after == if !before.resolved && said.Some? then before.(resolved := true, result := said, resolvedAt := Some(now))
             else before
  }

  predicate TableSettled(before: Table, after: Table, results: map<string, Option<string>>, now: real) {
    after.Keys == before.Keys
    && forall k :: k in before ==> RowSettled(before[k], after[k], SaidOf(results, k.ticker), now)
  }

  predicate EventsSettled(before: seq<Event>, after: seq<Event>, results: map<string, Option<string>>, now: real) {
    |after| == |before|
    && forall i :: 0 <= i < |before| ==> EventSettled(before[i], after[i], SaidOf(results, before[i].ticker), now)
  }

  /** The rows a pass resolves: unresolved, of a market that said a side. */
  function Settleable(t: Table, results: map<string, Option<string>>): set<Key> {
    set k | k in t && !t[k].resolved && SaidOf(results, k.ticker).Some?
  }

  lemma VerdictsAreSaid(results: map<string, Option<string>>)
    ensures forall t :: t in VerdictsOf(results) <==> SaidOf(results, t).Some?
    ensures forall t :: t in VerdictsOf(results) ==> Some(VerdictsOf(results)[t]) == SaidOf(results, t)
  {
    forall t | t in results
      ensures Verdict(results[t]) == Said(results[t])
    {
      VerdictIsWhatWasSaid(results[t]);
    }
  }

  /** Settling by the verdicts is settling every row and event by what its market said. */
  lemma SettledAsSaid(t: Table, events: seq<Event>, results: map<string, Option<string>>, now: real)
    ensures TableSettled(t, Settle(t, VerdictsOf(results), now), results, now)
    ensures EventsSettled(events, SettleEvents(events, VerdictsOf(results), now), results, now)
    ensures Unsettled(t, VerdictsOf(results)) == Settleable(t, results)
  {
    VerdictsAreSaid(results);
  }

  /** The parameter list of the batched statement, as the verdicts it carries. */
  function Listed(list: seq<(string, string)>): Verdicts {
    if list == [] then map[] else Listed(list[..|list| - 1])[list[|list| - 1].0 := list[|list| - 1].1]
  }

  lemma UpdateExtends(t: Table, verdicts: Verdicts, ticker: string, result: string, now: real)
    requires ticker !in verdicts
    ensures UpdateTicker(Settle(t, verdicts, now), ticker, result, now) == Settle(t, verdicts[ticker := result], now)
  {
  }

  lemma CountExtends(t: Table, verdicts: Verdicts, ticker: string, result: string, now: real)
    requires ticker !in verdicts
    ensures |Unsettled(t, verdicts[ticker := result])|
            == |Unsettled(t, verdicts)| + |UnresolvedOf(Settle(t, verdicts, now), ticker)|
  {
    assert Unsettled(t, verdicts[ticker := result])
        == Unsettled(t, verdicts) + UnresolvedOf(Settle(t, verdicts, now), ticker);
    assert Unsettled(t, verdicts) !! UnresolvedOf(Settle(t, verdicts, now), ticker);
  }

  lemma EventsExtend(events: seq<Event>, verdicts: Verdicts, ticker: string, result: string, now: real)
    requires ticker !in verdicts
    ensures SettleEvents(SettleEvents(events, verdicts, now), map[ticker := result], now)
            == SettleEvents(events, verdicts[ticker := result], now)
  {
  }

  lemma SettleNothing(t: Table, events: seq<Event>, now: real)
    ensures Settle(t, map[], now) == t && SettleEvents(events, map[], now) == events
    ensures Unsettled(t, map[]) == {}
  {
  }

  predicate EachTickerOnce(list: seq<(string, string)>) {
    forall i :: 0 <= i < |list| ==> list[i].0 !in Listed(list[..i])
  }

  class Log {
    const writer: Writer
    var events: seq<Event>

    constructor (writer: Writer, events: seq<Event>)
      ensures this.writer == writer && this.events == events
    {
      this.writer := writer;
      this.events := events;
    }

    /** The batched UPDATE of rejected_candidates and its row count. */
    method UpdateCandidates(list: seq<(string, string)>, now: real) returns (count: nat)
      requires EachTickerOnce(list)
      modifies writer`table
      ensures writer.table == Settle(old(writer.table), Listed(list), now)
      ensures count == |Unsettled(old(writer.table), Listed(list))|
    {
      count := 0;
      ghost var before := writer.table;
      SettleNothing(before, [], now);
      var i := 0;
      while i < |list|
        invariant 0 <= i <= |list|
        invariant writer.table == Settle(before, Listed(list[..i]), now)
        invariant count == |Unsettled(before, Listed(list[..i]))|
      {
        assert list[..i + 1][..i] == list[..i];
        UpdateExtends(before, Listed(list[..i]), list[i].0, list[i].1, now);
        CountExtends(before, Listed(list[..i]), list[i].0, list[i].1, now);
        count := count + |UnresolvedOf(writer.table, list[i].0)|;
        writer.table := UpdateTicker(writer.table, list[i].0, list[i].1, now);
        i := i + 1;
      }
      assert list[..i] == list;
    }

    /** The batched UPDATE of rejection_events. */
    method UpdateEvents(list: seq<(string, string)>, now: real)
      requires EachTickerOnce(list)
      modifies `events
      ensures events == SettleEvents(old(events), Listed(list), now)
    {
      SettleNothing(map[], events, now);
      var i := 0;
      while i < |list|
        invariant 0 <= i <= |list|
        invariant events == SettleEvents(old(events), Listed(list[..i]), now)
      {
        assert list[..i + 1][..i] == list[..i];
        EventsExtend(old(events), Listed(list[..i]), list[i].0, list[i].1, now);
        events := SettleEvents(events, map[list[i].0 := list[i].1], now);
        i := i + 1;
      }
      assert list[..i] == list;
    }

    /** One whole settlement pass by the given thread. The per-ticker UPDATEs give the two tables
        that scanning every unresolved row would give, and count exactly the rows that scan finds. */
    method ResolveFromMarketResults(results: map<string, Option<string>>, now: real, ghost thread: nat, flush: Outcome)
      returns (count: nat)
      requires Enabled(writer.Model(), Take(thread))
      modifies this, writer
      ensures var flushed := if old(writer.buffer) == [] then old(writer.Model())
                             else Apply(Apply(old(writer.Model()), Take(thread)), Finish(thread, flush));
              && writer.Model() == Apply(flushed, Resolve(VerdictsOf(results), now))
              && TableSettled(flushed.table, writer.table, results, now)
              && count == |Settleable(flushed.table, results)|
      ensures EventsSettled(old(events), events, results, now)
    {
      writer.FlushStore(thread, flush);
      SettledAsSaid(writer.table, events, results, now);
      var toResolve := ToResolve(results);
      count := UpdateCandidates(toResolve, now);
      UpdateEvents(toResolve, now);
    }
  }

  function Seen(results: map<string, Option<string>>, todo: set<string>): map<string, Option<string>> {
    map t | t in results && t !in todo :: results[t]
  }

  lemma SeenStep(results: map<string, Option<string>>, todo: set<string>, ticker: string)
    requires ticker in todo && todo <= results.Keys
    ensures VerdictsOf(Seen(results, todo - {ticker}))
            == if Verdict(results[ticker]).Some?
               then VerdictsOf(Seen(results, todo))[ticker := Verdict(results[ticker]).value]
               else VerdictsOf(Seen(results, todo))
    ensures ticker !in VerdictsOf(Seen(results, todo))
  {
  }

  lemma ListedAppend(list: seq<(string, string)>, entry: (string, string))
    requires EachTickerOnce(list) && entry.0 !in Listed(list)
    ensures EachTickerOnce(list + [entry]) && Listed(list + [entry]) == Listed(list)[entry.0 := entry.1]
  {
    var longer := list + [entry];
    assert longer[..|longer| - 1] == list;
    forall i | 0 <= i < |longer|
      ensures longer[i].0 !in Listed(longer[..i])
    {
      if i < |list| {
        assert longer[..i] == list[..i];
      }
    }
  }

  /** The loop that keeps only settled markets, in whatever order the dict yields them. */
  method ToResolve(results: map<string, Option<string>>) returns (list: seq<(string, string)>)
    ensures Listed(list) == VerdictsOf(results) && EachTickerOnce(list)
    ensures forall t :: t in Listed(list) <==> SaidOf(results, t).Some?
    ensures forall t :: t in Listed(list) ==> Some(Listed(list)[t]) == SaidOf(results, t)
  {
    VerdictsAreSaid(results);
    list := [];
    var todo := results.Keys;
    while todo != {}
      invariant todo <= results.Keys
      invariant Listed(list) == VerdictsOf(Seen(results, todo)) && EachTickerOnce(list)
      decreases todo
    {
      var ticker :| ticker in todo;
      SeenStep(results, todo, ticker);
      var verdict := Verdict(results[ticker]);
      if verdict.Some? {
        ListedAppend(list, (ticker, verdict.value));
        list := list + [(ticker, verdict.value)];
      }
      todo := todo - {ticker};
    }
    assert Seen(results, todo) == results;
  }

  /** rejected_candidates and rejection_events together. */
  datatype Both = Both(candidates: Table, events: seq<Event>)

  function SettleBoth(b: Both, verdicts: Verdicts, now: real): Both {
    Both(Settle(b.candidates, verdicts, now), SettleEvents(b.events, verdicts, now))
  }

  /** One settlement call per ticker, in the order given. */
  function SettleEach(b: Both, order: seq<string>, verdicts: Verdicts, now: real): Both
    requires forall ticker :: ticker in order ==> ticker in verdicts
    decreases |order|
  {
    if order == [] then b
    else
      assert order[0] in order;
      SettleEach(SettleBoth(b, map[order[0] := verdicts[order[0]]], now), order[1..], verdicts, now)
  }

  /** What those calls return, in all. */
  function CountEach(b: Both, order: seq<string>, verdicts: Verdicts, now: real): nat
    requires forall ticker :: ticker in order ==> ticker in verdicts
    decreases |order|
  {
    if order == [] then 0
    else
      assert order[0] in order;
      var single := map[order[0] := verdicts[order[0]]];
      |Unsettled(b.candidates, single)| + CountEach(SettleBoth(b, single, now), order[1..], verdicts, now)
  }

  function Named(order: seq<string>, verdicts: Verdicts): Verdicts {
    map t | t in verdicts && t in order :: verdicts[t]
  }

  /** Settling one ticker and then a list is settling the list with that ticker's verdict put first. */
  lemma SingleThenRest(b: Both, ticker: string, result: string, rest: Verdicts, now: real)
    ensures var single := map[ticker := result];
            && SettleBoth(SettleBoth(b, single, now), rest, now) == SettleBoth(b, rest[ticker := result], now)
            && |Unsettled(b.candidates, rest[ticker := result])|
               == |Unsettled(b.candidates, single)| + |Unsettled(Settle(b.candidates, single, now), rest)|
  {
    CandidatesThenRest(b.candidates, ticker, result, rest, now);
    EventsThenRest(b.events, ticker, result, rest, now);
  }

  lemma CandidatesThenRest(t: Table, ticker: string, result: string, rest: Verdicts, now: real)
    ensures var single := map[ticker := result];
            && Settle(Settle(t, single, now), rest, now) == Settle(t, rest[ticker := result], now)
            && |Unsettled(t, rest[ticker := result])|
               == |Unsettled(t, single)| + |Unsettled(Settle(t, single, now), rest)|
  {
    var single := map[ticker := result];
    assert Unsettled(t, rest[ticker := result]) == Unsettled(t, single) + Unsettled(Settle(t, single, now), rest);
    assert Unsettled(t, single) !! Unsettled(Settle(t, single, now), rest);
  }

  lemma EventsThenRest(events: seq<Event>, ticker: string, result: string, rest: Verdicts, now: real)
    ensures SettleEvents(SettleEvents(events, map[ticker := result], now), rest, now)
            == SettleEvents(events, rest[ticker := result], now)
  {
  }

  /** One call per settled ticker, in any order and with any repeats, leaves both tables and the total
      count of one batched call. */
  lemma {:induction false} OneCallPerTicker(b: Both, order: seq<string>, verdicts: Verdicts, now: real)
    requires forall ticker :: ticker in order ==> ticker in verdicts
    ensures SettleEach(b, order, verdicts, now) == SettleBoth(b, Named(order, verdicts), now)
    ensures CountEach(b, order, verdicts, now) == |Unsettled(b.candidates, Named(order, verdicts))|
    decreases |order|
  {
    if order == [] {
      assert Named(order, verdicts) == map[];
      SettleNothing(b.candidates, b.events, now);
    } else {
      var rest := order[1..];
      assert order[0] in order && forall ticker :: ticker in rest ==> ticker in order;
      SingleThenRest(b, order[0], verdicts[order[0]], Named(rest, verdicts), now);
      assert Named(order, verdicts) == Named(rest, verdicts)[order[0] := verdicts[order[0]]];
      OneCallPerTicker(SettleBoth(b, map[order[0] := verdicts[order[0]]], now), rest, verdicts, now);
    }
  }

  /** A repeat of a settlement pass, at any later time and with any verdicts for the same tickers,
      resolves no row and changes neither table. */
  lemma RepeatResolvesNothing(b: Both, first: Verdicts, again: Verdicts, now: real, later: real)
    requires again.Keys <= first.Keys
    ensures Unsettled(Settle(b.candidates, first, now), again) == {}
    ensures SettleBoth(SettleBoth(b, first, now), again, later) == SettleBoth(b, first, now)
  {
    assert SettleEvents(SettleEvents(b.events, first, now), again, later) == SettleEvents(b.events, first, now);
  }

  // ---- Per-gate counts ----

  /** What every reachable rejected_candidates row satisfies. */
  predicate WellFormed(t: Table) {
    forall k :: k in t ==>
      && (t[k].resolved <==> t[k].result == Some("yes") || t[k].result == Some("no"))
      && (t[k].resolved <==> t[k].resolvedAt.Some?)
  }

  lemma {:induction false} UpsertsKeepWellFormed(t: Table, rows: seq<Row>)
    requires WellFormed(t)
    ensures WellFormed(UpsertAll(t, rows))
    decreases |rows|
  {
    if rows != [] {
      UpsertsKeepWellFormed(Upsert(t, rows[0]), rows[1..]);
    }
  }

  /** Every run of submissions, flushes and settlement passes keeps the table well formed. */
  lemma {:induction false} RunKeepsWellFormed(s: State, steps: seq<Step>)
    requires WellFormed(s.table) && Runnable(s, steps)
    requires forall step :: step in steps && step.Resolve? ==> YesOrNo(step.verdicts)
    ensures WellFormed(Run(s, steps).table)
    decreases |steps|
  {
    if steps != [] {
      assert steps[0] in steps;
      if steps[0].Finish? {
        UpsertsKeepWellFormed(s.table, s.inFlight[steps[0].thread]);
      }
      RunKeepsWellFormed(Apply(s, steps[0]), steps[1..]);
    }
  }

  function GateRows(t: Table, strategy: string, gate: string): set<Key> {
    set k | k in t && k.strategy == strategy && k.gate == gate
  }

  function ResolvedRows(t: Table, strategy: string, gate: string): set<Key> {
    set k | k in GateRows(t, strategy, gate) && t[k].resolved
  }

  function ResultRows(t: Table, strategy: string, gate: string, result: string): set<Key> {
    set k | k in ResolvedRows(t, strategy, gate) && t[k].result == Some(result)
  }

  function SidedRows(t: Table, strategy: string, gate: string): set<Key> {
    set k | k in ResolvedRows(t, strategy, gate) && t[k].seen.side in {Some("yes"), Some("no")}
  }

  function SidedWins(t: Table, strategy: string, gate: string): set<Key> {
    set k | k in SidedRows(t, strategy, gate) && t[k].result == t[k].seen.side
  }

  lemma SubsetSize<T>(a: set<T>, b: set<T>)
    requires a <= b
    ensures |a| <= |b|
  {
    assert b == a + (b - a);
  }

  /** In every reachable table each gate's counts fit together. */
  lemma GateCountsFit(t: Table, strategy: string, gate: string)
    requires WellFormed(t)
    ensures |ResultRows(t, strategy, gate, "yes")| + |ResultRows(t, strategy, gate, "no")|
            == |ResolvedRows(t, strategy, gate)|
    ensures |SidedWins(t, strategy, gate)| <= |SidedRows(t, strategy, gate)|
            <= |ResolvedRows(t, strategy, gate)| <= |GateRows(t, strategy, gate)|
  {
    var yes := ResultRows(t, strategy, gate, "yes");
    var no := ResultRows(t, strategy, gate, "no");
    assert "yes" != "no" by {
      assert |"yes"| != |"no"|;
    }
    assert yes !! no && yes + no == ResolvedRows(t, strategy, gate);
    SubsetSize(SidedWins(t, strategy, gate), SidedRows(t, strategy, gate));
    SubsetSize(SidedRows(t, strategy, gate), ResolvedRows(t, strategy, gate));
    SubsetSize(ResolvedRows(t, strategy, gate), GateRows(t, strategy, gate));
  }

  /** What each count counts, row by row: a row of the gate; one with an outcome; of those, one of a known side; and
      of those, one whose side the market took. */
  lemma GateCountsRowByRow(t: Table, strategy: string, gate: string, k: Key, side: string)
    ensures k in GateRows(t, strategy, gate) <==> k in t && (k.strategy, k.gate) == (strategy, gate)
    ensures k in ResolvedRows(t, strategy, gate) <==> k in GateRows(t, strategy, gate) && t[k].resolved
    ensures k in ResolvedRows(t, strategy, gate) && t[k].seen.side == Some(side) && (side == "yes" || side == "no") ==>
              k in SidedRows(t, strategy, gate) && (k in SidedWins(t, strategy, gate) <==> t[k].result == Some(side))
    ensures k in SidedRows(t, strategy, gate) ==>
              k in ResolvedRows(t, strategy, gate) && (t[k].seen.side == Some("yes") || t[k].seen.side == Some("no"))
    ensures k in SidedWins(t, strategy, gate) ==> k in SidedRows(t, strategy, gate)
  {
  }

  // ---- Unit-cost bands ----

  datatype Band = Band(low: real, high: real)

  predicate Within(x: real, band: Band) {
    band.low <= x < band.high
  }

  predicate DisjointAscending(bands: seq<Band>) {
    && (forall i :: 0 <= i < |bands| ==> bands[i].low < bands[i].high)
    && (forall i, j :: 0 <= i < j < |bands| ==> bands[i].high <= bands[j].low)
  }

  /** The validation loop compares each band with the one before it only, and accepts exactly the
      lists whose bands are non-empty, ascending and disjoint as a whole. */
  method ValidateBands(bands: seq<Band>) returns (ok: bool)
    ensures ok <==> DisjointAscending(bands)
  {
    var prevHigh: Option<real> := None;
    var i := 0;
    while i < |bands|
      invariant 0 <= i <= |bands|
      invariant DisjointAscending(bands[..i])
      invariant prevHigh == if i == 0 then None else Some(bands[i - 1].high)
    {
      if !(bands[i].low < bands[i].high) {
        return false;
      }
      if prevHigh.Some? && bands[i].low < prevHigh.value {
        assert bands[i - 1].high > bands[i].low;
        return false;
      }
      forall j | 0 <= j < i
        ensures bands[j].high <= bands[i].low
      {
        assert bands[..i][j].high <= bands[..i][i - 1].high || j == i - 1;
      }
      prevHigh := Some(bands[i].high);
      i := i + 1;
    }
    assert bands[..i] == bands;
    return true;
  }

  /** The CASE expression: the first band that matches, or |bands| for 'out_of_range'. */
  function BandOf(bands: seq<Band>, x: real): (b: nat)
    ensures b <= |bands|
  {
    if bands == [] || Within(x, bands[0]) then 0 else 1 + BandOf(bands[1..], x)
  }

  /** For an accepted list the first match is the only one, and 'out_of_range' means no band at all. */
  lemma BandIsUnique(bands: seq<Band>, x: real, b: nat)
    requires DisjointAscending(bands) && b < |bands|
    ensures BandOf(bands, x) == b <==> bands[b].low <= x < bands[b].high
  {
    if b > 0 {
      assert bands[1..][b - 1] == bands[b];
      assert bands[0].high <= bands[b].low;
      BandIsUnique(bands[1..], x, b - 1);
    }
  }

  function InBand(bands: seq<Band>, costs: seq<real>, b: nat): nat {
    if costs == [] then 0 else (if BandOf(bands, costs[0]) == b then 1 else 0) + InBand(bands, costs[1..], b)
  }

  function InBandsBelow(bands: seq<Band>, costs: seq<real>, b: nat): nat {
    if b == 0 then 0 else InBandsBelow(bands, costs, b - 1) + InBand(bands, costs, b - 1)
  }

  lemma {:induction false} BelowCons(bands: seq<Band>, costs: seq<real>, b: nat)
    requires costs != []
    ensures InBandsBelow(bands, costs, b)
            == (if BandOf(bands, costs[0]) < b then 1 else 0) + InBandsBelow(bands, costs[1..], b)
  {
    if b > 0 {
      BelowCons(bands, costs, b - 1);
    }
  }

  /** Every row with a cost is counted in exactly one group: the bands and 'out_of_range' sum to all of them. */
  lemma {:induction false} BandsPartition(bands: seq<Band>, costs: seq<real>)
    ensures InBandsBelow(bands, costs, |bands|) + InBand(bands, costs, |bands|) == |costs|
  {
    if costs == [] {
      NoCosts(bands, |bands|);
    } else {
      BelowCons(bands, costs, |bands|);
      BandsPartition(bands, costs[1..]);
    }
  }

  lemma {:induction false} NoCosts(bands: seq<Band>, b: nat)
    ensures InBandsBelow(bands, [], b) == 0
  {
    if b > 0 {
      NoCosts(bands, b - 1);
    }
  }
}
