/**
  services/candidate_retry.py: trades whose market lookup failed, retried on a
  bounded backoff. run_pending is the only remover; enqueues may come in at every
  await inside it.
*/
module RetryQueue {
  import opened Wrappers
  import opened MapSums
  import CandidateLedger

  const BACKOFF_SCHEDULE_SEC: seq<real> := [0.5, 1.0, 2.0, 4.0, 8.0, 16.0, 30.0, 30.0]

  /** The first k waits of the schedule. */
  function Waited(k: nat): real
    requires k <= 8
  {
    if k == 0 then 0.0 else Waited(k - 1) + BACKOFF_SCHEDULE_SEC[k - 1]
  }

  /** One queued trade. enqueuedAt is when it was accepted. */
  datatype Entry = Entry(attempts: nat, nextAt: real, enqueuedAt: real)

  datatype Abandonment = Abandonment(id: string, lookups: nat, enqueuedAt: real, at: real)

  /** accepted, recovered and abandoned record, in order, what happened to each accepted trade. */
  datatype State = State(
    pending: map<string, Entry>, accepted: seq<string>, recovered: seq<string>, abandoned: seq<Abandonment>,
    lookups: nat)

  /** An enqueue (trade_id may be missing), or one market lookup of a due trade that missed or hit. */
  datatype Event = Enqueue(tradeId: Option<string>, now: real) | Miss(id: string, now: real) | Hit(id: string, now: real)

  predicate Enabled(s: State, e: Event) {
    e.Enqueue? || (e.id in s.pending && e.now >= s.pending[e.id].nextAt && s.pending[e.id].attempts < 8)
  }

  predicate Accepts(s: State, tradeId: Option<string>) {
    tradeId.Some? && tradeId.value != "" && tradeId.value !in s.pending
  }

  function Apply(s: State, e: Event): State
    requires Enabled(s, e)
  {
    match e
    case Enqueue(tradeId, now) =>
      if Accepts(s, tradeId)
      then s.(pending := s.pending[tradeId.value := Entry(0, now + BACKOFF_SCHEDULE_SEC[0], now)],
              accepted := s.accepted + [tradeId.value])
      else s
    case Hit(id, _) => s.(pending := s.pending - {id}, recovered := s.recovered + [id], lookups := s.lookups + 1)
    case Miss(id, now) =>
      var entry := s.pending[id];
      if entry.attempts + 1 >= |BACKOFF_SCHEDULE_SEC|
      then s.(pending := s.pending - {id}, lookups := s.lookups + 1,
              abandoned := s.abandoned + [Abandonment(id, entry.attempts + 1, entry.enqueuedAt, now)])
      else s.(pending := s.pending[id := Entry(entry.attempts + 1, now + BACKOFF_SCHEDULE_SEC[entry.attempts + 1],
                                               entry.enqueuedAt)],
              lookups := s.lookups + 1)
  }

  predicate Runnable(s: State, events: seq<Event>)
    decreases |events|
  {
    events == [] || (Enabled(s, events[0]) && Runnable(Apply(s, events[0]), events[1..]))
  }

  function Run(s: State, events: seq<Event>): State
    requires Runnable(s, events)
    decreases |events|
  {
    if events == [] then s else Run(Apply(s, events[0]), events[1..])
  }

  // ---- Every accepted trade is somewhere ----

  function AbandonedCopies(abandoned: seq<Abandonment>, id: string): nat {
    if abandoned == [] then 0
    else AbandonedCopies(abandoned[..|abandoned| - 1], id) + if abandoned[|abandoned| - 1].id == id then 1 else 0
  }

  function Copies(s: State, id: string): nat {
    (if id in s.pending then 1 else 0) + multiset(s.recovered)[id] + AbandonedCopies(s.abandoned, id)
  }

  lemma StepAccounts(s: State, e: Event, id: string)
    requires Enabled(s, e)
    ensures Copies(Apply(s, e), id) + multiset(s.accepted)[id] == Copies(s, id) + multiset(Apply(s, e).accepted)[id]
  {
    var after := Apply(s, e);
    if e.Miss? && |after.abandoned| > |s.abandoned| {
      assert after.abandoned[..|s.abandoned|] == s.abandoned;
    }
  }

  /** Every accepted enqueue is in exactly one of pending, recovered or abandoned, wherever enqueues
      interleave. */
  lemma {:induction false} NoTradeLost(s: State, events: seq<Event>, id: string)
    requires Runnable(s, events) && Copies(s, id) == multiset(s.accepted)[id]
    ensures Copies(Run(s, events), id) == multiset(Run(s, events).accepted)[id]
    decreases |events|
  {
    if events != [] {
      StepAccounts(s, events[0], id);
      NoTradeLost(Apply(s, events[0]), events[1..], id);
    }
  }

  // ---- The retry budget ----

  /** Each entry has lookups left, and its next one is not due before the schedule so far has passed. */
  predicate OnSchedule(s: State) {
    && (forall id :: id in s.pending ==>
          && s.pending[id].attempts < 8
          && s.pending[id].nextAt >= s.pending[id].enqueuedAt + Waited(s.pending[id].attempts + 1))
    && (forall i :: 0 <= i < |s.abandoned| ==>
          s.abandoned[i].lookups == 8 && s.abandoned[i].at >= s.abandoned[i].enqueuedAt + Waited(8))
  }

  lemma StepOnSchedule(s: State, e: Event)
    requires Enabled(s, e) && OnSchedule(s)
    ensures OnSchedule(Apply(s, e))
  {
  }

  /** Each step in full: an accepted enqueue is due half a second later; a miss before the eighth is due again after
      exactly its wait, counted from the moment of the miss, and the eighth abandons it then and there; a hit takes
      it out; and no other trade moves. */
  lemma StepsInFull(s: State, e: Event)
    requires Enabled(s, e)
    ensures var after := Apply(s, e);
            match e
            case Enqueue(tradeId, now) =>
              if tradeId == None || tradeId == Some("") || tradeId.value in s.pending then after == s
              else after == s.(pending := s.pending[tradeId.value := Entry(0, now + 0.5, now)],
                               accepted := s.accepted + [tradeId.value])
            case Hit(id, _) =>
              after == s.(pending := s.pending - {id}, recovered := s.recovered + [id], lookups := s.lookups + 1)
            case Miss(id, now) =>
              var n := s.pending[id].attempts + 1;
              if n == 8
              then after == s.(pending := s.pending - {id}, lookups := s.lookups + 1,
                               abandoned := s.abandoned + [Abandonment(id, 8, s.pending[id].enqueuedAt, now)])
              else
                var wait := if n == 1 then 1.0 else if n == 2 then 2.0 else if n == 3 then 4.0 else if n == 4 then 8.0
                            else if n == 5 then 16.0 else 30.0;
                after == s.(pending := s.pending[id := Entry(n, now + wait, s.pending[id].enqueuedAt)],
                            lookups := s.lookups + 1)
  {
  }

  /** A trade is abandoned only after eight lookups and no earlier than 91.5 seconds after it was queued,
      whatever clock readings the runs use. */
  lemma AbandonedOnlyAfterBudget(s: State, events: seq<Event>)
    requires Runnable(s, events) && OnSchedule(s)
    ensures forall i :: 0 <= i < |Run(s, events).abandoned| ==>
              var a := Run(s, events).abandoned[i];
              a.lookups == 8 && a.at >= a.enqueuedAt + 91.5
  {
    RunOnSchedule(s, events);
    BudgetInSeconds();
  }

  lemma BudgetInSeconds()
    ensures Waited(8) == 91.5
  {
    assert Waited(4) == 7.5;
  }

  lemma {:induction false} RunOnSchedule(s: State, events: seq<Event>)
    requires Runnable(s, events) && OnSchedule(s)
    ensures OnSchedule(Run(s, events))
    decreases |events|
  {
    if events != [] {
      StepOnSchedule(s, events[0]);
      RunOnSchedule(Apply(s, events[0]), events[1..]);
    }
  }

  function MissesOf(events: seq<Event>, id: string): nat {
    if events == [] then 0 else (if events[0].Miss? && events[0].id == id then 1 else 0) + MissesOf(events[1..], id)
  }

  /** A queued trade whose lookups all miss is still queued after fewer than eight of them, with its
      schedule at the next step however often it is enqueued again, and is abandoned by the eighth. */
  lemma {:induction false} AlwaysMissing(s: State, events: seq<Event>, id: string)
    requires Runnable(s, events) && id in s.pending && s.pending[id].attempts + MissesOf(events, id) <= 8
    requires forall i :: 0 <= i < |events| ==> events[i] != Hit(id, events[i].now)
    requires s.pending[id].attempts + MissesOf(events, id) == 8 ==> events != [] && events[|events| - 1] == Miss(id, events[|events| - 1].now)
    ensures var n := s.pending[id].attempts + MissesOf(events, id);
            if n < 8
            then id in Run(s, events).pending && Run(s, events).pending[id].attempts == n
                 && Run(s, events).pending[id].enqueuedAt == s.pending[id].enqueuedAt
            else id !in Run(s, events).pending && Run(s, events).abandoned != []
                 && Run(s, events).abandoned[|Run(s, events).abandoned| - 1].id == id
    decreases |events|
  {
    if events != [] {
      var next := Apply(s, events[0]);
      if id in next.pending {
        AlwaysMissing(next, events[1..], id);
      } else {
        NoMoreMisses(events, id);
      }
    }
  }

  lemma NoMoreMisses(events: seq<Event>, id: string)
    requires events != [] && MissesOf(events, id) == 1 && events[0].Miss? && events[0].id == id
    requires events[|events| - 1].Miss? && events[|events| - 1].id == id
    ensures |events| == 1
  {
    if |events| > 1 {
      LastMissCounts(events[1..], id);
    }
  }

  lemma {:induction false} LastMissCounts(events: seq<Event>, id: string)
    requires events != [] && events[|events| - 1].Miss? && events[|events| - 1].id == id
    ensures MissesOf(events, id) >= 1
  {
    if |events| > 1 {
      LastMissCounts(events[1..], id);
    }
  }

  /** Lookups still allowed to the queued trades. */
  ghost function Budget(s: State): real {
    Sum(map id | id in s.pending :: (8 - s.pending[id].attempts) as real)
  }

  ghost function Remaining(pending: map<string, Entry>): map<string, real> {
    map id | id in pending :: (8 - pending[id].attempts) as real
  }

  lemma StepSpends(s: State, e: Event)
    requires Enabled(s, e)
    ensures var after := Apply(s, e);
            Budget(after) + (after.lookups - s.lookups) as real
            <= Budget(s) + 8.0 * (|after.accepted| - |s.accepted|) as real
    ensures e.Miss? ==> Budget(Apply(s, e)) == Budget(s) - 1.0
  {
    var after := Apply(s, e);
    match e
    case Enqueue(tradeId, now) =>
      if Accepts(s, tradeId) {
        SumUpdate(Remaining(s.pending), tradeId.value, 8.0);
        assert Remaining(after.pending) == Remaining(s.pending)[tradeId.value := 8.0];
      }
    case Hit(id, _) =>
      SumRemove(Remaining(s.pending), id);
      assert Remaining(after.pending) == Remaining(s.pending) - {id};
    case Miss(id, now) =>
      var left := (8 - s.pending[id].attempts) as real;
      if s.pending[id].attempts + 1 >= 8 {
        SumRemove(Remaining(s.pending), id);
        assert Remaining(after.pending) == Remaining(s.pending) - {id};
      } else {
        SumUpdate(Remaining(s.pending), id, left - 1.0);
        assert Remaining(after.pending) == Remaining(s.pending)[id := left - 1.0];
      }
  }

  /** Retrying terminates: the lookups ever made are at most the budget at the start plus eight for each
      accepted enqueue, less what is still allowed. */
  lemma {:induction false} LookupsBounded(s: State, events: seq<Event>)
    requires Runnable(s, events)
    ensures var after := Run(s, events);
            Budget(after) + (after.lookups - s.lookups) as real
            <= Budget(s) + 8.0 * (|after.accepted| - |s.accepted|) as real
    decreases |events|
  {
    if events != [] {
      StepSpends(s, events[0]);
      LookupsBounded(Apply(s, events[0]), events[1..]);
    }
  }

  lemma {:induction false} RunAppend(s: State, events: seq<Event>, e: Event)
    requires Runnable(s, events) && Enabled(Run(s, events), e)
    ensures Runnable(s, events + [e]) && Run(s, events + [e]) == Apply(Run(s, events), e)
    decreases |events|
  {
    if events == [] {
      assert [e][1..] == [];
    } else {
      assert (events + [e])[1..] == events[1..] + [e];
      RunAppend(Apply(s, events[0]), events[1..], e);
    }
  }

  function LookupsOf(events: seq<Event>, id: string): nat {
    if events == [] then 0
    else
      var last := events[|events| - 1];
      LookupsOf(events[..|events| - 1], id) + if !last.Enqueue? && last.id == id then 1 else 0
  }

  lemma LookupsSnoc(events: seq<Event>, e: Event, id: string)
    ensures LookupsOf(events + [e], id) == LookupsOf(events, id) + if !e.Enqueue? && e.id == id then 1 else 0
  {
    assert (events + [e])[..|events|] == events;
  }

  /** One enqueue that arrives while run_pending is awaiting something. */
  datatype Arrival = Arrival(tradeId: Option<string>, now: real)

  /** What the world does during the awaits for one due trade: whether its market is found, what is
      enqueued meanwhile, which trade_ids the provider scores into signals, and whether scoring or
      handling raises after those. */
  datatype Await = Await(
    found: bool, duringLookup: seq<Arrival>, duringHandling: seq<Arrival>, signals: seq<string>, raises: bool)

  class Queue {
    var pending: map<string, Entry>
    var windowRetried: nat
    var windowRecovered: nat
    var windowAbandoned: nat
    const ledger: CandidateLedger.Ledger
    ghost var accepted: seq<string>
    ghost var recovered: seq<string>
    ghost var abandoned: seq<Abandonment>
    ghost var lookups: nat

    ghost function Model(): State
      reads this
    {
      State(pending, accepted, recovered, abandoned, lookups)
    }

    constructor (ledger: CandidateLedger.Ledger)
      ensures this.ledger == ledger
      ensures Model() == State(map[], [], [], [], 0) && OnSchedule(Model())
      ensures windowRetried == windowRecovered == windowAbandoned == 0
    {
      this.ledger := ledger;
      pending := map[];
      windowRetried, windowRecovered, windowAbandoned := 0, 0, 0;
      accepted, recovered, abandoned, lookups := [], [], [], 0;
    }

    method Enqueue(tradeId: Option<string>, now: real)
      modifies `pending, `accepted
      ensures Model() == Apply(old(Model()), Event.Enqueue(tradeId, now))
    {
      if tradeId == None || tradeId.value == "" || tradeId.value in pending {
        return;
      }
      pending := pending[tradeId.value := Entry(0, now + BACKOFF_SCHEDULE_SEC[0], now)];
      accepted := accepted + [tradeId.value];
    }

    /** The enqueues of one await, none of which disturbs a trade already queued. */
    method EnqueueAll(arrivals: seq<Arrival>, ghost start: State, ghost events: seq<Event>)
      returns (ghost longer: seq<Event>)
      requires Reached(start, events, Model())
      modifies `pending, `accepted
      ensures Reached(start, longer, Model())
      ensures forall id :: id in old(pending) ==> id in pending && pending[id] == old(pending)[id]
      ensures SameLookups(events, longer)
    {
      longer := events;
      var i := 0;
      while i < |arrivals|
        invariant 0 <= i <= |arrivals|
        invariant unchanged(`recovered, `abandoned, `lookups, `windowRetried, `windowRecovered, `windowAbandoned)
        invariant Reached(start, longer, Model())
        invariant forall id :: id in old(pending) ==> id in pending && pending[id] == old(pending)[id]
        invariant SameLookups(events, longer)
      {
        longer := EnqueueOne(arrivals[i], start, longer);
        i := i + 1;
      }
    }

    method EnqueueOne(arrival: Arrival, ghost start: State, ghost events: seq<Event>) returns (ghost longer: seq<Event>)
      requires Reached(start, events, Model())
      modifies `pending, `accepted
      ensures Reached(start, longer, Model())
      ensures forall id :: id in old(pending) ==> id in pending && pending[id] == old(pending)[id]
      ensures SameLookups(events, longer)
    {
      ghost var e := Event.Enqueue(arrival.tradeId, arrival.now);
      RunAppend(start, events, e);
      EnqueueIsNoLookup(events, e);
      StepOnSchedule(Model(), e);
      Enqueue(arrival.tradeId, arrival.now);
      longer := events + [e];
    }

    /** handle_signal for each scored signal: claim, and evaluate only what this call newly claimed. */
    method HandleSignals(signals: seq<string>, now: real) returns (evaluated: seq<string>)
      modifies ledger
      ensures Distinct(evaluated)
      ensures forall id :: id in evaluated <==> id in signals && id !in old(ledger.claims)
      ensures forall id :: id in ledger.claims <==> id in old(ledger.claims) || id in signals
    {
      evaluated := [];
      var i := 0;
      while i < |signals|
        invariant 0 <= i <= |signals|
        invariant Distinct(evaluated)
        invariant forall id :: id in evaluated <==> id in signals[..i] && id !in old(ledger.claims)
        invariant forall id :: id in ledger.claims <==> id in old(ledger.claims) || id in signals[..i]
      {
        assert signals[..i + 1] == signals[..i] + [signals[i]];
        var claimed := ledger.Claim(signals[i], None, now);
        if claimed {
          evaluated := evaluated + [signals[i]];
        }
        i := i + 1;
      }
      assert signals[..i] == signals;
    }

    /** The body of the loop for one due trade. */
    method RetryOne(id: string, now: real, await: Await, ghost start: State, ghost events: seq<Event>)
      returns (hit: bool, dropped: bool, raised: bool, ghost longer: seq<Event>)
      requires Reached(start, events, Model())
      requires id in pending && now >= pending[id].nextAt
      modifies `pending, `accepted, `recovered, `abandoned, `lookups, ledger
      ensures Reached(start, longer, Model())
      ensures forall x :: x != id && x in old(pending) ==> x in pending && pending[x] == old(pending)[x]
      ensures forall x :: LookupsOf(longer, x) == LookupsOf(events, x) + if x == id then 1 else 0
      ensures lookups == old(lookups) + 1
      ensures |recovered| == |old(recovered)| + if hit then 1 else 0
      ensures |abandoned| == |old(abandoned)| + if dropped then 1 else 0
      ensures (hit <==> await.found) && (raised <==> await.found && await.raises)
    {
      longer := EnqueueAll(await.duringLookup, start, events);
      hit, dropped, longer := RecordLookup(id, now, await.found, start, longer);
      raised := false;
      if hit {
        longer := EnqueueAll(await.duringHandling, start, longer);
        var _ := HandleSignals(await.signals, now);
        raised := await.raises;
      }
    }

    /** What the answer of one lookup changes. */
    method RecordLookup(id: string, now: real, found: bool, ghost start: State, ghost events: seq<Event>)
      returns (hit: bool, dropped: bool, ghost longer: seq<Event>)
      requires Reached(start, events, Model())
      requires id in pending && now >= pending[id].nextAt
      modifies `pending, `recovered, `abandoned, `lookups
      ensures Reached(start, longer, Model())
      ensures Model() == Apply(old(Model()), if found then Hit(id, now) else Miss(id, now))
      ensures forall x :: LookupsOf(longer, x) == LookupsOf(events, x) + if x == id then 1 else 0
      ensures |abandoned| == |old(abandoned)| + if dropped then 1 else 0
      ensures hit == found
    {
      ghost var e := if found then Hit(id, now) else Miss(id, now);
      RunAppend(start, events, e);
      CountLookup(events, e);
      StepOnSchedule(Model(), e);
      longer := events + [e];
      hit, dropped := found, false;
      if found {
        TakeOut(id, now);
      } else {
        dropped := RecordMiss(id, now);
      }
    }

    /** The market resolved: the trade leaves the queue before it is scored. */
    method TakeOut(id: string, now: real)
      requires Enabled(Model(), Hit(id, now))
      modifies `pending, `recovered, `lookups
      ensures Model() == Apply(old(Model()), Hit(id, now))
    {
      lookups := lookups + 1;
      recovered := recovered + [id];
      pending := pending - {id};
    }

    /** The market is still missing: one attempt gone, and the trade with it if that was the last. */
    method RecordMiss(id: string, now: real) returns (dropped: bool)
      requires Enabled(Model(), Miss(id, now))
      modifies `pending, `abandoned, `lookups
      ensures Model() == Apply(old(Model()), Miss(id, now))
      ensures |abandoned| == |old(abandoned)| + if dropped then 1 else 0
    {
      var entry := pending[id];
      lookups := lookups + 1;
      dropped := entry.attempts + 1 >= |BACKOFF_SCHEDULE_SEC|;
      if dropped {
        abandoned := abandoned + [Abandonment(id, entry.attempts + 1, entry.enqueuedAt, now)];
        pending := pending - {id};
      } else {
        pending := pending[id := Entry(entry.attempts + 1, now + BACKOFF_SCHEDULE_SEC[entry.attempts + 1],
                                       entry.enqueuedAt)];
      }
    }

    /** The loop of run_pending over the snapshot `order` of the queue. */
    method Sweep(now: real, order: seq<string>, script: string -> Await)
      returns (retried: nat, hits: nat, drops: nat, raised: bool, ghost events: seq<Event>, ghost looked: set<string>)
      requires OnSchedule(Model())
      requires Distinct(order) && forall id :: id in order ==> id in pending
      modifies `pending, `accepted, `recovered, `abandoned, `lookups, ledger
      ensures Runnable(old(Model()), events) && Model() == Run(old(Model()), events) && OnSchedule(Model())
      ensures LookedUp(events, looked) && forall id :: id in looked ==> id in order && Due(old(Model()), id, now)
      ensures !raised ==> forall id :: id in order && Due(old(Model()), id, now) ==> id in looked
      ensures retried == lookups - old(lookups)
      ensures hits == |recovered| - |old(recovered)| && drops == |abandoned| - |old(abandoned)|
    {
      ghost var start := Model();
      events, looked := [], {};
      retried, hits, drops, raised := 0, 0, 0, false;
      var i := 0;
      while i < |order|
        invariant 0 <= i <= |order|
        invariant Reached(start, events, Model())
        invariant forall j :: i <= j < |order| ==> order[j] in pending && pending[order[j]] == start.pending[order[j]]
        invariant LookedUp(events, looked)
        invariant forall id :: id in looked ==> id in order[..i] && Due(start, id, now)
        invariant forall id :: id in order[..i] && Due(start, id, now) ==> id in looked
        invariant retried == lookups - start.lookups
        invariant hits == |recovered| - |start.recovered| && drops == |abandoned| - |start.abandoned|
      {
        var id := order[i];
        assert order[..i + 1] == order[..i] + [id];
        assert id !in order[..i];
        if now >= pending[id].nextAt {
          var hit, dropped;
          hit, dropped, raised, events := RetryOne(id, now, script(id), start, events);
          looked := looked + {id};
          retried := retried + 1;
          hits := hits + if hit then 1 else 0;
          drops := drops + if dropped then 1 else 0;
          if raised {
            return;
          }
        }
        i := i + 1;
      }
      assert order[..i] == order;
    }

    /** run_pending. It performs lookups and interleaved enqueues only as the step relation allows, looks
        up every trade of the snapshot that is due exactly once and no other, and counts what it did; an
        exception from scoring or handling stops the pass after the trade was taken out, and leaves the
        window counters as they were. */
    method RunPending(now: real, order: seq<string>, script: string -> Await)
      returns (retried: nat, hits: nat, drops: nat, raised: bool, ghost events: seq<Event>, ghost looked: set<string>)
      requires OnSchedule(Model())
      requires Distinct(order) && forall id :: id in order <==> id in pending
      modifies this, ledger
      ensures Runnable(old(Model()), events) && Model() == Run(old(Model()), events) && OnSchedule(Model())
      ensures LookedUp(events, looked)
      ensures forall id :: id in looked ==> id in old(pending) && now >= old(pending)[id].nextAt
      ensures !raised ==> forall id :: id in old(pending) && now >= old(pending)[id].nextAt ==> id in looked
      ensures retried == lookups - old(lookups)
      ensures hits == |recovered| - |old(recovered)| && drops == |abandoned| - |old(abandoned)|
      ensures windowRetried == old(windowRetried) + (if raised then 0 else retried)
      ensures windowRecovered == old(windowRecovered) + (if raised then 0 else hits)
      ensures windowAbandoned == old(windowAbandoned) + (if raised then 0 else drops)
    {
      retried, hits, drops, raised, events, looked := Sweep(now, order, script);
      if !raised {
        windowRetried := windowRetried + retried;
        windowRecovered := windowRecovered + hits;
        windowAbandoned := windowAbandoned + drops;
      }
    }
  }

  predicate Due(s: State, id: string, now: real) {
    id in s.pending && now >= s.pending[id].nextAt
  }

  /** Exactly these trades were looked up, each once. */
  ghost predicate LookedUp(events: seq<Event>, looked: set<string>) {
    forall id :: LookupsOf(events, id) == if id in looked then 1 else 0
  }

  /** The events are a run from the start to here, on schedule. */
  ghost predicate Reached(start: State, events: seq<Event>, s: State) {
    Runnable(start, events) && Run(start, events) == s && OnSchedule(s)
  }

  ghost predicate SameLookups(events: seq<Event>, longer: seq<Event>) {
    forall id :: LookupsOf(longer, id) == LookupsOf(events, id)
  }

  lemma EnqueueIsNoLookup(events: seq<Event>, e: Event)
    requires e.Enqueue?
    ensures SameLookups(events, events + [e])
  {
    forall id
      ensures LookupsOf(events + [e], id) == LookupsOf(events, id)
    {
      LookupsSnoc(events, e, id);
    }
  }

  lemma CountLookup(events: seq<Event>, e: Event)
    requires !e.Enqueue?
    ensures forall id :: LookupsOf(events + [e], id) == LookupsOf(events, id) + if e.id == id then 1 else 0
  {
    forall id
      ensures LookupsOf(events + [e], id) == LookupsOf(events, id) + if e.id == id then 1 else 0
    {
      LookupsSnoc(events, e, id);
    }
  }
}
