/**
  call_with_backoff of services/http_client.py: retries on 429 only, and the
  telemetry that each real attempt leaves under its endpoint and each logical
  call under its caller class. Calls interleave at every await, so the counters
  move in the steps between two awaits.
*/
module HttpCalls {
  import opened MapSums

  /** How one attempt ends: a result, a 429 (and whether the sleep before the retry is then cancelled), any
      other exception, or a cancellation while it waits for the limiter or the response. */
  datatype Outcome = Success | TooMany(asleepCancelled: bool) | Failure | Cancelled

  datatype ClassStats = ClassStats(calls: nat, attempts: nat, rateLimited: nat, errors: nat)

  datatype HttpStats = HttpStats(calls: nat, successes: nat, errors: nat, rateLimited: nat)

  /** The counters by caller class and by endpoint, and the retried 429s; the calls that gave up on their last
      429, were cancelled with an attempt out, or were cancelled asleep; and the calls and the attempts that
      have not ended. */
  datatype Counters = Counters(
    classes: map<string, ClassStats>, endpoints: map<string, HttpStats>, rateLimitHits: nat,
    exhausted: nat, cutShort: nat, cutAsleep: nat, running: int, out: int)

  /** One logical call, against the outcomes its max_retries + 1 attempts would have. */
  datatype Call = Call(callerClass: string, endpoint: string, outcomes: seq<Outcome>)

  /** What a call does to the counters between two awaits. */
  datatype Step =
    | Begin(callerClass: string)
    | Send(callerClass: string)
    | Answer(callerClass: string, endpoint: string, outcome: Outcome, last: bool)
    | CutShort
    | CutAsleep

  function Pow2(n: nat): nat {
    if n == 0 then 1 else 2 * Pow2(n - 1)
  }

  /** The delay before retry n, and the delays before all retries up to it, without jitter. */
  function DelayAt(base: real, n: nat): real {
    if n == 0 then base else DelayAt(base, n - 1) * 2.0
  }

  function DelaysBefore(base: real, n: nat): real {
    if n == 0 then 0.0 else DelaysBefore(base, n - 1) + DelayAt(base, n - 1)
  }

  /** The attempt a logical call stops at: the first whose outcome is not a 429 it sleeps off, or the last one
      allowed. */
  function StopAt(outcomes: seq<Outcome>): (k: nat)
    requires outcomes != []
    ensures k < |outcomes| && (forall i :: 0 <= i < k ==> outcomes[i] == TooMany(false))
    ensures outcomes[k] == TooMany(false) ==> k == |outcomes| - 1
  {
    if outcomes[0] != TooMany(false) || |outcomes| == 1 then 0 else 1 + StopAt(outcomes[1..])
  }

  function ClassOf(classes: map<string, ClassStats>, name: string): ClassStats {
    if name in classes then classes[name] else ClassStats(0, 0, 0, 0)
  }

  function HttpOf(endpoints: map<string, HttpStats>, name: string): HttpStats {
    if name in endpoints then endpoints[name] else HttpStats(0, 0, 0, 0)
  }

  /** _record_http_attempt on one endpoint's bucket. */
  function Recorded(s: HttpStats, outcome: Outcome): HttpStats {
    match outcome
    case TooMany(_) => s.(calls := s.calls + 1, rateLimited := s.rateLimited + 1)
    case Success => s.(calls := s.calls + 1, successes := s.successes + 1)
    case _ => s.(calls := s.calls + 1, errors := s.errors + 1)
  }

  /** An answer that ends its call in an error: any other exception, or a 429 with no retry left. */
  predicate Fatal(outcome: Outcome, last: bool) {
    !outcome.Success? && (outcome.TooMany? ==> last)
  }

  function Answered(s: ClassStats, outcome: Outcome, last: bool): ClassStats {
    s.(rateLimited := s.rateLimited + (if outcome.TooMany? then 1 else 0),
       errors := s.errors + (if Fatal(outcome, last) then 1 else 0))
  }

  function Apply(c: Counters, step: Step): Counters {
    match step
    case Begin(name) =>
      var of := ClassOf(c.classes, name);
      c.(classes := c.classes[name := of.(calls := of.calls + 1)], running := c.running + 1)
    case Send(name) =>
      var of := ClassOf(c.classes, name);
      c.(classes := c.classes[name := of.(attempts := of.attempts + 1)], out := c.out + 1)
    case Answer(name, endpoint, outcome, last) =>
      c.(classes := c.classes[name := Answered(ClassOf(c.classes, name), outcome, last)],
         endpoints := c.endpoints[endpoint := Recorded(HttpOf(c.endpoints, endpoint), outcome)],
         rateLimitHits := c.rateLimitHits + (if outcome.TooMany? && !last then 1 else 0),
         exhausted := c.exhausted + (if outcome.TooMany? && last then 1 else 0),
         running := c.running - (if outcome.Success? || Fatal(outcome, last) then 1 else 0),
         out := c.out - 1)
    case CutShort => c.(cutShort := c.cutShort + 1, running := c.running - 1, out := c.out - 1)
    case CutAsleep => c.(cutAsleep := c.cutAsleep + 1, running := c.running - 1)
  }

  function Run(c: Counters, steps: seq<Step>): Counters
    decreases |steps|
  {
    if steps == [] then c else Run(Apply(c, steps[0]), steps[1..])
  }

  // ---- The layers agree ----

  function Calls(s: ClassStats): real { s.calls as real }

  function Attempts(s: ClassStats): real { s.attempts as real }

  function RateLimited(s: ClassStats): real { s.rateLimited as real }

  function Errors(s: ClassStats): real { s.errors as real }

  function HttpCallCount(s: HttpStats): real { s.calls as real }

  function HttpSuccesses(s: HttpStats): real { s.successes as real }

  function HttpErrors(s: HttpStats): real { s.errors as real }

  function HttpRateLimited(s: HttpStats): real { s.rateLimited as real }

  /** Within one endpoint the attempts are its successes, errors and 429s. */
  predicate EndpointsAddUp(endpoints: map<string, HttpStats>) {
    forall e :: e in endpoints ==>
      endpoints[e].calls == endpoints[e].successes + endpoints[e].errors + endpoints[e].rateLimited
  }

  /** The counters in sum over all classes, and over all endpoints. */
  datatype ClassSums = ClassSums(calls: real, attempts: real, rateLimited: real, errors: real)

  datatype HttpSums = HttpSums(calls: real, successes: real, errors: real, rateLimited: real)

  ghost function SumOfClasses(classes: map<string, ClassStats>): ClassSums {
    ClassSums(Total(classes, Calls), Total(classes, Attempts), Total(classes, RateLimited), Total(classes, Errors))
  }

  ghost function SumOfEndpoints(endpoints: map<string, HttpStats>): HttpSums {
    HttpSums(Total(endpoints, HttpCallCount), Total(endpoints, HttpSuccesses), Total(endpoints, HttpErrors),
             Total(endpoints, HttpRateLimited))
  }

  predicate Balanced(t: ClassSums, h: HttpSums, c: Counters) {
    && t.attempts == h.calls + c.cutShort as real + c.out as real
    && t.rateLimited == h.rateLimited
    && t.calls == h.successes + t.errors + c.cutShort as real + c.cutAsleep as real + c.running as real
    && t.errors == h.errors + c.exhausted as real
    && c.rateLimitHits as real + c.exhausted as real == h.rateLimited
  }

  /** How the two layers fit together. */
  ghost predicate LayersAgree(c: Counters) {
    EndpointsAddUp(c.endpoints) && Balanced(SumOfClasses(c.classes), SumOfEndpoints(c.endpoints), c)
  }

  /** The sums with one entry's values changed. */
  function Moved(t: ClassSums, was: ClassStats, of: ClassStats): ClassSums {
    ClassSums(t.calls + (of.calls - was.calls) as real, t.attempts + (of.attempts - was.attempts) as real,
              t.rateLimited + (of.rateLimited - was.rateLimited) as real, t.errors + (of.errors - was.errors) as real)
  }

  function HttpMoved(t: HttpSums, was: HttpStats, at: HttpStats): HttpSums {
    HttpSums(t.calls + (at.calls - was.calls) as real, t.successes + (at.successes - was.successes) as real,
             t.errors + (at.errors - was.errors) as real, t.rateLimited + (at.rateLimited - was.rateLimited) as real)
  }

  lemma ClassTotals(classes: map<string, ClassStats>, name: string, of: ClassStats)
    ensures SumOfClasses(classes[name := of]) == Moved(SumOfClasses(classes), ClassOf(classes, name), of)
  {
    TotalUpdate(classes, name, of, Calls);
    TotalUpdate(classes, name, of, Attempts);
    TotalUpdate(classes, name, of, RateLimited);
    TotalUpdate(classes, name, of, Errors);
  }

  lemma EndpointTotals(endpoints: map<string, HttpStats>, name: string, at: HttpStats)
    ensures SumOfEndpoints(endpoints[name := at]) == HttpMoved(SumOfEndpoints(endpoints), HttpOf(endpoints, name), at)
  {
    TotalUpdate(endpoints, name, at, HttpCallCount);
    TotalUpdate(endpoints, name, at, HttpSuccesses);
    TotalUpdate(endpoints, name, at, HttpErrors);
    TotalUpdate(endpoints, name, at, HttpRateLimited);
  }

  /** An answer moves both sums by amounts that balance. */
  lemma AnswerBalances(t: ClassSums, h: HttpSums, c: Counters, step: Step)
    requires Balanced(t, h, c) && step.Answer? && !step.outcome.Cancelled?
    ensures var was, before := ClassOf(c.classes, step.callerClass), HttpOf(c.endpoints, step.endpoint);
            Balanced(Moved(t, was, Answered(was, step.outcome, step.last)),
                     HttpMoved(h, before, Recorded(before, step.outcome)), Apply(c, step))
  {
  }

  lemma AnswerAddsUp(c: Counters, step: Step)
    requires EndpointsAddUp(c.endpoints) && step.Answer?
    ensures EndpointsAddUp(Apply(c, step).endpoints)
  {
  }

  lemma AnswerKeepsBalance(c: Counters, step: Step, was: ClassStats, before: HttpStats)
    requires step.Answer? && !step.outcome.Cancelled?
    requires was == ClassOf(c.classes, step.callerClass) && before == HttpOf(c.endpoints, step.endpoint)
    requires Balanced(SumOfClasses(c.classes), SumOfEndpoints(c.endpoints), c)
    ensures Balanced(SumOfClasses(c.classes[step.callerClass := Answered(was, step.outcome, step.last)]),
                     SumOfEndpoints(c.endpoints[step.endpoint := Recorded(before, step.outcome)]), Apply(c, step))
  {
    ClassTotals(c.classes, step.callerClass, Answered(was, step.outcome, step.last));
    EndpointTotals(c.endpoints, step.endpoint, Recorded(before, step.outcome));
    AnswerBalances(SumOfClasses(c.classes), SumOfEndpoints(c.endpoints), c, step);
  }

  lemma StepKeepsLayers(c: Counters, step: Step)
    requires LayersAgree(c) && (step.Answer? ==> !step.outcome.Cancelled?)
    ensures LayersAgree(Apply(c, step))
  {
    if step.Answer? {
      AnswerKeepsBalance(c, step, ClassOf(c.classes, step.callerClass), HttpOf(c.endpoints, step.endpoint));
      AnswerAddsUp(c, step);
    } else if step.Begin? || step.Send? {
      ClassTotals(c.classes, step.callerClass, Apply(c, step).classes[step.callerClass]);
    }
  }

  /** However calls of any callers and endpoints interleave, cancellations included: the attempts of all classes
      are the attempts of all endpoints plus those cancelled unanswered and those still out; the 429s agree;
      every call ended in a success, an error or a cancellation, or is still running; every error is an
      endpoint's or a last 429; and every 429 was retried or was the last. */
  lemma {:induction false} LayersAlwaysAgree(c: Counters, steps: seq<Step>)
    requires LayersAgree(c) && forall i :: 0 <= i < |steps| && steps[i].Answer? ==> !steps[i].outcome.Cancelled?
    ensures LayersAgree(Run(c, steps))
    decreases |steps|
  {
    if steps != [] {
      StepKeepsLayers(c, steps[0]);
      LayersAlwaysAgree(Apply(c, steps[0]), steps[1..]);
    }
  }

  const NOTHING: Counters := Counters(map[], map[], 0, 0, 0, 0, 0, 0)

  lemma NothingAgrees()
    ensures LayersAgree(NOTHING)
  {
    TotalEmpty<string, ClassStats>(Calls);
    TotalEmpty<string, ClassStats>(Attempts);
    TotalEmpty<string, ClassStats>(RateLimited);
    TotalEmpty<string, ClassStats>(Errors);
    TotalEmpty<string, HttpStats>(HttpCallCount);
    TotalEmpty<string, HttpStats>(HttpSuccesses);
    TotalEmpty<string, HttpStats>(HttpErrors);
    TotalEmpty<string, HttpStats>(HttpRateLimited);
  }

  // ---- One call ----

  predicate IsLast(call: Call, i: nat) {
    i == |call.outcomes| - 1
  }

  /** The steps of one call from its attempt i on. */
  function StepsFrom(call: Call, i: nat): (steps: seq<Step>)
    requires i < |call.outcomes|
    ensures forall j :: 0 <= j < |steps| && steps[j].Answer? ==> !steps[j].outcome.Cancelled?
    decreases |call.outcomes| - i
  {
    var o := call.outcomes[i];
    var answer := Answer(call.callerClass, call.endpoint, o, IsLast(call, i));
    [Send(call.callerClass)]
    + if o.Cancelled? then [CutShort]
      else if !o.TooMany? || IsLast(call, i) then [answer]
      else if o.asleepCancelled then [answer, CutAsleep]
      else [answer] + StepsFrom(call, i + 1)
  }

  function StepsOf(call: Call): seq<Step>
    requires call.outcomes != []
  {
    [Begin(call.callerClass)] + StepsFrom(call, 0)
  }

  lemma RunCons(c: Counters, step: Step, rest: seq<Step>)
    ensures Run(c, [step] + rest) == Run(Apply(c, step), rest)
  {
    assert ([step] + rest)[1..] == rest;
  }

  /** What the steps from attempt i on come to. */
  function FromAttempt(c: Counters, call: Call, i: nat): Counters
    requires i < |call.outcomes|
    decreases |call.outcomes| - i
  {
    var o := call.outcomes[i];
    var sent := Apply(c, Send(call.callerClass));
    if o.Cancelled? then Apply(sent, CutShort)
    else
      var answered := Apply(sent, Answer(call.callerClass, call.endpoint, o, IsLast(call, i)));
      if !o.TooMany? || IsLast(call, i) then answered
      else if o.asleepCancelled then Apply(answered, CutAsleep)
      else FromAttempt(answered, call, i + 1)
  }

  /** Where the call leads from here: through attempt i and what follows it, or nowhere further. */
  predicate Leads(c: Counters, call: Call, i: nat, again: bool, end: Counters)
    requires i < |call.outcomes|
  {
    end == if again then FromAttempt(c, call, i) else c
  }

  function AfterCall(c: Counters, call: Call): Counters
    requires call.outcomes != []
  {
    FromAttempt(Apply(c, Begin(call.callerClass)), call, 0)
  }

  lemma {:induction false} FromAttemptIsARun(c: Counters, call: Call, i: nat)
    requires i < |call.outcomes|
    ensures FromAttempt(c, call, i) == Run(c, StepsFrom(call, i))
    decreases |call.outcomes| - i
  {
    var o := call.outcomes[i];
    var answer := Answer(call.callerClass, call.endpoint, o, IsLast(call, i));
    var sent := Apply(c, Send(call.callerClass));
    assert StepsFrom(call, i) == [Send(call.callerClass)] + StepsFrom(call, i)[1..];
    RunCons(c, Send(call.callerClass), StepsFrom(call, i)[1..]);
    if o.Cancelled? {
      assert StepsFrom(call, i)[1..] == [CutShort] + [];
      RunCons(sent, CutShort, []);
    } else if !o.TooMany? || IsLast(call, i) {
      assert StepsFrom(call, i)[1..] == [answer] + [];
      RunCons(sent, answer, []);
    } else if o.asleepCancelled {
      assert StepsFrom(call, i)[1..] == [answer] + ([CutAsleep] + []);
      RunCons(sent, answer, [CutAsleep] + []);
      RunCons(Apply(sent, answer), CutAsleep, []);
    } else {
      assert StepsFrom(call, i)[1..] == [answer] + StepsFrom(call, i + 1);
      RunCons(sent, answer, StepsFrom(call, i + 1));
      FromAttemptIsARun(Apply(sent, answer), call, i + 1);
    }
  }

  /** A call is a run of steps, so that whatever every run keeps, it keeps. */
  lemma CallIsARun(c: Counters, call: Call)
    requires call.outcomes != []
    ensures AfterCall(c, call) == Run(c, StepsOf(call))
  {
    RunCons(c, Begin(call.callerClass), StepsFrom(call, 0));
    FromAttemptIsARun(Apply(c, Begin(call.callerClass)), call, 0);
  }

  lemma CallKeepsLayers(c: Counters, call: Call)
    requires LayersAgree(c) && call.outcomes != []
    ensures LayersAgree(AfterCall(c, call))
  {
    CallIsARun(c, call);
    LayersAlwaysAgree(c, StepsOf(call));
  }

  /** A 429 that is slept off: one more attempt and one more 429, and the call goes on. */
  lemma Retried(c: Counters, call: Call, i: nat)
    requires i < |call.outcomes| && call.outcomes[i] == TooMany(false) && !IsLast(call, i)
    ensures var answer := Answer(call.callerClass, call.endpoint, call.outcomes[i], false);
            var next := Apply(Apply(c, Send(call.callerClass)), answer);
            var was := ClassOf(c.classes, call.callerClass);
            && FromAttempt(c, call, i) == FromAttempt(next, call, i + 1)
            && ClassOf(next.classes, call.callerClass) == was.(attempts := was.attempts + 1, rateLimited := was.rateLimited + 1)
            && next.rateLimitHits == c.rateLimitHits + 1 && next.running == c.running && next.out == c.out
  {
  }

  lemma Ended(c: Counters, call: Call, k: nat)
    requires k < |call.outcomes| && (call.outcomes[k] == TooMany(false) ==> IsLast(call, k))
    ensures var after, o := FromAttempt(c, call, k), call.outcomes[k];
            && ClassOf(after.classes, call.callerClass) == Counted(ClassOf(c.classes, call.callerClass), 0, o, IsLast(call, k))
            && after.rateLimitHits == c.rateLimitHits + (if o.TooMany? && !IsLast(call, k) then 1 else 0)
            && after.running == c.running - 1 && after.out == c.out
  {
  }

  /** An endpoint's counters after n retried 429s and one last outcome. */
  function HttpCounted(was: HttpStats, n: nat, o: Outcome): HttpStats {
    HttpStats(was.calls + n + (if o.Cancelled? then 0 else 1), was.successes + (if o.Success? then 1 else 0),
              was.errors + (if o.Failure? then 1 else 0), was.rateLimited + n + (if o.TooMany? then 1 else 0))
  }

  lemma EndedInItsBuckets(c: Counters, call: Call, k: nat, name: string)
    requires k < |call.outcomes| && (call.outcomes[k] == TooMany(false) ==> IsLast(call, k))
    ensures var after := FromAttempt(c, call, k);
            && HttpOf(after.endpoints, call.endpoint) == HttpCounted(HttpOf(c.endpoints, call.endpoint), 0, call.outcomes[k])
            && (name != call.callerClass ==> ClassOf(after.classes, name) == ClassOf(c.classes, name))
            && (name != call.endpoint ==> HttpOf(after.endpoints, name) == HttpOf(c.endpoints, name))
  {
  }

  lemma RetriedInItsBuckets(c: Counters, call: Call, i: nat, name: string)
    requires i < |call.outcomes| && call.outcomes[i] == TooMany(false) && !IsLast(call, i)
    ensures var next := Apply(Apply(c, Send(call.callerClass)), Answer(call.callerClass, call.endpoint, call.outcomes[i], false));
            var was := HttpOf(c.endpoints, call.endpoint);
            && FromAttempt(c, call, i) == FromAttempt(next, call, i + 1)
            && HttpOf(next.endpoints, call.endpoint) == was.(calls := was.calls + 1, rateLimited := was.rateLimited + 1)
            && (name != call.callerClass ==> ClassOf(next.classes, name) == ClassOf(c.classes, name))
            && (name != call.endpoint ==> HttpOf(next.endpoints, name) == HttpOf(c.endpoints, name))
  {
  }

  /** Within one call no other class's and no other endpoint's counters move, and the endpoint counts each answered
      attempt under what it was. */
  lemma {:induction false} CallStaysInItsBuckets(c: Counters, call: Call, i: nat, name: string)
    requires call.outcomes != [] && i <= StopAt(call.outcomes)
    ensures var k, after := StopAt(call.outcomes), FromAttempt(c, call, i);
            && HttpOf(after.endpoints, call.endpoint)
               == HttpCounted(HttpOf(c.endpoints, call.endpoint), k - i, call.outcomes[k])
            && (name != call.callerClass ==> ClassOf(after.classes, name) == ClassOf(c.classes, name))
            && (name != call.endpoint ==> HttpOf(after.endpoints, name) == HttpOf(c.endpoints, name))
    decreases |call.outcomes| - i
  {
    if i < StopAt(call.outcomes) {
      RetriedInItsBuckets(c, call, i, name);
      var answer := Answer(call.callerClass, call.endpoint, call.outcomes[i], false);
      CallStaysInItsBuckets(Apply(Apply(c, Send(call.callerClass)), answer), call, i + 1, name);
    } else {
      EndedInItsBuckets(c, call, i, name);
    }
  }

  /** What the rest of a call adds: one attempt for each up to the one it stops at, one retried 429 for each
      before that, at most one error; and it is then no longer running. */
  lemma {:induction false} RestOfCallCounts(c: Counters, call: Call, i: nat)
    requires call.outcomes != [] && i <= StopAt(call.outcomes)
    ensures var k, after := StopAt(call.outcomes), FromAttempt(c, call, i);
            var o := call.outcomes[k];
            && ClassOf(after.classes, call.callerClass)
               == Counted(ClassOf(c.classes, call.callerClass), k - i, o, IsLast(call, k))
            && after.rateLimitHits == c.rateLimitHits + (k - i) + (if o.TooMany? && !IsLast(call, k) then 1 else 0)
            && after.running == c.running - 1 && after.out == c.out
    decreases |call.outcomes| - i
  {
    if i < StopAt(call.outcomes) {
      Retried(c, call, i);
      var answer := Answer(call.callerClass, call.endpoint, call.outcomes[i], false);
      RestOfCallCounts(Apply(Apply(c, Send(call.callerClass)), answer), call, i + 1);
    } else {
      Ended(c, call, i);
    }
  }

  /** A class's counters after n retried 429s and one last outcome. */
  function Counted(was: ClassStats, n: nat, o: Outcome, last: bool): ClassStats {
    was.(attempts := was.attempts + n + 1,
         rateLimited := was.rateLimited + n + (if o.TooMany? then 1 else 0),
         errors := was.errors + (if o.Failure? || (o.TooMany? && last) then 1 else 0))
  }

  class Telemetry {
    var classes: map<string, ClassStats>
    var endpoints: map<string, HttpStats>
    var rateLimitHits: nat
    ghost var exhausted: nat
    ghost var cutShort: nat
    ghost var cutAsleep: nat
    ghost var running: int
    ghost var out: int

    ghost function Model(): Counters
      reads this
    {
      Counters(classes, endpoints, rateLimitHits, exhausted, cutShort, cutAsleep, running, out)
    }

    constructor ()
      ensures Model() == NOTHING && LayersAgree(Model())
    {
      classes, endpoints, rateLimitHits := map[], map[], 0;
      exhausted, cutShort, cutAsleep, running, out := 0, 0, 0, 0, 0;
      new;
      NothingAgrees();
    }

    method RecordHttpAttempt(endpoint: string, outcome: Outcome)
      requires !outcome.Cancelled?
      modifies `endpoints
      ensures endpoints == old(endpoints)[endpoint := Recorded(HttpOf(old(endpoints), endpoint), outcome)]
    {
      var bucket := HttpOf(endpoints, endpoint);
      bucket := bucket.(calls := bucket.calls + 1);
      if outcome.TooMany? {
        bucket := bucket.(rateLimited := bucket.rateLimited + 1);
      } else if outcome.Success? {
        bucket := bucket.(successes := bucket.successes + 1);
      } else {
        bucket := bucket.(errors := bucket.errors + 1);
      }
      endpoints := endpoints[endpoint := bucket];
    }

    /** stats.count("calls"): the first step of the call. */
    method CountCall(callerClass: string)
      modifies this
      ensures Model() == Apply(old(Model()), Begin(callerClass))
    {
      var stats := ClassOf(classes, callerClass);
      classes := classes[callerClass := stats.(calls := stats.calls + 1)];
      running := running + 1;
    }

    /** stats.count("attempts"), before the limiter is awaited. */
    method CountAttempt(callerClass: string)
      modifies this
      ensures Model() == Apply(old(Model()), Send(callerClass))
    {
      var stats := ClassOf(classes, callerClass);
      classes := classes[callerClass := stats.(attempts := stats.attempts + 1)];
      out := out + 1;
    }

    /** What follows an answered attempt up to the next await: the endpoint's record, and for a 429 or another
        exception the class's counts, with those of the finally block where the call ends. */
    method CountAnswer(callerClass: string, endpoint: string, outcome: Outcome, last: bool)
      requires !outcome.Cancelled?
      modifies this
      ensures Model() == Apply(old(Model()), Answer(callerClass, endpoint, outcome, last))
    {
      var stats := ClassOf(classes, callerClass);
      RecordHttpAttempt(endpoint, outcome);
      out := out - 1;
      if outcome.TooMany? {
        stats := stats.(rateLimited := stats.rateLimited + 1);
        if last {
          exhausted := exhausted + 1;
        } else {
          rateLimitHits := rateLimitHits + 1;
        }
      }
      if outcome.Failure? || (outcome.TooMany? && last) {
        stats := stats.(errors := stats.errors + 1);
      }
      if !outcome.TooMany? || last {
        running := running - 1;
      }
      classes := classes[callerClass := stats];
    }

    /** One pass of the retry loop, up to and including the outcome of its sleep. */
    method Attempt(call: Call, i: nat, ghost end: Counters) returns (again: bool)
      requires call.outcomes != [] && i <= StopAt(call.outcomes) && Leads(Model(), call, i, true, end)
      modifies this
      ensures again <==> i < StopAt(call.outcomes)
      ensures Leads(Model(), call, if again then i + 1 else i, again, end)
    {
      var result, last := call.outcomes[i], i == |call.outcomes| - 1;
      CountAttempt(call.callerClass);
      if result.Cancelled? {
        cutShort, running, out := cutShort + 1, running - 1, out - 1;
        return false;
      }
      CountAnswer(call.callerClass, call.endpoint, result, last);
      if !result.TooMany? || last {
        return false;
      }
      if result.asleepCancelled {
        cutAsleep, running := cutAsleep + 1, running - 1;
        return false;
      }
      return true;
    }

    /** The retry loop, each retry sleeping the doubled delay plus a jitter of at most a quarter of it; slept is
        the sleeps that ended. */
    method RetryLoop(call: Call, baseDelay: real, jitter: nat -> real, ghost end: Counters)
      returns (stopped: nat, slept: real)
      requires call.outcomes != [] && Leads(Model(), call, 0, true, end)
      requires baseDelay >= 0.0 && forall i :: 0.0 <= jitter(i) <= 0.25
      modifies this
      ensures Model() == end && stopped == StopAt(call.outcomes) && SleptWithin(baseDelay, stopped, slept)
    {
      stopped, slept := 0, 0.0;
      var delay, again := baseDelay, true;
      while again
        invariant stopped <= StopAt(call.outcomes)
        invariant Leads(Model(), call, stopped, again, end) && (!again ==> stopped == StopAt(call.outcomes))
        invariant delay == DelayAt(baseDelay, stopped) >= 0.0 && SleptWithin(baseDelay, stopped, slept)
        decreases |call.outcomes| - stopped, again
      {
        again := Attempt(call, stopped, end);
        if again {
          SleepAdds(baseDelay, stopped, slept, jitter(stopped));
          slept := slept + Jittered(delay, jitter(stopped));
          delay := delay * 2.0;
          stopped := stopped + 1;
        }
      }
    }

    /** One logical call with nothing interleaved. */
    method CallWithBackoff(call: Call, baseDelay: real, jitter: nat -> real)
      returns (result: Outcome, made: nat, slept: real)
      requires call.outcomes != [] && baseDelay >= 0.0
      requires forall i :: 0.0 <= jitter(i) <= 0.25
      modifies this
      ensures Model() == AfterCall(old(Model()), call)
      ensures old(LayersAgree(Model())) ==> LayersAgree(Model())
      ensures made == StopAt(call.outcomes) + 1 && result == call.outcomes[made - 1]
      ensures SleptWithin(baseDelay, made - 1, slept)
    {
      if LayersAgree(Model()) {
        CallKeepsLayers(Model(), call);
      }
      CountCall(call.callerClass);
      var stopped: nat;
      stopped, slept := RetryLoop(call, baseDelay, jitter, FromAttempt(Model(), call, 0));
      result, made := call.outcomes[stopped], stopped + 1;
    }
  }

  /** delay + uniform(0, delay * 0.25). */
  function Jittered(delay: real, share: real): (total: real)
    requires delay >= 0.0 && 0.0 <= share <= 0.25
    ensures delay <= total <= delay * 1.25 && total - delay == share * delay
  {
    delay + delay * share
  }

  /** The delays before n retries, and at most a quarter more. */
  predicate SleptWithin(base: real, n: nat, slept: real) {
    DelaysBefore(base, n) <= slept <= DelaysBefore(base, n) * 1.25
  }

  lemma SleepAdds(base: real, n: nat, slept: real, share: real)
    requires DelayAt(base, n) >= 0.0 && SleptWithin(base, n, slept) && 0.0 <= share <= 0.25
    ensures SleptWithin(base, n + 1, slept + Jittered(DelayAt(base, n), share))
    ensures DelayAt(base, n + 1) == DelayAt(base, n) * 2.0
  {
  }

  /** In closed form the retries before attempt n + 1 wait base * (2^n - 1) seconds in all, before jitter. */
  lemma {:induction false} BackoffIsGeometric(base: real, n: nat)
    ensures DelayAt(base, n) == base * Pow2(n) as real
    ensures DelaysBefore(base, n) == base * (Pow2(n) - 1) as real
  {
    if n > 0 {
      BackoffIsGeometric(base, n - 1);
      Doubled(base, Pow2(n - 1) as real);
    }
  }

  lemma Doubled(base: real, p: real)
    ensures base * p * 2.0 == base * (2.0 * p)
    ensures base * (p - 1.0) + base * p == base * (2.0 * p - 1.0)
  {
  }
}
