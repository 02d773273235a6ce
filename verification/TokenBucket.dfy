/**
  _TokenBucketRateLimiter of services/http_client.py over exact reals. The
  asyncio lock is held across the whole acquire loop, sleeps included, so the
  bucket sees one sequence of passes, whoever makes them.
*/
module TokenBucket {

  /** rate tokens a second, at most burst saved up. */
  datatype Limits = Limits(rate: real, burst: real)

  datatype Bucket = Bucket(tokens: real, lastRefill: real)

  predicate Valid(p: Limits, b: Bucket) {
    p.rate > 0.0 && 0.0 <= b.tokens <= p.burst
  }

  /** What the rate adds over a stretch of time. */
  function Gain(p: Limits, elapsed: real): real {
    elapsed * p.rate
  }

  function Refilled(p: Limits, b: Bucket, now: real): real {
    var tokens := b.tokens + Gain(p, now - b.lastRefill);
    if p.burst < tokens then p.burst else tokens
  }

  predicate Grants(p: Limits, b: Bucket, now: real) {
    Refilled(p, b, now) >= 1.0
  }

  function Pass(p: Limits, b: Bucket, now: real): Bucket {
    Bucket(if Grants(p, b, now) then Refilled(p, b, now) - 1.0 else Refilled(p, b, now), now)
  }

  /** How long a refused pass sleeps. */
  function Wait(p: Limits, b: Bucket, now: real): real
    requires p.rate > 0.0
  {
    (1.0 - Refilled(p, b, now)) / p.rate
  }

  function Passes(p: Limits, b: Bucket, times: seq<real>): Bucket
    decreases |times|
  {
    if times == [] then b else Passes(p, Pass(p, b, times[0]), times[1..])
  }

  function Granted(p: Limits, b: Bucket, times: seq<real>): nat
    decreases |times|
  {
    if times == [] then 0
    else (if Grants(p, b, times[0]) then 1 else 0) + Granted(p, Pass(p, b, times[0]), times[1..])
  }

  /** Clock readings that never go back, starting no earlier than the given moment. */
  predicate Monotone(start: real, times: seq<real>)
    decreases |times|
  {
    times == [] || (start <= times[0] && Monotone(times[0], times[1..]))
  }

  lemma GainGrows(p: Limits, elapsed: real)
    requires p.rate > 0.0
    ensures elapsed >= 0.0 <==> Gain(p, elapsed) >= 0.0
    ensures elapsed > 0.0 <==> Gain(p, elapsed) > 0.0
  {
  }

  lemma GainAdds(p: Limits, x: real, y: real)
    ensures Gain(p, x) + Gain(p, y) == Gain(p, x + y)
  {
  }

  lemma PassKeepsTokens(p: Limits, b: Bucket, now: real)
    requires Valid(p, b) && b.lastRefill <= now
    ensures Valid(p, Pass(p, b, now)) && Pass(p, b, now).lastRefill == now
    ensures Refilled(p, b, now) <= b.tokens + Gain(p, now - b.lastRefill)
  {
    GainGrows(p, now - b.lastRefill);
  }

  /** After any monotone run, tokens stay in [0, burst], and what was granted plus what is left is at
      most what was there plus what the elapsed time refills. */
  lemma {:induction false} TokensConserved(p: Limits, b: Bucket, times: seq<real>)
    requires Valid(p, b) && Monotone(b.lastRefill, times)
    ensures var after := Passes(p, b, times);
            && Valid(p, after)
            && after.lastRefill == (if times == [] then b.lastRefill else times[|times| - 1])
            && Granted(p, b, times) as real + after.tokens
               <= b.tokens + Gain(p, after.lastRefill - b.lastRefill)
    decreases |times|
  {
    if times != [] {
      PassKeepsTokens(p, b, times[0]);
      TokensConserved(p, Pass(p, b, times[0]), times[1..]);
      var end := Passes(p, b, times).lastRefill;
      GainAdds(p, times[0] - b.lastRefill, end - times[0]);
    }
  }

  /** The throughput bound: from any valid bucket, the grants of any stretch of passes number at most
      burst plus the rate times the time between its first and last pass. */
  lemma ThroughputBound(p: Limits, b: Bucket, times: seq<real>)
    requires Valid(p, b) && times != [] && Monotone(b.lastRefill, times)
    ensures Granted(p, b, times) as real <= p.burst + Gain(p, times[|times| - 1] - times[0])
  {
    var first, rest := Pass(p, b, times[0]), times[1..];
    PassKeepsTokens(p, b, times[0]);
    TokensConserved(p, first, rest);
    assert (if rest == [] then times[0] else rest[|rest| - 1]) == times[|times| - 1];
    assert Granted(p, b, times) == (if Grants(p, b, times[0]) then 1 else 0) + Granted(p, first, rest);
    assert first.tokens + (if Grants(p, b, times[0]) then 1.0 else 0.0) <= p.burst;
  }

  lemma WaitRefillsOne(p: Limits, b: Bucket, now: real, later: real)
    requires Valid(p, b)
    ensures Refilled(p, b, now) + Gain(p, later - now) >= 1.0 <==> later - now >= Wait(p, b, now)
  {
    var wait := Wait(p, b, now);
    assert Gain(p, wait) == 1.0 - Refilled(p, b, now);
    GainGrows(p, later - now - wait);
    GainAdds(p, wait, later - now - wait);
  }

  /** The sleep is exactly long enough: a refused caller that looks again is granted if and only if it
      slept at least that long and the bucket can hold a whole token at all. */
  lemma SleepIsExact(p: Limits, b: Bucket, now: real, later: real)
    requires Valid(p, b) && !Grants(p, b, now)
    ensures Grants(p, Pass(p, b, now), later) <==> p.burst >= 1.0 && later - now >= Wait(p, b, now)
  {
    WaitRefillsOne(p, b, now, later);
  }

  /** One pass in full: a grant takes exactly one token out of the refilled bucket, a refusal leaves it as it
      is, and which it is depends on whether a whole token is there. */
  lemma PassTakesOneToken(p: Limits, b: Bucket, now: real)
    requires Valid(p, b) && b.lastRefill <= now
    ensures var after, held := Pass(p, b, now), b.tokens + p.rate * (now - b.lastRefill);
            && after.lastRefill == now && (Grants(p, b, now) <==> p.burst >= 1.0 && held >= 1.0)
            && after.tokens + (if Grants(p, b, now) then 1.0 else 0.0) == if held <= p.burst then held else p.burst
  {
    GainGrows(p, now - b.lastRefill);
  }

  /** n looks at one moment. */
  function AtOnce(now: real, n: nat): seq<real> {
    if n == 0 then [] else [now] + AtOnce(now, n - 1)
  }

  /** What is saved up is served at once: of n passes at the moment of the last refill, exactly as many are
      granted as there are whole tokens, or all of them, and each took one. */
  lemma {:induction false} BurstServedAtOnce(p: Limits, b: Bucket, n: nat)
    requires Valid(p, b)
    ensures var passes := AtOnce(b.lastRefill, n);
            && Granted(p, b, passes) == (if n <= b.tokens.Floor then n else b.tokens.Floor)
            && Passes(p, b, passes) == b.(tokens := b.tokens - Granted(p, b, passes) as real)
    decreases n
  {
    if n > 0 {
      assert AtOnce(b.lastRefill, n)[1..] == AtOnce(b.lastRefill, n - 1);
      assert Gain(p, 0.0) == 0.0;
      var next := Pass(p, b, b.lastRefill);
      assert next == b.(tokens := if b.tokens >= 1.0 then b.tokens - 1.0 else b.tokens);
      BurstServedAtOnce(p, next, n - 1);
    }
  }

  /** A burst below one token never grants anything, however long the caller waits. */
  lemma {:induction false} SmallBurstStarves(p: Limits, b: Bucket, times: seq<real>)
    requires Valid(p, b) && p.burst < 1.0
    ensures Granted(p, b, times) == 0
    decreases |times|
  {
    if times != [] {
      StarvedPass(p, b, times[0], times[1..]);
    }
  }

  lemma {:induction false} StarvedPass(p: Limits, b: Bucket, now: real, rest: seq<real>)
    requires p.burst < 1.0
    ensures !Grants(p, b, now) && Granted(p, Pass(p, b, now), rest) == 0
    decreases |rest|
  {
    if rest != [] {
      StarvedPass(p, Pass(p, b, now), rest[0], rest[1..]);
    }
  }

  /** Every refused pass is followed by a reading at least its sleep later. */
  predicate SleepsFully(p: Limits, b: Bucket, clock: seq<real>)
    requires p.rate > 0.0
    decreases |clock|
  {
    |clock| < 2
    || ((Grants(p, b, clock[0]) || clock[1] - clock[0] >= Wait(p, b, clock[0]))
        && SleepsFully(p, Pass(p, b, clock[0]), clock[1..]))
  }

  class Limiter {
    const limits: Limits
    var tokens: real
    var lastRefill: real

    ghost function Model(): Bucket
      reads this
    {
      Bucket(tokens, lastRefill)
    }

    constructor (rate: real, burst: real, now: real)
      requires rate > 0.0 && burst >= 0.0
      ensures limits == Limits(rate, burst) && Model() == Bucket(burst, now) && Valid(limits, Model())
    {
      limits := Limits(rate, burst);
      tokens, lastRefill := burst, now;
    }

    /** One pass of the loop: refill, and take a token if there is a whole one. */
    method TryTake(now: real) returns (granted: bool)
      requires Valid(limits, Model()) && lastRefill <= now
      modifies this
      ensures Model() == Pass(limits, old(Model()), now) && Valid(limits, Model())
      ensures granted == Grants(limits, old(Model()), now)
    {
      PassKeepsTokens(limits, Model(), now);
      var full := tokens + Gain(limits, now - lastRefill);
      tokens := if limits.burst < full then limits.burst else full;
      lastRefill := now;
      granted := tokens >= 1.0;
      if granted {
        tokens := tokens - 1.0;
      }
    }

    /** The loop under the lock, reading the given clock once a pass and returning at its first granted
        pass: every pass before the last was refused. */
    method Acquire(clock: seq<real>) returns (granted: bool, used: nat)
      requires Valid(limits, Model()) && Monotone(lastRefill, clock)
      modifies this
      ensures Valid(limits, Model()) && used <= |clock|
      ensures Model() == Passes(limits, old(Model()), clock[..used])
      ensures granted ==> used > 0 && Granted(limits, old(Model()), clock[..used - 1]) == 0
      ensures Granted(limits, old(Model()), clock[..used]) == if granted then 1 else 0
      ensures !granted ==> used == |clock|
    {
      ghost var start := Model();
      used := 0;
      granted := false;
      while used < |clock| && !granted
        invariant 0 <= used <= |clock|
        invariant Valid(limits, Model()) && Monotone(lastRefill, clock[used..])
        invariant Model() == Passes(limits, start, clock[..used])
        invariant granted ==> used > 0 && Granted(limits, start, clock[..used - 1]) == 0
        invariant Granted(limits, start, clock[..used]) == if granted then 1 else 0
      {
        PassAppended(limits, start, clock[..used], clock[used]);
        assert clock[..used] + [clock[used]] == clock[..used + 1];
        assert clock[used..][1..] == clock[used + 1..];
        granted := TryTake(clock[used]);
        used := used + 1;
      }
      assert clock[..|clock|] == clock;
    }
  }

  /** With a burst of at least one token and honest sleeps, a caller holding the lock is granted by its
      second pass. */
  lemma GrantedBySecondPass(p: Limits, b: Bucket, clock: seq<real>)
    requires Valid(p, b) && p.burst >= 1.0 && |clock| >= 2 && SleepsFully(p, b, clock)
    ensures Granted(p, b, clock[..2]) >= 1
  {
    assert clock[..2] == [clock[0], clock[1]] && clock[..2][1..] == [clock[1]];
    assert [clock[1]][1..] == [];
    if !Grants(p, b, clock[0]) {
      SleepIsExact(p, b, clock[0], clock[1]);
    }
  }

  lemma {:induction false} PassAppended(p: Limits, b: Bucket, times: seq<real>, now: real)
    ensures Passes(p, b, times + [now]) == Pass(p, Passes(p, b, times), now)
    ensures Granted(p, b, times + [now])
            == Granted(p, b, times) + if Grants(p, Passes(p, b, times), now) then 1 else 0
    decreases |times|
  {
    if times != [] {
      assert (times + [now])[1..] == times[1..] + [now];
      PassAppended(p, Pass(p, b, times[0]), times[1..], now);
    }
  }
}
