/**
  services/candidate_ledger.py: one row per claimed trade_id, the durable
  at-most-once gate in front of evaluation.
*/
module CandidateLedger {
  import opened Wrappers

  datatype Claimed = Claimed(ticker: Option<string>, claimedAt: real, decision: Option<string>)

  type Claims = map<string, Claimed>

  datatype Op = Claim(id: string, ticker: Option<string>, now: real) | RecordDecision(id: string, decision: string)

  function Apply(claims: Claims, op: Op): Claims {
    match op
    case Claim(id, ticker, now) => if id in claims then claims else claims[id := Claimed(ticker, now, None)]
    case RecordDecision(id, decision) =>
      if id in claims then claims[id := claims[id].(decision := Some(decision))] else claims
  }

  function Run(claims: Claims, ops: seq<Op>): Claims
    decreases |ops|
  {
    if ops == [] then claims else Run(Apply(claims, ops[0]), ops[1..])
  }

  /** How many of the claims of this trade_id answer True. */
  function Granted(claims: Claims, ops: seq<Op>, id: string): nat
    decreases |ops|
  {
    if ops == [] then 0
    else (if ops[0].Claim? && ops[0].id == id && id !in claims then 1 else 0) + Granted(Apply(claims, ops[0]), ops[1..], id)
  }

  predicate HasClaim(ops: seq<Op>, id: string) {
    exists i :: 0 <= i < |ops| && ops[i].Claim? && ops[i].id == id
  }

  /** Over any interleaving of claims and decisions, the first claim of a trade_id answers True if it
      has no row yet, and no other ever does. */
  lemma {:induction false} ClaimedAtMostOnce(claims: Claims, ops: seq<Op>, id: string)
    ensures Granted(claims, ops, id) == if id !in claims && HasClaim(ops, id) then 1 else 0
    decreases |ops|
  {
    if ops != [] {
      ClaimedAtMostOnce(Apply(claims, ops[0]), ops[1..], id);
      if HasClaim(ops[1..], id) {
        var i :| 0 <= i < |ops[1..]| && ops[1..][i].Claim? && ops[1..][i].id == id;
        assert ops[i + 1].Claim? && ops[i + 1].id == id;
      }
      if HasClaim(ops, id) && !(ops[0].Claim? && ops[0].id == id) {
        var i :| 0 <= i < |ops| && ops[i].Claim? && ops[i].id == id;
        assert ops[1..][i - 1] == ops[i];
      }
    }
  }

  /** A claim is never re-stamped: who owns a trade_id, and since when, is decided once. */
  lemma {:induction false} ClaimNeverRestamped(claims: Claims, ops: seq<Op>, id: string)
    requires id in claims
    ensures id in Run(claims, ops)
    ensures Run(claims, ops)[id].ticker == claims[id].ticker && Run(claims, ops)[id].claimedAt == claims[id].claimedAt
    decreases |ops|
  {
    if ops != [] {
      ClaimNeverRestamped(Apply(claims, ops[0]), ops[1..], id);
    }
  }

  lemma LaterClaims(ops: seq<Op>, id: string, i: nat)
    requires 0 < i <= |ops| && !HasClaim(ops[..i], id)
    ensures !HasClaim(ops[1..][..i - 1], id)
  {
    var rest := ops[1..][..i - 1];
    forall j | 0 <= j < |rest|
      ensures !(rest[j].Claim? && rest[j].id == id)
    {
      assert rest[j] == ops[..i][j + 1];
    }
  }

  /** The row a trade_id ends with names the ticker and time of its first claim, whatever came after. */
  lemma {:induction false} FirstClaimWins(claims: Claims, ops: seq<Op>, id: string, i: nat)
    requires id !in claims && i < |ops| && ops[i].Claim? && ops[i].id == id && !HasClaim(ops[..i], id)
    ensures id in Run(claims, ops)
    ensures Run(claims, ops)[id].ticker == ops[i].ticker && Run(claims, ops)[id].claimedAt == ops[i].now
    decreases |ops|
  {
    var next := Apply(claims, ops[0]);
    if i == 0 {
      ClaimNeverRestamped(next, ops[1..], id);
    } else {
      assert ops[..i][0] == ops[0];
      LaterClaims(ops, id, i);
      FirstClaimWins(next, ops[1..], id, i - 1);
    }
  }

  /** The decision recorded last stands through any claims and any decisions on other trade_ids; one recorded
      for a trade_id nobody claimed leaves no trace. */
  lemma {:induction false} LastDecisionStands(claims: Claims, id: string, decision: string, ops: seq<Op>)
    requires forall i :: 0 <= i < |ops| && ops[i].RecordDecision? ==> ops[i].id != id
    ensures var after := Run(Apply(claims, RecordDecision(id, decision)), ops);
            && (id in claims ==> id in after && after[id].decision == Some(decision))
            && (id !in claims ==> Apply(claims, RecordDecision(id, decision)) == claims)
  {
    if id in claims {
      DecisionKept(Apply(claims, RecordDecision(id, decision)), id, ops);
    }
  }

  lemma {:induction false} DecisionKept(claims: Claims, id: string, ops: seq<Op>)
    requires id in claims && forall i :: 0 <= i < |ops| && ops[i].RecordDecision? ==> ops[i].id != id
    ensures id in Run(claims, ops) && Run(claims, ops)[id].decision == claims[id].decision
    decreases |ops|
  {
    if ops != [] {
      assert ops[0].RecordDecision? ==> ops[0].id != id;
      DecisionKept(Apply(claims, ops[0]), id, ops[1..]);
    }
  }

  class Ledger {
    var claims: Claims
    var duplicates: nat

    constructor ()
      ensures claims == map[] && duplicates == 0
    {
      claims, duplicates := map[], 0;
    }

    method Claim(id: string, ticker: Option<string>, now: real) returns (claimed: bool)
      modifies this
      ensures claims == Apply(old(claims), Op.Claim(id, ticker, now))
      ensures claims == if claimed then old(claims)[id := Claimed(ticker, now, None)] else old(claims)
      ensures claimed == (id !in old(claims))
      ensures |claims| + duplicates == |old(claims)| + old(duplicates) + 1
    {
      claimed := id !in claims;
      if claimed {
        claims := claims[id := Claimed(ticker, now, None)];
      } else {
        duplicates := duplicates + 1;
      }
    }

    method RecordDecision(id: string, decision: string)
      modifies `claims
      ensures claims == Apply(old(claims), Op.RecordDecision(id, decision))
      ensures claims.Keys == old(claims).Keys
    {
      if id in claims {
        claims := claims[id := claims[id].(decision := Some(decision))];
      }
    }
  }
}
