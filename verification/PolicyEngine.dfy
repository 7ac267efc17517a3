/** Security policies: first-decisive-policy evaluation, and the 60-second cache in front of
    the policy table. */
module PolicyEngine {
  import opened StableSort

  /** `condition` stands for the JSON document of the row. */
  datatype Policy = Policy(
    name: string, resource: string, action: string, effect: string, condition: string, isActive: bool)

  /** What is asked for, and which conditions hold for the caller. */
  datatype Query = Query(resource: string, action: string, holds: string -> bool)

  const ALLOW := "allow"
  const DENY := "deny"
  const CONDITIONAL := "conditional"

  predicate IsActive(p: Policy) {
    p.isActive
  }

  /** `db.query(SecurityPolicy).filter_by(is_active=True).all()`. */
  function Active(table: seq<Policy>): seq<Policy> {
    Filter(IsActive, table)
  }

  lemma {:induction false} ActiveInFields(table: seq<Policy>)
    ensures Active(table) == Filter((p: Policy) => p.isActive, table)
  {
    SameFilter(IsActive, (p: Policy) => p.isActive, table);
  }

  /** `SecurityPolicy.matches`. */
  predicate Matches(p: Policy, q: Query) {
    p.isActive && p.resource == q.resource && p.action == q.action
  }

  /** A matching policy settles the request unless it is conditional and its condition fails,
      or its effect is none of the three known ones. */
  predicate Decisive(p: Policy, q: Query) {
    && p.isActive && p.resource == q.resource && p.action == q.action
    && (p.effect == "deny" || p.effect == "allow" || (p.effect == "conditional" && q.holds(p.condition)))
  }

  datatype Answer = Allowed | NotAllowed | Denied(policy: string)

  /** The answer is the effect of the first decisive policy, and "not allowed" without one. */
  ghost predicate IsAnswer(policies: seq<Policy>, q: Query, a: Answer) {
    if exists i :: FirstDecisive(policies, q, i) then
      exists i :: FirstDecisive(policies, q, i) &&
                  a == if policies[i].effect == "deny" then Denied(policies[i].name) else Allowed
    else a == NotAllowed
  }

  ghost predicate FirstDecisive(policies: seq<Policy>, q: Query, i: int) {
    && 0 <= i < |policies|
    && Decisive(policies[i], q)
    && forall j :: 0 <= j < i ==> !Decisive(policies[j], q)
  }

  method EvaluatePolicies(policies: seq<Policy>, q: Query)
    returns (answer: Answer)
    ensures IsAnswer(policies, q, answer)
  {
    for n := 0 to |policies|
      invariant forall j :: 0 <= j < n ==> !Decisive(policies[j], q)
    {
      var policy := policies[n];
      if !Matches(policy, q) {
        continue;
      }
      if policy.effect == DENY {
        assert FirstDecisive(policies, q, n);
        return Denied(policy.name);
      }
      if policy.effect == ALLOW {
        assert FirstDecisive(policies, q, n);
        return Allowed;
      }
      if policy.effect == CONDITIONAL {
        if q.holds(policy.condition) {
          assert FirstDecisive(policies, q, n);
          return Allowed;
        }
      }
    }
    return NotAllowed;
  }

  lemma {:induction false} AnswerUnique(policies: seq<Policy>, q: Query, a: Answer, b: Answer)
    requires IsAnswer(policies, q, a) && IsAnswer(policies, q, b)
    ensures a == b
  {
  }

  /** The answer in the fields of the rows: it is "not allowed" exactly when no row is active,
      names the resource and the action, and denies, allows, or is conditional with a condition
      that holds. */
  lemma {:induction false} NotAllowedInFields(policies: seq<Policy>, q: Query, a: Answer)
    requires IsAnswer(policies, q, a)
    ensures a.NotAllowed? <==>
            forall p :: p in policies && p.isActive && p.resource == q.resource && p.action == q.action ==>
              p.effect != "deny" && p.effect != "allow" && (p.effect == "conditional" ==> !q.holds(p.condition))
  {
    AnswerWhen(policies, q, a);
  }

  /** The first such row gives the answer. */
  lemma {:induction false} FirstRowAnswers(policies: seq<Policy>, q: Query, a: Answer, i: nat)
    requires IsAnswer(policies, q, a) && i < |policies|
    requires policies[i].isActive && policies[i].resource == q.resource && policies[i].action == q.action
    requires policies[i].effect in {"deny", "allow", "conditional"}
    requires policies[i].effect == "conditional" ==> q.holds(policies[i].condition)
    requires forall p :: p in policies[..i] && p.isActive && p.resource == q.resource && p.action == q.action ==>
               p.effect != "deny" && p.effect != "allow" && (p.effect == "conditional" ==> !q.holds(p.condition))
    ensures a == if policies[i].effect == "deny" then Denied(policies[i].name) else Allowed
  {
    forall j | 0 <= j < i ensures !Decisive(policies[j], q) {
      assert policies[j] in policies[..i];
    }
    assert FirstDecisive(policies, q, i);
  }

  lemma {:induction false} AnswerWhen(policies: seq<Policy>, q: Query, a: Answer)
    requires IsAnswer(policies, q, a)
    ensures a.NotAllowed? <==> forall p :: p in policies ==> !Decisive(p, q)
  {
    if p :| p in policies && Decisive(p, q) {
      var k :| 0 <= k < |policies| && policies[k] == p;
      var i := FindDecisive(policies, q, k);
    }
  }

  lemma {:induction false} FindDecisive(policies: seq<Policy>, q: Query, k: nat) returns (i: nat)
    requires k < |policies| && Decisive(policies[k], q)
    ensures FirstDecisive(policies, q, i)
  {
    i := k;
    if j: nat :| j < k && Decisive(policies[j], q) {
      i := FindDecisive(policies, q, j);
    }
  }

  ghost predicate DenyMatches(policies: seq<Policy>, q: Query, i: int) {
    && 0 <= i < |policies| && policies[i].effect == "deny"
    && policies[i].isActive && policies[i].resource == q.resource && policies[i].action == q.action
  }

  /** The documented promise "raises if a DENY policy matches" holds exactly when no matching
      allow, or conditional whose condition holds, comes before the first matching DENY. */
  lemma {:induction false} DenyRaisesExactlyWhenFirst(
      policies: seq<Policy>, q: Query, a: Answer)
    requires IsAnswer(policies, q, a)
    ensures a.Denied? <==>
            exists i :: DenyMatches(policies, q, i) &&
                        forall j :: 0 <= j < i ==> !Decisive(policies[j], q)
  {
    if i :| DenyMatches(policies, q, i) &&
            forall j :: 0 <= j < i ==> !Decisive(policies[j], q)
    {
      assert FirstDecisive(policies, q, i);
      var k :| FirstDecisive(policies, q, k) &&
               a == if policies[k].effect == DENY then Denied(policies[k].name) else Allowed;
      assert k == i;
    }
    if a.Denied? {
      var k :| FirstDecisive(policies, q, k) &&
               a == if policies[k].effect == DENY then Denied(policies[k].name) else Allowed;
      assert DenyMatches(policies, q, k);
    }
  }

  /** An allow listed before a deny hides it: the promise fails on this list. */
  lemma {:induction false} AllowHidesDeny(holds: string -> bool)
    ensures var ps := [Policy("a", "r", "x", ALLOW, "", true), Policy("d", "r", "x", DENY, "", true)];
            var q := Query("r", "x", holds);
            DenyMatches(ps, q, 1) && IsAnswer(ps, q, Allowed)
  {
    var ps := [Policy("a", "r", "x", ALLOW, "", true), Policy("d", "r", "x", DENY, "", true)];
    assert FirstDecisive(ps, Query("r", "x", holds), 0);
  }

  lemma {:induction false} AnswerStep(p: Policy, rest: seq<Policy>, q: Query, a: Answer)
    requires !Decisive(p, q)
    ensures IsAnswer([p] + rest, q, a) <==> IsAnswer(rest, q, a)
  {
    var all := [p] + rest;
    forall i ensures FirstDecisive(all, q, i + 1) <==> FirstDecisive(rest, q, i) {
      if FirstDecisive(all, q, i + 1) {
        assert forall j :: 0 <= j < i ==> rest[j] == all[j + 1];
      }
    }
    if i :| FirstDecisive(all, q, i) {
      assert FirstDecisive(rest, q, i - 1);
    }
    if i :| FirstDecisive(rest, q, i) {
      assert FirstDecisive(all, q, i + 1);
    }
  }

  lemma {:induction false} AnswerHead(p: Policy, rest: seq<Policy>, q: Query, a: Answer)
    requires Decisive(p, q)
    ensures IsAnswer([p] + rest, q, a) <==>
            a == if p.effect == DENY then Denied(p.name) else Allowed
  {
    assert FirstDecisive([p] + rest, q, 0);
  }

  /** Rows that settle nothing can be left out. */
  lemma {:induction false} KeptAnswersAlike(keep: Policy -> bool, table: seq<Policy>, q: Query, a: Answer)
    requires forall p :: p in table && !keep(p) ==> !Decisive(p, q)
    ensures IsAnswer(Filter(keep, table), q, a) <==> IsAnswer(table, q, a)
  {
    if table != [] {
      var p, rest := table[0], table[1..];
      assert table == [p] + rest;
      KeptAnswersAlike(keep, rest, q, a);
      if Decisive(p, q) {
        AnswerHead(p, rest, q, a);
        AnswerHead(p, Filter(keep, rest), q, a);
      } else {
        AnswerStep(p, rest, q, a);
        AnswerStep(p, Filter(keep, rest), q, a);
      }
    }
  }

  /** Leaving inactive rows out, as the query does, changes no answer. */
  lemma {:induction false} ActiveAnswersAlike(table: seq<Policy>, q: Query, a: Answer)
    ensures IsAnswer(Active(table), q, a) <==> IsAnswer(table, q, a)
  {
    KeptAnswersAlike(IsActive, table, q, a);
  }

  /** Nor do the rows for other resources or other actions matter. */
  lemma {:induction false} OthersAnswerNothing(table: seq<Policy>, q: Query, a: Answer)
    ensures IsAnswer(Filter((p: Policy) => p.resource == q.resource, table), q, a) <==> IsAnswer(table, q, a)
    ensures IsAnswer(Filter((p: Policy) => p.action == q.action, table), q, a) <==> IsAnswer(table, q, a)
  {
    KeptAnswersAlike((p: Policy) => p.resource == q.resource, table, q, a);
    KeptAnswersAlike((p: Policy) => p.action == q.action, table, q, a);
  }

  const TTL := 60.0

  predicate Expired(loadedAt: real, now: real) {
    now - loadedAt > TTL
  }

  /** The module-level cache. */
  class PolicyCache {
    var policies: seq<Policy>
    var loadedAt: real

    constructor ()
      ensures policies == [] && loadedAt == 0.0
    {
      policies := [];
      loadedAt := 0.0;
    }

    /** The locked part of `_load_policies`, with the clock reading taken before the lock. */
    method Load(now: real, table: seq<Policy>) returns (r: seq<Policy>)
      modifies this
      ensures r == policies
      ensures if now - old(loadedAt) > 60.0 then policies == Active(table) && loadedAt == now
              else policies == old(policies) && loadedAt == old(loadedAt)
      ensures now - old(loadedAt) > 60.0 ==> policies == Filter((p: Policy) => p.isActive, table)
    {
      ActiveInFields(table);
      if now - loadedAt > TTL {
        policies := Active(table);
        loadedAt := now;
      }
      r := policies;
    }

    /** `evaluate_policies`: load, then look for the first decisive policy. */
    method Evaluate(now: real, table: seq<Policy>, q: Query)
      returns (answer: Answer)
      modifies this
      ensures IsAnswer(if now - old(loadedAt) > 60.0 then table else old(policies), q, answer)
      ensures if now - old(loadedAt) > 60.0 then policies == Active(table) && loadedAt == now
              else policies == old(policies) && loadedAt == old(loadedAt)
    {
      var loaded := Load(now, table);
      answer := EvaluatePolicies(loaded, q);
      ActiveAnswersAlike(table, q, answer);
    }

    method Invalidate()
      modifies this
      ensures loadedAt == 0.0 && policies == old(policies)
    {
      loadedAt := 0.0;
    }
  }
}
