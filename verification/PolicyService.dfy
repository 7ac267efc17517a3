/** The policy service used by one caller at a time: every write commits and then invalidates. */
module PolicyService {
  import opened PolicyEngine
  import opened StableSort

  datatype Row = Row(id: nat, policy: Policy)

  function Policies(rows: seq<Row>): seq<Policy> {
    Map((r: Row) => r.policy, rows)
  }

  /** Position of a primary key, or the number of rows. */
  function Find(rows: seq<Row>, id: nat, from: nat := 0): (k: nat)
    requires from <= |rows|
    ensures from <= k <= |rows| && (k < |rows| ==> rows[k].id == id)
    ensures forall j :: from <= j < k ==> rows[j].id != id
    decreases |rows| - from
  {
    if from == |rows| || rows[from].id == id then from else Find(rows, id, from + 1)
  }

  class SecurityPolicyService {
    var rows: seq<Row>
    var nextId: nat
    const cache: PolicyCache

    /** The cache is due for a reload or holds the active policies. */
    ghost predicate Coherent()
      reads this, cache
    {
      cache.loadedAt == 0.0 || cache.policies == Active(Policies(rows))
    }

    constructor ()
      ensures Coherent() && rows == [] && fresh(cache)
    {
      rows := [];
      nextId := 1;
      cache := new PolicyCache();
    }

    method Create(policy: Policy) returns (id: nat)
      modifies this, cache
      ensures rows == old(rows) + [Row(id, policy)] && nextId == old(nextId) + 1 && id == old(nextId)
      ensures Coherent() && cache.loadedAt == 0.0
    {
      id := nextId;
      rows := rows + [Row(id, policy)];
      nextId := nextId + 1;
      cache.Invalidate();
    }

    /** `change` is the effect of the keyword arguments on the record. A missing id changes
        nothing, not even the cache. */
    method Update(id: nat, change: Policy -> Policy) returns (found: bool)
      requires Coherent()
      modifies this, cache
      ensures Coherent() && nextId == old(nextId)
      ensures found <==> exists r :: r in old(rows) && r.id == id
      ensures found ==> exists k :: 0 <= k < |old(rows)| && old(rows)[k].id == id &&
                                    rows == old(rows)[k := Row(id, change(old(rows)[k].policy))]
      ensures !found ==> rows == old(rows) && cache.loadedAt == old(cache.loadedAt)
    {
      var k := Find(rows, id);
      if k == |rows| {
        return false;
      }
      assert rows[k] in rows;
      rows := rows[k := Row(id, change(rows[k].policy))];
      cache.Invalidate();
      return true;
    }

    method Delete(id: nat) returns (found: bool)
      requires Coherent()
      modifies this, cache
      ensures Coherent() && nextId == old(nextId)
      ensures found <==> exists r :: r in old(rows) && r.id == id
      ensures found ==> exists k :: 0 <= k < |old(rows)| && old(rows)[k].id == id &&
                                    rows == old(rows)[..k] + old(rows)[k + 1..]
      ensures !found ==> rows == old(rows) && cache.loadedAt == old(cache.loadedAt)
    {
      var k := Find(rows, id);
      if k == |rows| {
        return false;
      }
      assert rows[k] in rows;
      rows := rows[..k] + rows[k + 1..];
      cache.Invalidate();
      return true;
    }

    /** Between such writes every request is answered as on the table itself. */
    method Evaluate(now: real, q: Query) returns (answer: Answer)
      requires Coherent() && now > TTL
      modifies cache
      ensures Coherent() && IsAnswer(Policies(rows), q, answer)
    {
      answer := cache.Evaluate(now, Policies(rows), q);
      ActiveAnswersAlike(Policies(rows), q, answer);
    }
  }
}
