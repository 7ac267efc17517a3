/** Delegations under concurrency. `delegate_task` reads the depth and inserts its row in two
    steps; here other calls may come in between. */
module DelegationRace {
  import opened Prelude
  import opened StableSort
  import opened Delegation

  /** The tables, and the rows of callers that have passed the guards and not inserted yet. */
  datatype System = System(store: Store, pending: map<nat, DelegationRow>)

  datatype Event =
    | Read(caller: nat, organization: nat, session: nat, from: nat, to: nat)
    | Insert(caller: nat)
    | Whole(call: Call)

  function Inserted(s: Store, d: DelegationRow): Store {
    s.(delegations := s.delegations + [d])
  }

  function Next(y: System, e: Event): System {
    match e
    case Read(caller, org, session, from, to) =>
      if caller in y.pending || Objection(y.store, org, session, from, to).Some? then y
      else y.(pending := y.pending[caller := NewRow(y.store.delegations, session, from, to)])
    case Insert(caller) =>
      if caller in y.pending then System(Inserted(y.store, y.pending[caller]), y.pending - {caller}) else y
    case Whole(c) => y.(store := Apply(y.store, c))
  }

  const START := System(Store([], [], []), map[])

  function Reached(events: seq<Event>): System {
    if events == [] then START else Next(Reached(events[..|events| - 1]), events[|events| - 1])
  }

  // ---- what every interleaving keeps ----

  ghost predicate HasDepth(ds: seq<DelegationRow>, session: nat, depth: int) {
    exists i :: 0 <= i < |ds| && ds[i].session == session && ds[i].depth == depth
  }

  /** The depth is between one and five, and one less occurs before it in the session. */
  ghost predicate Grounded(before: seq<DelegationRow>, d: DelegationRow) {
    1 <= d.depth <= MAX_AGENT_DELEGATIONS && (d.depth > 1 ==> HasDepth(before, d.session, d.depth - 1))
  }

  ghost predicate AllGrounded(ds: seq<DelegationRow>) {
    forall k :: 0 <= k < |ds| ==> Grounded(ds[..k], ds[k])
  }

  ghost predicate Proper(s: Store, d: DelegationRow) {
    d.session < |s.sessions| && d.from != d.to && Enrolled(s.participants, d.session, d.to)
  }

  /** Depths have no gaps and never exceed five, and every target is a participant other than
      the sender. Neither that depths are all different nor that there are at most five rows is
      claimed. */
  ghost predicate Inv(y: System) {
    && AllGrounded(y.store.delegations)
    && (forall d :: d in y.store.delegations ==> Proper(y.store, d))
    && (forall c :: c in y.pending ==> Grounded(y.store.delegations, y.pending[c]) && Proper(y.store, y.pending[c]))
  }

  lemma {:induction false} GroundedLater(before: seq<DelegationRow>, more: seq<DelegationRow>, d: DelegationRow)
    requires Grounded(before, d)
    ensures Grounded(before + more, d)
  {
    if d.depth > 1 {
      var i :| 0 <= i < |before| && before[i].session == d.session && before[i].depth == d.depth - 1;
      assert (before + more)[i] == before[i];
    }
  }

  lemma {:induction false} GroundedAppend(ds: seq<DelegationRow>, d: DelegationRow)
    requires AllGrounded(ds) && Grounded(ds, d)
    ensures AllGrounded(ds + [d])
  {
    forall k | 0 <= k < |ds| + 1 ensures Grounded((ds + [d])[..k], (ds + [d])[k]) {
      assert (ds + [d])[..k] == ds[..k];
    }
  }

  /** The row that a caller prepares is grounded in the rows it has read. */
  lemma {:induction false} NewRowGrounded(ds: seq<DelegationRow>, session: nat, from: nat, to: nat)
    requires AllGrounded(ds) && DepthOf(ds, session) < MAX_AGENT_DELEGATIONS
    ensures Grounded(ds, NewRow(ds, session, from, to))
  {
    var own := BySession(ds, session);
    if own != [] {
      MaxDepthMeaning(own);
      var i :| 0 <= i < |own| && own[i].depth == MaxDepth(own);
      FilterMembers(InSession(session), ds);
      assert own[i] in own;
      var k :| 0 <= k < |ds| && ds[k] == own[i];
      assert Grounded(ds[..k], ds[k]);
      assert HasDepth(ds, session, DepthOf(ds, session));
    }
  }

  lemma {:induction false} HasDepthUpdate(
      ds: seq<DelegationRow>, k: nat, status: string, session: nat, depth: int)
    requires k < |ds| && HasDepth(ds, session, depth)
    ensures HasDepth(ds[k := ds[k].(status := status)], session, depth)
  {
    var i :| 0 <= i < |ds| && ds[i].session == session && ds[i].depth == depth;
    var t := ds[k := ds[k].(status := status)];
    assert t[i].session == session && t[i].depth == depth;
  }

  lemma {:induction false} GroundedUpdate(ds: seq<DelegationRow>, k: nat, status: string, d: DelegationRow)
    requires k < |ds| && Grounded(ds, d)
    ensures Grounded(ds[k := ds[k].(status := status)], d)
  {
    if d.depth > 1 {
      HasDepthUpdate(ds, k, status, d.session, d.depth - 1);
    }
  }

  lemma {:induction false} AllGroundedUpdate(ds: seq<DelegationRow>, k: nat, status: string)
    requires k < |ds| && AllGrounded(ds)
    ensures AllGrounded(ds[k := ds[k].(status := status)])
  {
    var t := ds[k := ds[k].(status := status)];
    forall j | 0 <= j < |t| ensures Grounded(t[..j], t[j]) {
      assert Grounded(ds[..j], ds[j]);
      if k < j {
        GroundedUpdate(ds[..j], k, status, ds[j]);
        assert t[..j] == ds[..j][k := ds[..j][k].(status := status)];
      } else {
        assert t[..j] == ds[..j];
      }
    }
  }

  lemma {:induction false} InsertInv(y: System, caller: nat)
    requires Inv(y) && caller in y.pending
    ensures Inv(Next(y, Insert(caller)))
  {
    var ds, d := y.store.delegations, y.pending[caller];
    GroundedAppend(ds, d);
    forall c | c in y.pending && c != caller ensures Grounded(ds + [d], y.pending[c]) {
      GroundedLater(ds, [d], y.pending[c]);
    }
  }

  lemma {:induction false} CreateInv(y: System, c: Call)
    requires Inv(y) && c.Create?
    ensures Inv(Next(y, Whole(c)))
  {
    var new' := Enrolment(|y.store.sessions|, c.coordinator, c.agents);
    forall d: DelegationRow | Proper(y.store, d) ensures Proper(Apply(y.store, c), d) {
      EnrolledGrows(y.store.participants, new', d.session, d.to);
    }
  }

  lemma {:induction false} ProperUpdate(s: Store, c: Call)
    requires c.Resolve? && forall d :: d in s.delegations ==> Proper(s, d)
    ensures var t := Apply(s, c); forall d :: d in t.delegations ==> Proper(t, d)
  {
    var t := Apply(s, c);
    forall d | d in t.delegations ensures Proper(t, d) {
      var i :| 0 <= i < |t.delegations| && t.delegations[i] == d;
      assert Proper(s, s.delegations[i]);
    }
  }

  lemma {:induction false} ResolveInv(y: System, c: Call)
    requires Inv(y) && c.Resolve?
    ensures Inv(Next(y, Whole(c)))
  {
    var ds, k := y.store.delegations, c.delegation;
    if Resolvable(y.store, c.organization, c.session, k) {
      AllGroundedUpdate(ds, k, c.status);
      forall p | p in y.pending ensures Grounded(ds[k := ds[k].(status := c.status)], y.pending[p]) {
        GroundedUpdate(ds, k, c.status, y.pending[p]);
      }
      ProperUpdate(y.store, c);
    }
  }

  lemma {:induction false} ReadInv(y: System, e: Event)
    requires Inv(y) && e.Read?
    ensures Inv(Next(y, e))
  {
    if Objection(y.store, e.organization, e.session, e.from, e.to).None? {
      NewRowGrounded(y.store.delegations, e.session, e.from, e.to);
    }
  }

  /** A delegation in one piece is a read and an insert with nothing in between. */
  lemma {:induction false} DelegateInv(y: System, c: Call)
    requires Inv(y) && c.Delegate?
    ensures Inv(Next(y, Whole(c)))
  {
    if Objection(y.store, c.organization, c.session, c.from, c.to).None? {
      var ds, d := y.store.delegations, NewRow(y.store.delegations, c.session, c.from, c.to);
      NewRowGrounded(ds, c.session, c.from, c.to);
      GroundedAppend(ds, d);
      forall p | p in y.pending ensures Grounded(ds + [d], y.pending[p]) {
        GroundedLater(ds, [d], y.pending[p]);
      }
    }
  }

  /** Over every interleaving of any number of calls on any number of sessions. */
  lemma {:induction false} ConcurrentInv(events: seq<Event>)
    ensures Inv(Reached(events))
  {
    if events != [] {
      var y, e := Reached(events[..|events| - 1]), events[|events| - 1];
      ConcurrentInv(events[..|events| - 1]);
      match e
      case Read(_, _, _, _, _) => ReadInv(y, e);
      case Insert(caller) =>
        if caller in y.pending {
          InsertInv(y, caller);
        }
      case Whole(c) =>
        match c
        case Create(_, _, _) => CreateInv(y, c);
        case Delegate(_, _, _, _) => DelegateInv(y, c);
        case Resolve(_, _, _, _) => ResolveInv(y, c);
    }
  }

  // ---- what concurrency breaks ----

  /** An insert keeps the depths of its session at 1, 2, ..., k exactly when as many rows are
      there as when the depth was read: nothing was inserted in between. */
  lemma {:induction false} InsertInOrderExactly(was: Store, now: Store, session: nat, from: nat, to: nat)
    requires Counted(BySession(was.delegations, session)) && Counted(BySession(now.delegations, session))
    requires DepthOf(was.delegations, session) < MAX_AGENT_DELEGATIONS
    ensures var d := NewRow(was.delegations, session, from, to);
            Counted(BySession(Inserted(now, d).delegations, session)) <==>
            |BySession(now.delegations, session)| == |BySession(was.delegations, session)|
  {
    var d, own := NewRow(was.delegations, session, from, to), BySession(now.delegations, session);
    DepthIsCount(was.delegations, session);
    FilterAppend(InSession(session), now.delegations, [d]);
    assert BySession([d], session) == [d];
    assert (own + [d])[|own|].depth == |BySession(was.delegations, session)| + 1;
  }

  /** Two accepted delegations that both read before either inserts leave the depths of every
      session at 1, 2, ..., k exactly when they are on different sessions. */
  lemma {:induction false} ReadTogether(s: Store, d: DelegationRow, e: DelegationRow)
    requires Delegation.Inv(s)
    requires d == NewRow(s.delegations, d.session, d.from, d.to) && e == NewRow(s.delegations, e.session, e.from, e.to)
    requires d.depth <= MAX_AGENT_DELEGATIONS && e.depth <= MAX_AGENT_DELEGATIONS
    ensures (forall n: nat :: Counted(BySession(Inserted(Inserted(s, d), e).delegations, n))) <==>
            d.session != e.session
  {
    var t := Inserted(s, d);
    DepthIsCount(s.delegations, d.session);
    DepthIsCount(s.delegations, e.session);
    forall n: nat ensures Counted(BySession(t.delegations, n)) {
      assert Counted(BySession(s.delegations, n));
      AppendCounted(s.delegations, d, n);
    }
    FilterAppend(InSession(e.session), s.delegations, [d]);
    assert BySession([d], e.session) == if d.session == e.session then [d] else [];
    InsertInOrderExactly(s, t, e.session, e.from, e.to);
    if d.session != e.session {
      forall n: nat ensures Counted(BySession(Inserted(t, e).delegations, n)) {
        AppendCounted(t.delegations, e, n);
      }
    }
  }

  /** The number of rows is not limited at all: callers 0, 1, ..., n - 1 read, then all insert. */
  function Readers(n: nat): seq<Event> {
    if n == 0 then [Whole(Create(0, 0, [1]))] else Readers(n - 1) + [Read(n - 1, 0, 0, 0, 1)]
  }

  function Inserters(n: nat, m: nat): seq<Event> {
    if m == 0 then Readers(n) else Inserters(n, m - 1) + [Insert(m - 1)]
  }

  const FIRST_ROW := DelegationRow(0, 0, 1, 1, "PENDING")

  ghost predicate Waiting(y: System, from: nat, n: nat) {
    && y.store.sessions == [SessionRow(0, 0)]
    && y.store.participants == [Participant(0, 0, true), Participant(0, 1, false)]
    && forall c: nat :: (c in y.pending <==> from <= c < n) && (c in y.pending ==> y.pending[c] == FIRST_ROW)
  }

  ghost predicate AllWait(y: System, n: nat) {
    Waiting(y, 0, n) && y.store.delegations == []
  }

  lemma {:induction false} ReachedSnoc(events: seq<Event>, e: Event)
    ensures Reached(events + [e]) == Next(Reached(events), e)
  {
    assert (events + [e])[..|events|] == events;
  }

  lemma {:induction false} FirstSession()
    ensures AllWait(Reached(Readers(0)), 0)
  {
    var c := Create(0, 0, [1]);
    ReachedSnoc([], Whole(c));
    assert [] + [Whole(c)] == [Whole(c)];
    assert [1][..0] == [];
    assert Enrolment(0, 0, [1]) == [Participant(0, 0, true)] + [Participant(0, 1, false)];
  }

  lemma {:induction false} OneReads(y: System, n: nat)
    requires AllWait(y, n)
    ensures AllWait(Next(y, Read(n, 0, 0, 0, 1)), n + 1)
  {
    assert Participant(0, 1, false) in y.store.participants;
    assert NewRow([], 0, 0, 1) == FIRST_ROW;
  }

  lemma {:induction false} OneInserts(y: System, m: nat, n: nat)
    requires Waiting(y, m, n) && m < n
    ensures var z := Next(y, Insert(m));
            Waiting(z, m + 1, n) && z.store.delegations == y.store.delegations + [FIRST_ROW]
  {
  }

  lemma {:induction false} ReadersStep(n: nat)
    requires n > 0
    ensures Reached(Readers(n)) == Next(Reached(Readers(n - 1)), Read(n - 1, 0, 0, 0, 1))
  {
    ReachedSnoc(Readers(n - 1), Read(n - 1, 0, 0, 0, 1));
  }

  lemma {:induction false} InsertersStep(n: nat, m: nat)
    requires m > 0
    ensures Reached(Inserters(n, m)) == Next(Reached(Inserters(n, m - 1)), Insert(m - 1))
  {
    ReachedSnoc(Inserters(n, m - 1), Insert(m - 1));
  }

  lemma {:induction false} NextReads(n: nat)
    requires n > 0 && AllWait(Reached(Readers(n - 1)), n - 1)
    ensures AllWait(Reached(Readers(n)), n)
  {
    OneReads(Reached(Readers(n - 1)), n - 1);
    ReadersStep(n);
  }

  lemma {:induction false} AllRead(n: nat)
    ensures AllWait(Reached(Readers(n)), n)
  {
    if n == 0 {
      FirstSession();
    } else {
      AllRead(n - 1);
      NextReads(n);
    }
  }

  lemma {:induction false} AllInsert(n: nat, m: nat)
    requires m <= n
    ensures Waiting(Reached(Inserters(n, m)), m, n)
    ensures var ds := Reached(Inserters(n, m)).store.delegations;
            |ds| == m && forall d :: d in ds ==> d == FIRST_ROW
  {
    if m == 0 {
      AllRead(n);
    } else {
      AllInsert(n, m - 1);
      InsertersStep(n, m);
      OneInserts(Reached(Inserters(n, m - 1)), m - 1, n);
    }
  }

  /** For every number there is an interleaving that leaves that many delegations on one
      session, all of depth one: five is no limit. */
  lemma {:induction false} NoLimitOnRows(n: nat)
    ensures var ds := BySession(Reached(Inserters(n, n)).store.delegations, 0);
            |ds| == n && forall d :: d in ds ==> d.depth == 1
  {
    AllInsert(n, n);
    FilterAll(InSession(0), Reached(Inserters(n, n)).store.delegations);
  }
}
