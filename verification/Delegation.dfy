/** Collaboration sessions: enrolment, delegation with its depth limit, and resolution. */
module Delegation {
  import opened Prelude
  import opened StableSort

  const MAX_AGENT_DELEGATIONS := 5

  /** Rows of the three tables; sessions and delegations are identified by position. */
  datatype SessionRow = SessionRow(organization: nat, coordinator: nat)

  datatype Participant = Participant(session: nat, agent: nat, coordinates: bool)

  datatype DelegationRow = DelegationRow(session: nat, from: nat, to: nat, depth: int, status: string)

  datatype Store = Store(sessions: seq<SessionRow>, participants: seq<Participant>, delegations: seq<DelegationRow>)

  datatype Error = SessionNotFound | LimitExceeded | NotParticipant | SelfDelegation | DelegationNotFound

  // ---- queries ----

  predicate Found(s: Store, organization: nat, session: nat) {
    session < |s.sessions| && s.sessions[session].organization == organization
  }

  predicate Enrolled(participants: seq<Participant>, session: nat, agent: nat) {
    exists p :: p in participants && p.session == session && p.agent == agent
  }

  function InSession(session: nat): DelegationRow -> bool {
    (d: DelegationRow) => d.session == session
  }

  function BySession(delegations: seq<DelegationRow>, session: nat): seq<DelegationRow> {
    Filter(InSession(session), delegations)
  }

  function MaxDepth(ds: seq<DelegationRow>): int
    requires ds != []
  {
    var last := ds[|ds| - 1].depth;
    if |ds| == 1 then last
    else var front := MaxDepth(ds[..|ds| - 1]); if last > front then last else front
  }

  lemma {:induction false} MaxDepthMeaning(ds: seq<DelegationRow>)
    requires ds != []
    ensures exists i :: 0 <= i < |ds| && ds[i].depth == MaxDepth(ds)
    ensures forall i :: 0 <= i < |ds| ==> ds[i].depth <= MaxDepth(ds)
  {
    var last := |ds| - 1;
    if last > 0 {
      MaxDepthMeaning(ds[..last]);
      var i :| 0 <= i < last && ds[..last][i].depth == MaxDepth(ds[..last]);
      assert ds[i].depth == MaxDepth(ds[..last]);
      assert forall j :: 0 <= j < last ==> ds[j] == ds[..last][j];
    }
    assert ds[last].depth == ds[last].depth;
  }

  function DepthOf(delegations: seq<DelegationRow>, session: nat): int {
    var ds := BySession(delegations, session);
    if ds == [] then 0 else MaxDepth(ds)
  }

  // ---- the operations on values ----

  datatype Call =
    | Create(organization: nat, coordinator: nat, agents: seq<nat>)
    | Delegate(organization: nat, session: nat, from: nat, to: nat)
    | Resolve(organization: nat, session: nat, delegation: nat, status: string)

  function Enrolment(session: nat, coordinator: nat, agents: seq<nat>): seq<Participant> {
    if agents == [] then [Participant(session, coordinator, true)]
    else
      var last := agents[|agents| - 1];
      Enrolment(session, coordinator, agents[..|agents| - 1]) +
      if last != coordinator then [Participant(session, last, false)] else []
  }

  /** The guards of `delegate_task`, in their order. */
  function Objection(s: Store, organization: nat, session: nat, from: nat, to: nat): Option<Error> {
    if !Found(s, organization, session) then Some(SessionNotFound)
    else if DepthOf(s.delegations, session) >= MAX_AGENT_DELEGATIONS then Some(LimitExceeded)
    else if !Enrolled(s.participants, session, to) then Some(NotParticipant)
    else if from == to then Some(SelfDelegation)
    else None
  }

  function NewRow(delegations: seq<DelegationRow>, session: nat, from: nat, to: nat): DelegationRow {
    DelegationRow(session, from, to, DepthOf(delegations, session) + 1, "PENDING")
  }

  predicate Resolvable(s: Store, organization: nat, session: nat, k: nat) {
    Found(s, organization, session) && k < |s.delegations| && s.delegations[k].session == session
  }

  function Apply(s: Store, c: Call): Store {
    match c
    case Create(org, coordinator, agents) =>
      s.(sessions := s.sessions + [SessionRow(org, coordinator)],
         participants := s.participants + Enrolment(|s.sessions|, coordinator, agents))
    case Delegate(org, session, from, to) =>
      if Objection(s, org, session, from, to).Some? then s
      else s.(delegations := s.delegations + [NewRow(s.delegations, session, from, to)])
    case Resolve(org, session, k, status) =>
      if Resolvable(s, org, session, k) then
        s.(delegations := s.delegations[k := s.delegations[k].(status := status)])
      else s
  }

  function Run(calls: seq<Call>): Store {
    if calls == [] then Store([], [], []) else Apply(Run(calls[..|calls| - 1]), calls[|calls| - 1])
  }

  // ---- what every run keeps ----

  /** The depths of a session are 1, 2, ..., k in creation order, with k at most five. */
  ghost predicate Counted(ds: seq<DelegationRow>) {
    |ds| <= 5 && forall i :: 0 <= i < |ds| ==> ds[i].depth == i + 1
  }

  ghost predicate Inv(s: Store) {
    && (forall n: nat :: Counted(BySession(s.delegations, n)))
    && (forall d :: d in s.delegations ==>
          d.session < |s.sessions| && d.from != d.to && Enrolled(s.participants, d.session, d.to))
  }

  lemma {:induction false} CountedMax(ds: seq<DelegationRow>)
    requires ds != [] && forall i :: 0 <= i < |ds| ==> ds[i].depth == i + 1
    ensures MaxDepth(ds) == |ds|
  {
    if |ds| > 1 {
      CountedMax(ds[..|ds| - 1]);
    }
  }

  lemma {:induction false} DepthIsCount(delegations: seq<DelegationRow>, session: nat)
    requires Counted(BySession(delegations, session))
    ensures DepthOf(delegations, session) == |BySession(delegations, session)|
  {
    var ds := BySession(delegations, session);
    if ds != [] {
      CountedMax(ds);
    }
  }

  /** Changing the status of a row changes no depth and moves no row. */
  lemma {:induction false} ResolveKeepsRows(delegations: seq<DelegationRow>, k: nat, status: string, session: nat)
    requires k < |delegations|
    ensures var after := BySession(delegations[k := delegations[k].(status := status)], session);
            var before := BySession(delegations, session);
            && |after| == |before|
            && (forall i :: 0 <= i < |after| ==> after[i].(status := "") == before[i].(status := ""))
            && (delegations[k].session != session ==> after == before)
  {
    var d' := delegations[k].(status := status);
    if k == 0 {
      assert delegations[0 := d'][1..] == delegations[1..];
    } else {
      assert delegations[k := d'][1..] == delegations[1..][k - 1 := d'];
      ResolveKeepsRows(delegations[1..], k - 1, status, session);
    }
  }

  lemma {:induction false} DelegateInv(s: Store, d: DelegationRow)
    requires Inv(s) && d.session < |s.sessions| && d.from != d.to && Enrolled(s.participants, d.session, d.to)
    requires d.depth == DepthOf(s.delegations, d.session) + 1 <= MAX_AGENT_DELEGATIONS
    ensures Inv(s.(delegations := s.delegations + [d]))
  {
    var after := s.delegations + [d];
    DepthIsCount(s.delegations, d.session);
    forall n: nat ensures Counted(BySession(after, n)) {
      AppendCounted(s.delegations, d, n);
    }
  }

  lemma {:induction false} AppendCounted(ds: seq<DelegationRow>, d: DelegationRow, n: nat)
    requires Counted(BySession(ds, n))
    requires d.session == n ==> d.depth == |BySession(ds, n)| + 1 <= MAX_AGENT_DELEGATIONS
    ensures Counted(BySession(ds + [d], n))
  {
    FilterAppend(InSession(n), ds, [d]);
    assert BySession([d], n) == if d.session == n then [d] else [];
  }

  lemma {:induction false} ResolveInv(s: Store, k: nat, status: string)
    requires Inv(s) && k < |s.delegations|
    ensures Inv(s.(delegations := s.delegations[k := s.delegations[k].(status := status)]))
  {
    var after := s.delegations[k := s.delegations[k].(status := status)];
    forall n: nat ensures Counted(BySession(after, n)) {
      ResolveKeepsRows(s.delegations, k, status, n);
      var x, y := BySession(after, n), BySession(s.delegations, n);
      assert Counted(y);
      forall i | 0 <= i < |x| ensures x[i].depth == i + 1 {
        assert x[i].(status := "").depth == y[i].(status := "").depth;
      }
    }
    forall d | d in after
      ensures d.session < |s.sessions| && d.from != d.to && Enrolled(s.participants, d.session, d.to)
    {
      var i :| 0 <= i < |after| && after[i] == d;
      assert s.delegations[i] in s.delegations;
    }
  }

  lemma {:induction false} EnrolledGrows(a: seq<Participant>, b: seq<Participant>, session: nat, agent: nat)
    requires Enrolled(a, session, agent)
    ensures Enrolled(a + b, session, agent)
  {
  }

  lemma {:induction false} ApplyInv(s: Store, c: Call)
    requires Inv(s)
    ensures Inv(Apply(s, c))
  {
    match c
    case Create(_, coordinator, agents) =>
      forall d | d in s.delegations
        ensures Enrolled(s.participants + Enrolment(|s.sessions|, coordinator, agents), d.session, d.to)
      {
        EnrolledGrows(s.participants, Enrolment(|s.sessions|, coordinator, agents), d.session, d.to);
      }
    case Delegate(org, session, from, to) =>
      if Objection(s, org, session, from, to).None? {
        DelegateInv(s, NewRow(s.delegations, session, from, to));
      }
    case Resolve(org, session, k, status) =>
      if Resolvable(s, org, session, k) {
        ResolveInv(s, k, status);
      }
  }

  /** Over every run, on any number of sessions. */
  lemma {:induction false} RunInv(calls: seq<Call>)
    ensures Inv(Run(calls))
  {
    if calls != [] {
      RunInv(calls[..|calls| - 1]);
      ApplyInv(Run(calls[..|calls| - 1]), calls[|calls| - 1]);
    }
  }

  /** A delegation is accepted exactly when the session is found, fewer than five delegations
      were ever accepted on it, and the target is a participant other than the sender. Resolved
      delegations keep counting. */
  lemma {:induction false} AcceptedExactly(calls: seq<Call>, organization: nat, session: nat, from: nat, to: nat)
    ensures var s := Run(calls);
            Objection(s, organization, session, from, to).None? <==>
            && Found(s, organization, session)
            && |BySession(s.delegations, session)| < MAX_AGENT_DELEGATIONS
            && Enrolled(s.participants, session, to) && from != to
  {
    RunInv(calls);
    DepthIsCount(Run(calls).delegations, session);
  }

  // ---- the calls in the fields of the rows ----

  lemma {:induction false} BySessionInFields(delegations: seq<DelegationRow>, session: nat)
    ensures BySession(delegations, session) == Filter((d: DelegationRow) => d.session == session, delegations)
  {
    SameFilter(InSession(session), (d: DelegationRow) => d.session == session, delegations);
  }

  /** Over every run: every target is a participant of its session other than the sender. */
  lemma {:induction false} TargetsInFields(calls: seq<Call>)
    ensures forall d :: d in Run(calls).delegations ==>
              && d.from != d.to && d.session < |Run(calls).sessions|
              && exists p :: p in Run(calls).participants && p.session == d.session && p.agent == d.to
  {
    RunInv(calls);
  }

  ghost function Listed(session: nat, coordinator: nat, agents: seq<nat>): seq<Participant> {
    Map((a: nat) => Participant(session, a, false), Filter((a: nat) => a != coordinator, agents))
  }

  lemma {:induction false} ListedSnoc(session: nat, coordinator: nat, front: seq<nat>, last: nat)
    ensures Listed(session, coordinator, front + [last]) ==
            Listed(session, coordinator, front) +
            if last != coordinator then [Participant(session, last, false)] else []
  {
    FilterAppend((a: nat) => a != coordinator, front, [last]);
  }

  lemma {:induction false} EnrolmentInFields(session: nat, coordinator: nat, agents: seq<nat>)
    ensures Enrolment(session, coordinator, agents) ==
            [Participant(session, coordinator, true)] + Listed(session, coordinator, agents)
  {
    if agents != [] {
      var front, last := agents[..|agents| - 1], agents[|agents| - 1];
      EnrolmentInFields(session, coordinator, front);
      assert agents == front + [last];
      ListedSnoc(session, coordinator, front, last);
    }
  }

  /** A new session: its row, the coordinator, and every other listed agent in order. */
  lemma {:induction false} CreateInFields(s: Store, organization: nat, coordinator: nat, agents: seq<nat>)
    ensures var t, n := Apply(s, Create(organization, coordinator, agents)), |s.sessions|;
            && t.sessions == s.sessions + [SessionRow(organization, coordinator)]
            && t.delegations == s.delegations
            && t.participants ==
               s.participants + ([Participant(n, coordinator, true)] + Listed(n, coordinator, agents))
  {
    EnrolmentInFields(|s.sessions|, coordinator, agents);
  }

  ghost predicate Accepts(s: Store, organization: nat, session: nat, from: nat, to: nat) {
    && session < |s.sessions| && s.sessions[session].organization == organization && from != to
    && |Filter((d: DelegationRow) => d.session == session, s.delegations)| < 5
    && exists p :: p in s.participants && p.session == session && p.agent == to
  }

  lemma {:induction false} AcceptedInFields(calls: seq<Call>, organization: nat, session: nat, from: nat, to: nat)
    ensures Objection(Run(calls), organization, session, from, to).None? <==>
            Accepts(Run(calls), organization, session, from, to)
  {
    AcceptedExactly(calls, organization, session, from, to);
    BySessionInFields(Run(calls).delegations, session);
  }

  /** A delegation is accepted exactly when the session exists in the organization, has fewer than
      five delegations, and the target is a participant other than the sender; it is then appended
      as a pending row, numbered after those of its session. */
  lemma {:induction false} DelegateInFields(calls: seq<Call>, organization: nat, session: nat, from: nat, to: nat)
    ensures var s := Run(calls);
            var t := Apply(s, Delegate(organization, session, from, to));
            var own := |Filter((d: DelegationRow) => d.session == session, s.delegations)|;
            && t.sessions == s.sessions && t.participants == s.participants
            && t.delegations ==
               if Accepts(s, organization, session, from, to)
               then s.delegations + [DelegationRow(session, from, to, own + 1, "PENDING")] else s.delegations
  {
    RunInv(calls);
    DepthIsCount(Run(calls).delegations, session);
    AcceptedInFields(calls, organization, session, from, to);
    BySessionInFields(Run(calls).delegations, session);
  }

  /** A resolved delegation of the session gets the given status; nothing else changes. */
  lemma {:induction false} ResolveInFields(s: Store, organization: nat, session: nat, k: nat, status: string)
    ensures var t := Apply(s, Resolve(organization, session, k, status));
            && t.sessions == s.sessions && t.participants == s.participants && |t.delegations| == |s.delegations|
            && forall i :: 0 <= i < |t.delegations| ==>
                 t.delegations[i] ==
                 if i == k && s.delegations[k].session == session && session < |s.sessions| &&
                    s.sessions[session].organization == organization
                 then s.delegations[k].(status := status) else s.delegations[i]
  {
  }

  // ---- sessions do not affect each other ----

  /** A delegate or resolve call on one session leaves every other session's rows alone, and a
      new session starts without delegations. */
  lemma {:induction false} OthersUntouched(s: Store, c: Call, other: nat)
    requires Inv(s) && (c.Create? ==> other <= |s.sessions|) && (!c.Create? ==> other != c.session)
    ensures BySession(Apply(s, c).delegations, other) == BySession(s.delegations, other)
    ensures c.Create? && other == |s.sessions| ==> BySession(s.delegations, other) == []
  {
    match c
    case Create(_, _, _) =>
      if other == |s.sessions| {
        FilterOut(InSession(other), s.delegations);
      }
    case Delegate(org, session, from, to) =>
      if Objection(s, org, session, from, to).None? {
        FilterAppend(InSession(other), s.delegations, [NewRow(s.delegations, session, from, to)]);
      }
    case Resolve(org, session, k, status) =>
      if Resolvable(s, org, session, k) {
        ResolveKeepsRows(s.delegations, k, status, other);
      }
  }

  /** The id that delegation `k` has among the rows of its session alone; an id that is not one
      of the session's is sent past the end. */
  function OwnId(delegations: seq<DelegationRow>, session: nat, k: nat): nat {
    if k < |delegations| && delegations[k].session == session then |BySession(delegations[..k], session)|
    else |BySession(delegations, session)|
  }

  /** The calls that are left when those on other sessions never happen: all creations, so that
      sessions keep their ids, and the calls on `session`, with delegation ids renumbered. */
  function Alone(calls: seq<Call>, session: nat): seq<Call> {
    if calls == [] then []
    else
      var front, c := calls[..|calls| - 1], calls[|calls| - 1];
      Alone(front, session) +
      match c
      case Create(_, _, _) => [c]
      case Delegate(_, n, _, _) => if n == session then [c] else []
      case Resolve(_, n, k, _) =>
        if n == session then [c.(delegation := OwnId(Run(front).delegations, session, k))] else []
  }

  /** A store in which only this session has delegations. */
  function Only(s: Store, session: nat): Store {
    s.(delegations := BySession(s.delegations, session))
  }

  lemma {:induction false} RunSnoc(calls: seq<Call>, c: Call)
    ensures Run(calls + [c]) == Apply(Run(calls), c)
  {
    assert (calls + [c])[..|calls|] == calls;
  }

  lemma {:induction false} FilterTwice(ds: seq<DelegationRow>, session: nat)
    ensures BySession(BySession(ds, session), session) == BySession(ds, session)
  {
    FilterMembers(InSession(session), ds);
    FilterAll(InSession(session), BySession(ds, session));
  }

  /** The other sessions' rows play no part in any answer. */
  lemma {:induction false} SameAnswers(s: Store, organization: nat, session: nat, from: nat, to: nat, k: nat)
    ensures Objection(Only(s, session), organization, session, from, to) ==
            Objection(s, organization, session, from, to)
    ensures Resolvable(Only(s, session), organization, session, OwnId(s.delegations, session, k)) <==>
            Resolvable(s, organization, session, k)
  {
    FilterTwice(s.delegations, session);
    if k < |s.delegations| && s.delegations[k].session == session {
      OwnIdFinds(s.delegations, session, k);
    }
  }

  lemma {:induction false} OwnIdFinds(ds: seq<DelegationRow>, session: nat, k: nat)
    requires k < |ds| && ds[k].session == session
    ensures OwnId(ds, session, k) < |BySession(ds, session)|
    ensures BySession(ds, session)[OwnId(ds, session, k)] == ds[k]
  {
    SplitAt(ds, session, k, ds[k]);
    assert ds[k := ds[k]] == ds;
  }

  lemma {:induction false} SplitAt(ds: seq<DelegationRow>, session: nat, k: nat, d: DelegationRow)
    requires k < |ds| && d.session == session
    ensures BySession(ds[k := d], session) ==
            BySession(ds[..k], session) + [d] + BySession(ds[k + 1..], session)
  {
    assert ds[k := d] == ds[..k] + ([d] + ds[k + 1..]);
    FilterAppend(InSession(session), ds[..k], [d] + ds[k + 1..]);
    FilterAppend(InSession(session), [d], ds[k + 1..]);
  }

  lemma {:induction false} ResolveOwn(ds: seq<DelegationRow>, session: nat, k: nat, d: DelegationRow)
    requires k < |ds| && ds[k].session == session && d.session == session
    ensures OwnId(ds, session, k) < |BySession(ds, session)|
    ensures BySession(ds[k := d], session) == BySession(ds, session)[OwnId(ds, session, k) := d]
  {
    OwnIdFinds(ds, session, k);
    SplitAt(ds, session, k, d);
    SplitAt(ds, session, k, ds[k]);
    assert ds[k := ds[k]] == ds;
  }

  lemma {:induction false} DelegateOnly(s: Store, organization: nat, session: nat, from: nat, to: nat)
    ensures var c := Delegate(organization, session, from, to);
            Only(Apply(s, c), session) == Apply(Only(s, session), c)
  {
    SameAnswers(s, organization, session, from, to, 0);
    FilterTwice(s.delegations, session);
    FilterAppend(InSession(session), s.delegations, [NewRow(s.delegations, session, from, to)]);
  }

  lemma {:induction false} ResolveOnly(s: Store, organization: nat, session: nat, k: nat, status: string)
    ensures Only(Apply(s, Resolve(organization, session, k, status)), session) ==
            Apply(Only(s, session), Resolve(organization, session, OwnId(s.delegations, session, k), status))
  {
    SameAnswers(s, organization, session, 0, 0, k);
    if Resolvable(s, organization, session, k) {
      OwnIdFinds(s.delegations, session, k);
      ResolveOwn(s.delegations, session, k, s.delegations[k].(status := status));
    }
  }

  lemma {:induction false} OtherOnly(s: Store, c: Call, session: nat)
    requires Inv(s) && !c.Create? && c.session != session
    ensures Only(Apply(s, c), session) == Only(s, session)
  {
    OthersUntouched(s, c, session);
  }

  /** Over every run: what a session looks like is what it would look like if the calls on
      other sessions had never been made. */
  lemma {:induction false} Independent(calls: seq<Call>, session: nat)
    ensures Run(Alone(calls, session)) == Only(Run(calls), session)
  {
    if calls != [] {
      var front, c := calls[..|calls| - 1], calls[|calls| - 1];
      Independent(front, session);
      RunInv(front);
      IndependentStep(front, c, session);
    }
  }

  lemma {:induction false} IndependentStep(front: seq<Call>, c: Call, session: nat)
    requires Run(Alone(front, session)) == Only(Run(front), session) && Inv(Run(front))
    ensures Run(Alone(front + [c], session)) == Only(Run(front + [c]), session)
  {
    var s := Run(front);
    RunSnoc(front, c);
    assert (front + [c])[..|front|] == front;
    match c
    case Create(_, _, _) =>
      RunSnoc(Alone(front, session), c);
    case Delegate(org, n, from, to) =>
      if n == session {
        RunSnoc(Alone(front, session), c);
        DelegateOnly(s, org, session, from, to);
      } else {
        OtherOnly(s, c, session);
        assert Alone(front + [c], session) == Alone(front, session);
      }
    case Resolve(org, n, k, status) =>
      if n == session {
        RunSnoc(Alone(front, session), Resolve(org, session, OwnId(s.delegations, session, k), status));
        ResolveOnly(s, org, session, k, status);
      } else {
        OtherOnly(s, c, session);
        assert Alone(front + [c], session) == Alone(front, session);
      }
  }

  /** So every delegate and resolve call is answered as if the calls on other sessions had never
      been made. */
  lemma {:induction false} IndependentAnswers(
      calls: seq<Call>, organization: nat, session: nat, from: nat, to: nat, k: nat)
    ensures var s, alone := Run(calls), Run(Alone(calls, session));
            && Objection(alone, organization, session, from, to) == Objection(s, organization, session, from, to)
            && (Resolvable(alone, organization, session, OwnId(s.delegations, session, k)) <==>
                Resolvable(s, organization, session, k))
  {
    Independent(calls, session);
    SameAnswers(Run(calls), organization, session, from, to, k);
  }

  // ---- the service ----

  datatype Reply = Ok(id: nat) | Refused(error: Error)

  class MultiAgentService {
    var sessions: seq<SessionRow>
    var participants: seq<Participant>
    var delegations: seq<DelegationRow>

    ghost function Current(): Store
      reads this
    {
      Store(sessions, participants, delegations)
    }

    constructor ()
      ensures Current() == Store([], [], [])
    {
      sessions, participants, delegations := [], [], [];
    }

    /** Enrols the coordinator and then every other agent of the list, repeats included. */
    method CreateSession(organization: nat, coordinator: nat, agents: seq<nat>) returns (id: nat)
      modifies this
      ensures Current() == Apply(old(Current()), Create(organization, coordinator, agents))
      ensures id == |old(sessions)|
    {
      id := |sessions|;
      sessions := sessions + [SessionRow(organization, coordinator)];
      participants := participants + [Participant(id, coordinator, true)];
      for i := 0 to |agents|
        invariant sessions == old(sessions) + [SessionRow(organization, coordinator)] && delegations == old(delegations)
        invariant participants == old(participants) + Enrolment(id, coordinator, agents[..i])
      {
        assert agents[..i + 1][..i] == agents[..i];
        if agents[i] != coordinator {
          participants := participants + [Participant(id, agents[i], false)];
        }
      }
      assert agents[..|agents|] == agents;
    }

    method DelegateTask(organization: nat, session: nat, from: nat, to: nat) returns (reply: Reply)
      modifies this
      ensures Current() == Apply(old(Current()), Delegate(organization, session, from, to))
      ensures reply == match Objection(old(Current()), organization, session, from, to)
                       case Some(e) => Refused(e)
                       case None => Ok(|old(delegations)|)
    {
      if session >= |sessions| || sessions[session].organization != organization {
        return Refused(SessionNotFound);
      }
      var depth := DepthOf(delegations, session);
      if depth >= MAX_AGENT_DELEGATIONS {
        return Refused(LimitExceeded);
      }
      if !Enrolled(participants, session, to) {
        return Refused(NotParticipant);
      }
      if from == to {
        return Refused(SelfDelegation);
      }
      reply := Ok(|delegations|);
      delegations := delegations + [DelegationRow(session, from, to, depth + 1, "PENDING")];
    }

    method ResolveDelegation(organization: nat, session: nat, id: nat, status: string) returns (reply: Reply)
      modifies this
      ensures Current() == Apply(old(Current()), Resolve(organization, session, id, status))
      ensures reply == if !Found(old(Current()), organization, session) then Refused(SessionNotFound)
                       else if Resolvable(old(Current()), organization, session, id) then Ok(id)
                       else Refused(DelegationNotFound)
    {
      if session >= |sessions| || sessions[session].organization != organization {
        return Refused(SessionNotFound);
      }
      if id >= |delegations| || delegations[id].session != session {
        return Refused(DelegationNotFound);
      }
      delegations := delegations[id := delegations[id].(status := status)];
      reply := Ok(id);
    }
  }
}
