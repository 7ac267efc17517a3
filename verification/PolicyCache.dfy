/** The policy cache under concurrency: it is read and invalidated under a lock, while writers
    commit and invalidate in two separate steps. */
module PolicyCacheProtocol {
  import opened PolicyEngine

  /** The table, the cache, the wall clock, the writers between commit and invalidation, the
      clock readings of readers that have not entered the lock yet, and the times of the last
      write of either kind. */
  datatype System = System(
    table: seq<Policy>, cache: seq<Policy>, loadedAt: real, clock: real,
    pending: set<nat>, readings: map<nat, real>, lastBypass: real, lastWrite: real)

  datatype Event =
    | Tick(elapsed: real)
    | ReadClock(reader: nat)
    | LockedLoad(reader: nat)
    | Commit(writer: nat, table: seq<Policy>)
    | Invalidate(writer: nat)
    | Bypass(table: seq<Policy>)

  predicate Enabled(s: System, e: Event) {
    match e
    case Tick(d) => d >= 0.0
    case ReadClock(r) => r !in s.readings
    case LockedLoad(r) => r in s.readings
    case Commit(w, _) => w !in s.pending
    case Invalidate(w) => w in s.pending
    case Bypass(_) => true
  }

  predicate Reloads(s: System, now: real) {
    Expired(s.loadedAt, now)
  }

  /** What a reader with clock reading `now` gets from the lock. */
  function LoadResult(s: System, now: real): seq<Policy> {
    if Reloads(s, now) then Active(s.table) else s.cache
  }

  function Step(s: System, e: Event): System
    requires Enabled(s, e)
  {
    match e
    case Tick(d) => s.(clock := s.clock + d)
    case ReadClock(r) => s.(readings := s.readings[r := s.clock])
    case LockedLoad(r) =>
      var now := s.readings[r];
      s.(cache := LoadResult(s, now), loadedAt := if Reloads(s, now) then now else s.loadedAt,
         readings := s.readings - {r})
    case Commit(w, t) => s.(table := t, pending := s.pending + {w}, lastWrite := s.clock)
    case Invalidate(w) => s.(loadedAt := 0.0, pending := s.pending - {w})
    case Bypass(t) => s.(table := t, lastBypass := s.clock, lastWrite := s.clock)
  }

  /** A process start: nothing cached, nobody waiting, and a wall clock past its first minute. */
  ghost predicate Initial(s: System) {
    && s.cache == [] && s.loadedAt == 0.0 && s.pending == {} && s.readings == map[]
    && s.clock > TTL && s.lastBypass <= s.lastWrite <= s.clock
  }

  ghost predicate Reachable(s: System, trace: seq<Event>, t: System)
    decreases |trace|
  {
    if trace == [] then s == t
    else Enabled(s, trace[0]) && Reachable(Step(s, trace[0]), trace[1..], t)
  }

  /** The cache was filled no earlier than its time stamp says, so a stamp later than every
      write of a kind means that the cache has seen those writes. */
  ghost predicate Inv(s: System) {
    && s.clock > TTL && s.loadedAt <= s.clock
    && (forall r :: r in s.readings ==> TTL < s.readings[r] <= s.clock)
    && s.lastBypass <= s.lastWrite <= s.clock
    && (s.loadedAt == 0.0 || s.cache == Active(s.table) || s.pending != {} || s.loadedAt <= s.lastBypass)
    && (s.loadedAt == 0.0 || s.cache == Active(s.table) || s.loadedAt <= s.lastWrite)
  }

  lemma {:induction false} StepKeepsInv(s: System, e: Event)
    requires Inv(s) && Enabled(s, e)
    ensures Inv(Step(s, e))
  {
  }

  lemma {:induction false} ReachableInv(s: System, trace: seq<Event>, t: System)
    requires Inv(s) && Reachable(s, trace, t)
    ensures Inv(t)
    decreases |trace|
  {
    if trace != [] {
      StepKeepsInv(s, trace[0]);
      ReachableInv(Step(s, trace[0]), trace[1..], t);
    }
  }

  /** The cache object goes through the same states: driven by the events of a trace it ends with
      the list and the load time that the protocol predicts. */
  method DriveCache(s: System, trace: seq<Event>, t: System)
    returns (cache: PolicyCache, table: seq<Policy>, clock: real)
    requires Initial(s) && Reachable(s, trace, t)
    ensures fresh(cache) && cache.policies == t.cache && cache.loadedAt == t.loadedAt
    ensures table == t.table && clock == t.clock
  {
    cache := new PolicyCache();
    table, clock := s.table, s.clock;
    var readings: map<nat, real> := map[];
    ghost var now := s;
    for n := 0 to |trace|
      invariant fresh(cache) && cache.policies == now.cache && cache.loadedAt == now.loadedAt
      invariant table == now.table && clock == now.clock && readings == now.readings
      invariant Reachable(now, trace[n..], t)
    {
      assert trace[n..][0] == trace[n] && trace[n..][1..] == trace[n + 1..];
      now := Step(now, trace[n]);
      match trace[n] {
        case Tick(elapsed) =>
          clock := clock + elapsed;
        case ReadClock(r) =>
          readings := readings[r := clock];
        case LockedLoad(r) =>
          var _ := cache.Load(readings[r], table);
          readings := readings - {r};
        case Commit(_, next) =>
          table := next;
        case Invalidate(_) =>
          cache.Invalidate();
        case Bypass(next) =>
          table := next;
      }
    }
  }

  /** Coherence over every interleaving. A load that does not return the active policies of
      the table happens only while some writer is between its commit and its invalidation, or
      within sixty seconds of a write that bypassed the service; and in any case only within
      sixty seconds of some write, measured to the reader's clock reading. */
  lemma {:induction false} Coherence(s: System, trace: seq<Event>, t: System, reader: nat)
    requires Initial(s) && Reachable(s, trace, t) && reader in t.readings
    ensures var now := t.readings[reader];
            LoadResult(t, now) != Active(t.table) ==>
              && (t.pending != {} || now <= t.lastBypass + 60.0)
              && now <= t.lastWrite + 60.0
  {
    ReachableInv(s, trace, t);
  }

  /** A writer that has committed can always invalidate, and every reader that loads next after
      that gets the table. */
  lemma {:induction false} InvalidationReloads(s: System, trace: seq<Event>, t: System, writer: nat, reader: nat)
    requires Initial(s) && Reachable(s, trace, t) && writer in t.pending && reader in t.readings
    ensures Enabled(t, Invalidate(writer)) && Enabled(t, LockedLoad(reader))
    ensures var u := Step(t, Invalidate(writer)); LoadResult(u, u.readings[reader]) == Active(t.table)
  {
    ReachableInv(s, trace, t);
  }

  /** So in the absence of such writers every request is answered as on the live table. */
  lemma {:induction false} AnswersAsLive(
      s: System, trace: seq<Event>, t: System, reader: nat,
      q: Query, a: Answer)
    requires Initial(s) && Reachable(s, trace, t) && reader in t.readings
    requires t.pending == {} && t.lastBypass + 60.0 < t.readings[reader]
    ensures IsAnswer(LoadResult(t, t.readings[reader]), q, a) <==>
            IsAnswer(t.table, q, a)
  {
    Coherence(s, trace, t, reader);
    ActiveAnswersAlike(t.table, q, a);
  }

  lemma {:induction false} ReachSnoc(s: System, trace: seq<Event>, t: System, e: Event)
    requires Reachable(s, trace, t) && Enabled(t, e)
    ensures Reachable(s, trace + [e], Step(t, e))
    decreases |trace|
  {
    if trace == [] {
      assert trace + [e] == [e] && [e][1..] == [];
    } else {
      ReachSnoc(Step(s, trace[0]), trace[1..], t, e);
      assert (trace + [e])[1..] == trace[1..] + [e];
    }
  }

  /** A cache filled from `before` at time 100. */
  lemma {:induction false} Filled(before: seq<Policy>) returns (s: System, trace: seq<Event>, t: System)
    ensures Initial(s) && Reachable(s, trace, t)
    ensures t == System(before, Active(before), 100.0, 100.0, {}, map[], 0.0, 0.0)
  {
    s := System(before, [], 0.0, 100.0, {}, map[], 0.0, 0.0);
    var s1 := Step(s, ReadClock(0));
    ReachSnoc(s, [], s, ReadClock(0));
    t := Step(s1, LockedLoad(0));
    trace := [] + [ReadClock(0)] + [LockedLoad(0)];
    ReachSnoc(s, [] + [ReadClock(0)], s1, LockedLoad(0));
    assert t.readings == map[];
  }

  /** Sixty seconds later another reader takes its clock reading. */
  lemma {:induction false} ReadLater(s: System, trace: seq<Event>, t: System)
    returns (trace': seq<Event>, t': System)
    requires Reachable(s, trace, t) && 1 !in t.readings
    ensures Reachable(s, trace', t') && t' == t.(clock := t.clock + TTL, readings := t.readings[1 := t.clock + TTL])
  {
    ReachSnoc(s, trace, t, Tick(TTL));
    var u := Step(t, Tick(TTL));
    ReachSnoc(s, trace + [Tick(TTL)], u, ReadClock(1));
    trace', t' := trace + [Tick(TTL)] + [ReadClock(1)], Step(u, ReadClock(1));
  }

  ghost predicate StaleLoad(s: System, trace: seq<Event>, t: System, r: nat, before: seq<Policy>) {
    && Initial(s) && Reachable(s, trace, t) && r in t.readings
    && LoadResult(t, t.readings[r]) == Active(before) != Active(t.table)
  }

  /** The window between a commit and its invalidation is real: a load can return the old list,
      up to the last moment that `Coherence` allows. */
  lemma {:induction false} StaleWhilePending(before: seq<Policy>, after: seq<Policy>)
    requires Active(before) != Active(after)
    ensures exists s, trace, t: System, r :: StaleLoad(s, trace, t, r, before) && t.lastBypass + TTL < t.readings[r] &&
              t.pending != {} && t.readings[r] == t.lastWrite + TTL
  {
    var s, trace, t := Filled(before);
    ReachSnoc(s, trace, t, Commit(7, after));
    var trace', t' := ReadLater(s, trace + [Commit(7, after)], Step(t, Commit(7, after)));
    assert StaleLoad(s, trace', t', 1, before) && 7 in t'.pending;
  }

  /** So is the minute after a write that bypasses the service, its last moment included. */
  lemma {:induction false} StaleAfterBypass(before: seq<Policy>, after: seq<Policy>)
    requires Active(before) != Active(after)
    ensures exists s, trace, t: System, r :: StaleLoad(s, trace, t, r, before) &&
              t.pending == {} && t.readings[r] == t.lastBypass + TTL
  {
    var s, trace, t := Filled(before);
    ReachSnoc(s, trace, t, Bypass(after));
    var trace', t' := ReadLater(s, trace + [Bypass(after)], Step(t, Bypass(after)));
    assert StaleLoad(s, trace', t', 1, before);
  }
}
