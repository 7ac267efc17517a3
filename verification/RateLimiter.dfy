/** The fixed-window rate limiter: per identifier and minute a counter, with old minutes
    evicted when a count is read. */
module RateLimiting {
  import opened StableSort

  type Buckets = map<string, map<int, nat>>

  /** `int(time.time()) // 60` for a clock at or after the epoch. */
  function Window(now: real): int {
    now.Floor / 60
  }

  lemma {:induction false} WindowBounds(now: real, w: int)
    ensures Window(now) == w <==> (60 * w) as real <= now < (60 * w + 60) as real
  {
  }

  function CountOf(b: Buckets, id: string, w: int): nat {
    if id in b && w in b[id] then b[id][w] else 0
  }

  datatype Call =
    | Check(id: string, limit: int, now: real)
    | Enforce(id: string, limit: int, now: real)
    | Record(id: string, now: real)

  /** Reference definition: the number of recorded calls of an identifier in a window. */
  function Recorded(calls: seq<Call>, id: string, w: int): nat {
    if calls == [] then 0
    else
      var c := calls[|calls| - 1];
      Recorded(calls[..|calls| - 1], id, w) + if !c.Check? && c.id == id && Window(c.now) == w then 1 else 0
  }

  /** It is the number of enforcements and plain records of the identifier in that minute. */
  lemma {:induction false} RecordedInFields(calls: seq<Call>, id: string, w: int)
    ensures Recorded(calls, id, w) ==
            |Filter((c: Call) => !c.Check? && c.id == id && (60 * w) as real <= c.now < (60 * w + 60) as real, calls)|
  {
    if calls != [] {
      var front, last := calls[..|calls| - 1], calls[|calls| - 1];
      RecordedInFields(front, id, w);
      WindowBounds(last.now, w);
      assert calls == front + [last];
      FilterAppend((c: Call) => !c.Check? && c.id == id && (60 * w) as real <= c.now < (60 * w + 60) as real,
                   front, [last]);
    }
  }

  ghost predicate Ordered(calls: seq<Call>) {
    && (forall k :: 0 <= k < |calls| ==> calls[k].now >= 0.0)
    && forall j, k :: 0 <= j <= k < |calls| ==> calls[j].now <= calls[k].now
  }

  lemma {:induction false} RecordedSnoc(calls: seq<Call>, c: Call, id: string, w: int)
    ensures Recorded(calls + [c], id, w) ==
            Recorded(calls, id, w) + if !c.Check? && c.id == id && Window(c.now) == w then 1 else 0
  {
    assert (calls + [c])[..|calls|] == calls;
  }

  /** The limiter with the clock as a parameter. `history` lists the calls so far and `clock`
      is the time of the last one. */
  class RateLimiter {
    var buckets: Buckets
    ghost var history: seq<Call>
    ghost var clock: real

    /** From the current window on the counters agree with the history; windows already past
        may have been evicted and are never asked for again. */
    ghost predicate Valid()
      reads this
    {
      && (forall id, w :: w >= Window(clock) ==> CountOf(buckets, id, w) == Recorded(history, id, w))
      && (forall id, w :: id in buckets && w in buckets[id] ==> w <= Window(clock))
    }

    constructor ()
      ensures Valid() && history == [] && clock == 0.0
    {
      buckets := map[];
      history := [];
      clock := 0.0;
    }

    /** `_get_count`: evict windows before the current one, then read (and so create) the counter. */
    method GetCount(id: string, now: real) returns (count: nat)
      requires Valid() && now >= clock >= 0.0
      modifies `buckets
      ensures count == old(CountOf(buckets, id, Window(now)))
      ensures forall i, w :: w >= Window(now) ==> CountOf(buckets, i, w) == old(CountOf(buckets, i, w))
      ensures forall i, w :: i in buckets && w in buckets[i] ==> w <= Window(now)
      ensures id in buckets && buckets[id].Keys == {Window(now)}
    {
      var window := Window(now);
      var mine: map<int, nat> := if id in buckets then buckets[id] else map[];
      var stale := set w | w in mine && w < window;
      mine := mine - stale;
      count := if window in mine then mine[window] else 0;
      mine := mine[window := count];
      buckets := buckets[id := mine];
    }

    method Increment(id: string, now: real) returns (count: nat)
      requires Valid() && now >= clock >= 0.0
      modifies `buckets
      ensures count == old(CountOf(buckets, id, Window(now))) + 1
      ensures forall i, w :: w >= Window(now) ==>
                CountOf(buckets, i, w) == old(CountOf(buckets, i, w)) + if i == id && w == Window(now) then 1 else 0
      ensures forall i, w :: i in buckets && w in buckets[i] ==> w <= Window(now)
    {
      var window := Window(now);
      var mine: map<int, nat> := if id in buckets then buckets[id] else map[];
      count := (if window in mine then mine[window] else 0) + 1;
      buckets := buckets[id := mine[window := count]];
    }

    ghost method Note(c: Call)
      modifies `history, `clock
      ensures history == old(history) + [c] && clock == c.now
    {
      history := history + [c];
      clock := c.now;
    }

    /** True exactly when an enforcement with the same limit in this window would raise. */
    method IsRateLimited(id: string, limit: int, now: real) returns (limited: bool)
      requires Valid() && now >= clock >= 0.0
      modifies this
      ensures Valid() && history == old(history) + [Check(id, limit, now)] && clock == now
      ensures limited <==> Recorded(old(history), id, Window(now)) >= limit
      ensures id in buckets && buckets[id].Keys == {Window(now)}
    {
      var count := GetCount(id, now);
      limited := count >= limit;
      forall i, w { RecordedSnoc(history, Check(id, limit, now), i, w); }
      Note(Check(id, limit, now));
    }

    method RecordRequest(id: string, now: real) returns (count: nat)
      requires Valid() && now >= clock >= 0.0
      modifies this
      ensures Valid() && history == old(history) + [Record(id, now)] && clock == now
      ensures count == Recorded(old(history), id, Window(now)) + 1
    {
      count := Increment(id, now);
      forall i, w { RecordedSnoc(history, Record(id, now), i, w); }
      Note(Record(id, now));
    }

    method EnforceRateLimit(id: string, limit: int, now: real) returns (admitted: bool)
      requires Valid() && now >= clock >= 0.0
      modifies this
      ensures Valid() && history == old(history) + [Enforce(id, limit, now)] && clock == now
      ensures admitted <==> Recorded(old(history), id, Window(now)) < limit
    {
      var count := Increment(id, now);
      admitted := !(count > limit);
      forall i, w { RecordedSnoc(history, Enforce(id, limit, now), i, w); }
      Note(Enforce(id, limit, now));
    }
  }

  // ---- runs ----

  /** The answer to a call by the reference definition, which never evicts anything: is an
      enforcement admitted, does a check report the limit as reached. */
  function Answer(before: seq<Call>, c: Call): bool {
    match c
    case Check(id, limit, now) => Recorded(before, id, Window(now)) >= limit
    case Enforce(id, limit, now) => Recorded(before, id, Window(now)) < limit
    case Record(_, _) => true
  }

  function AnswerAt(calls: seq<Call>, k: nat): bool
    requires k < |calls|
  {
    Answer(calls[..k], calls[k])
  }

  method Serve(limiter: RateLimiter, c: Call) returns (answer: bool)
    requires limiter.Valid() && c.now >= limiter.clock >= 0.0
    modifies limiter
    ensures limiter.Valid() && limiter.history == old(limiter.history) + [c] && limiter.clock == c.now
    ensures answer == Answer(old(limiter.history), c)
  {
    answer := true;
    match c {
      case Check(id, limit, now) => answer := limiter.IsRateLimited(id, limit, now);
      case Enforce(id, limit, now) => answer := limiter.EnforceRateLimit(id, limit, now);
      case Record(id, now) => var _ := limiter.RecordRequest(id, now);
    }
  }

  /** Every run of the limiter under a clock that does not go back answers by the reference
      definition: eviction is never observed. */
  method Drive(calls: seq<Call>) returns (answers: seq<bool>)
    requires Ordered(calls)
    ensures |answers| == |calls| && forall k :: 0 <= k < |calls| ==> answers[k] == AnswerAt(calls, k)
  {
    var limiter := new RateLimiter();
    answers := [];
    for k := 0 to |calls|
      invariant fresh(limiter) && limiter.Valid() && limiter.history == calls[..k]
      invariant limiter.clock == if k == 0 then 0.0 else calls[k - 1].now
      invariant |answers| == k && forall j :: 0 <= j < k ==> answers[j] == AnswerAt(calls, j)
    {
      var answer := Serve(limiter, calls[k]);
      answers := answers + [answer];
    }
  }

  function WithoutChecks(calls: seq<Call>): seq<Call> {
    if calls == [] then []
    else
      var rest, c := WithoutChecks(calls[..|calls| - 1]), calls[|calls| - 1];
      if c.Check? then rest else rest + [c]
  }

  lemma {:induction false} ChecksNotRecorded(calls: seq<Call>, id: string, w: int)
    ensures Recorded(WithoutChecks(calls), id, w) == Recorded(calls, id, w)
  {
    if calls != [] {
      ChecksNotRecorded(calls[..|calls| - 1], id, w);
      RecordedSnoc(WithoutChecks(calls[..|calls| - 1]), calls[|calls| - 1], id, w);
    }
  }

  /** Whatever checks are inserted into a run, for whatever identifiers, the next enforcement
      is decided as if none of them had happened; and a check right before it, with the same
      limit and in the same window, foretells its answer. */
  lemma {:induction false} ChecksUnobservable(calls: seq<Call>, id: string, limit: int, now: real, at: real)
    requires Window(at) == Window(now)
    ensures var e := Enforce(id, limit, now);
            && AnswerAt(calls + [e], |calls|) == AnswerAt(WithoutChecks(calls) + [e], |WithoutChecks(calls)|)
            && AnswerAt(calls + [e], |calls|) != AnswerAt(calls + [Check(id, limit, at)], |calls|)
  {
    var e := Enforce(id, limit, now);
    ChecksNotRecorded(calls, id, Window(now));
    assert (calls + [e])[..|calls|] == calls && (calls + [Check(id, limit, at)])[..|calls|] == calls;
    assert (WithoutChecks(calls) + [e])[..|WithoutChecks(calls)|] == WithoutChecks(calls);
  }

  // ---- how many calls get in ----

  predicate Admits(calls: seq<Call>, c: Call) {
    c.Enforce? && Recorded(calls, c.id, Window(c.now)) < c.limit
  }

  /** Admitted calls of an identifier with a time in the half-open span from `lo` to `hi`. */
  function Admitted(calls: seq<Call>, id: string, lo: real, hi: real): nat {
    if calls == [] then 0
    else
      var rest, c := calls[..|calls| - 1], calls[|calls| - 1];
      Admitted(rest, id, lo, hi) + if Admits(rest, c) && c.id == id && lo <= c.now < hi then 1 else 0
  }

  /** The positions of the admitted calls, in the answers that `Drive` is proved to give. */
  ghost function AdmittedAt(calls: seq<Call>, id: string, lo: real, hi: real): set<nat> {
    set k: nat | k < |calls| && calls[k].Enforce? && calls[k].id == id && lo <= calls[k].now < hi && AnswerAt(calls, k)
  }

  lemma {:induction false} AdmittedSnoc(calls: seq<Call>, id: string, lo: real, hi: real)
    requires calls != []
    ensures var n, front := |calls| - 1, calls[..|calls| - 1];
            var admitted := calls[n].Enforce? && calls[n].id == id && lo <= calls[n].now < hi && AnswerAt(calls, n);
            AdmittedAt(calls, id, lo, hi) == AdmittedAt(front, id, lo, hi) + (if admitted then {n} else {})
  {
    var n, front := |calls| - 1, calls[..|calls| - 1];
    forall k: nat | k < n ensures front[k] == calls[k] && AnswerAt(front, k) == AnswerAt(calls, k) {
      assert front[..k] == calls[..k];
    }
  }

  lemma {:induction false} AdmittedInFields(calls: seq<Call>, id: string, lo: real, hi: real)
    ensures Admitted(calls, id, lo, hi) == |AdmittedAt(calls, id, lo, hi)|
  {
    if calls != [] {
      var n, front := |calls| - 1, calls[..|calls| - 1];
      AdmittedInFields(front, id, lo, hi);
      AdmittedSnoc(calls, id, lo, hi);
      assert n !in AdmittedAt(front, id, lo, hi);
      assert front == calls[..n];
    }
  }

  function AdmittedInWindow(calls: seq<Call>, id: string, w: int): nat {
    Admitted(calls, id, (60 * w) as real, (60 * w + 60) as real)
  }

  ghost predicate FixedLimit(calls: seq<Call>, id: string, limit: nat) {
    forall k :: 0 <= k < |calls| && calls[k].Enforce? && calls[k].id == id ==> calls[k].limit == limit
  }

  ghost predicate OnlyEnforced(calls: seq<Call>, id: string) {
    forall k :: 0 <= k < |calls| && calls[k].Record? ==> calls[k].id != id
  }

  /** One window admits no more than the limit; when all recorded calls are enforcements, it
      admits exactly the first `min(limit, n)` of its `n` calls. */
  lemma {:induction false} WindowAdmission(calls: seq<Call>, id: string, limit: nat, w: int)
    requires FixedLimit(calls, id, limit)
    ensures AdmittedInWindow(calls, id, w) <= limit && AdmittedInWindow(calls, id, w) <= Recorded(calls, id, w)
    ensures OnlyEnforced(calls, id) ==>
              AdmittedInWindow(calls, id, w) == if Recorded(calls, id, w) < limit then Recorded(calls, id, w) else limit
  {
    if calls != [] {
      WindowAdmission(calls[..|calls| - 1], id, limit, w);
      WindowBounds(calls[|calls| - 1].now, w);
    }
  }

  lemma {:induction false} TwoWindows(calls: seq<Call>, id: string, t: real)
    ensures Admitted(calls, id, t, t + 60.0) <=
            AdmittedInWindow(calls, id, Window(t)) + AdmittedInWindow(calls, id, Window(t) + 1)
  {
    if calls != [] {
      TwoWindows(calls[..|calls| - 1], id, t);
      WindowBounds(t, Window(t));
    }
  }

  /** Any half-open span of sixty seconds admits at most twice the limit. */
  lemma {:induction false} SpanBound(calls: seq<Call>, id: string, limit: nat, t: real)
    requires FixedLimit(calls, id, limit)
    ensures Admitted(calls, id, t, t + 60.0) <= 2 * limit
  {
    TwoWindows(calls, id, t);
    WindowAdmission(calls, id, limit, Window(t));
    WindowAdmission(calls, id, limit, Window(t) + 1);
  }

  function Burst(calls: seq<Call>, c: Call, n: nat): seq<Call> {
    if n == 0 then calls else Burst(calls, c, n - 1) + [c]
  }

  lemma {:induction false} BurstShape(calls: seq<Call>, c: Call, n: nat)
    ensures var r := Burst(calls, c, n);
            && |r| == |calls| + n
            && forall k :: 0 <= k < |r| ==> r[k] == if k < |calls| then calls[k] else c
  {
    if n > 0 {
      BurstShape(calls, c, n - 1);
    }
  }

  lemma {:induction false} BurstRecorded(calls: seq<Call>, c: Call, n: nat, w: int)
    requires c.Enforce?
    ensures Recorded(Burst(calls, c, n), c.id, w) == Recorded(calls, c.id, w) + if w == Window(c.now) then n else 0
  {
    if n > 0 {
      BurstRecorded(calls, c, n - 1, w);
      RecordedSnoc(Burst(calls, c, n - 1), c, c.id, w);
    }
  }

  lemma {:induction false} SpanOfTwoWindows(calls: seq<Call>, id: string)
    requires forall k :: 0 <= k < |calls| ==> calls[k].now == 59.0 || calls[k].now == 60.0
    ensures Admitted(calls, id, 59.0, 59.0 + 60.0) == AdmittedInWindow(calls, id, 0) + AdmittedInWindow(calls, id, 1)
  {
    if calls != [] {
      SpanOfTwoWindows(calls[..|calls| - 1], id);
    }
  }

  /** A burst at the end of one minute and another at the start of the next. */
  function TwoBursts(id: string, limit: nat): seq<Call> {
    Burst(Burst([], Enforce(id, limit, 59.0), limit), Enforce(id, limit, 60.0), limit)
  }

  lemma {:induction false} TwoBurstsShape(id: string, limit: nat)
    ensures var r := TwoBursts(id, limit);
            && |r| == 2 * limit
            && forall k :: 0 <= k < |r| ==> r[k] == Enforce(id, limit, if k < limit then 59.0 else 60.0)
  {
    var a, b := Enforce(id, limit, 59.0), Enforce(id, limit, 60.0);
    BurstShape([], a, limit);
    BurstShape(Burst([], a, limit), b, limit);
  }

  /** The bound is reached, for every limit. */
  lemma {:induction false} SpanBoundIsTight(id: string, limit: nat)
    ensures Admitted(TwoBursts(id, limit), id, 59.0, 59.0 + 60.0) == 2 * limit
    ensures Ordered(TwoBursts(id, limit)) && FixedLimit(TwoBursts(id, limit), id, limit)
  {
    var a, b, calls := Enforce(id, limit, 59.0), Enforce(id, limit, 60.0), TwoBursts(id, limit);
    TwoBurstsShape(id, limit);
    assert Window(a.now) == 0 && Window(b.now) == 1;
    forall w ensures Recorded(calls, id, w) == if w == 0 || w == 1 then limit else 0 {
      BurstRecorded([], a, limit, w);
      BurstRecorded(Burst([], a, limit), b, limit, w);
    }
    WindowAdmission(calls, id, limit, 0);
    WindowAdmission(calls, id, limit, 1);
    SpanOfTwoWindows(calls, id);
  }
}
