/** Adaptive planning: when a plan is revised, what the revision keeps, and what any number of
    revisions amount to. */
module AdaptivePlanning {
  import opened Prelude
  import opened StableSort
  import opened Text

  datatype PlannedTask = PlannedTask(identifier: string, title: string, confidence: real)

  datatype Snapshot = Snapshot(revisionNumber: int, taskIds: seq<string>, confidence: real, rationale: Option<string>)

  datatype TraceEntry = TraceEntry(status: string, summary: string, confidence: real)

  /** `version` is the planning version of the metadata, absent when there is no metadata. */
  datatype Blueprint = Blueprint(
    taskGraph: seq<PlannedTask>, confidence: real, revisionNumber: int,
    insertedTasks: seq<string>, removedTasks: seq<string>, supersededTasks: seq<string>,
    rationale: Option<string>, history: seq<Snapshot>, version: Option<string>, trace: seq<TraceEntry>)

  // ---- the policy ----

  datatype Signals = Signals(
    weaknesses: seq<string>, missingInformation: seq<string>, success: bool, qualityScore: real,
    evaluationConfidence: real, reflectionConfidence: real, learningConfidence: real, goalStatus: Option<string>)

  datatype Verdict = Verdict(required: bool, reason: string, confidence: real)

  ghost predicate Degraded(s: Signals) {
    || (exists w :: w in s.weaknesses && w != "")
    || s.missingInformation != []
    || !s.success || s.qualityScore < 0.7
    || s.learningConfidence < 0.65
    || (s.goalStatus.Some? && s.goalStatus.value != "COMPLETED")
  }

  function Joined(reasons: seq<string>): string {
    if reasons == [] then "" else if |reasons| == 1 then reasons[0] else reasons[0] + ", " + Joined(reasons[1..])
  }

  function Clamp(x: real): real {
    if x > 0.99 then 0.99 else if x < 0.0 then 0.0 else x
  }

  function If(c: bool, reason: string): seq<string> {
    if c then [reason] else []
  }

  /** The reasons that hold, in the order in which they are reported. */
  ghost function Reasons(s: Signals): seq<string> {
    If(exists w :: w in s.weaknesses && w != "", "reflection_signals_degradation") +
    If(s.missingInformation != [], "missing_information") +
    If(!s.success || s.qualityScore < 0.7, "evaluation_below_threshold") +
    If(s.learningConfidence < 0.65, "learning_confidence_degraded") +
    If(s.goalStatus.Some? && s.goalStatus.value != "COMPLETED", "goal_incomplete")
  }

  method AnyToken(tokens: seq<string>) returns (found: bool)
    ensures found <==> exists w :: w in tokens && w != ""
  {
    for i := 0 to |tokens|
      invariant forall j :: 0 <= j < i ==> tokens[j] == ""
    {
      if tokens[i] != "" {
        assert tokens[i] in tokens;
        return true;
      }
    }
    return false;
  }

  lemma {:induction false} SomeReason(s: Signals)
    ensures Reasons(s) != [] <==> Degraded(s)
  {
  }

  method CollectReasons(s: Signals) returns (reasons: seq<string>)
    ensures reasons == Reasons(s)
  {
    var weak := AnyToken(s.weaknesses);
    reasons := If(weak, "reflection_signals_degradation");
    reasons := reasons + If(s.missingInformation != [], "missing_information");
    reasons := reasons + If(!s.success || s.qualityScore < 0.7, "evaluation_below_threshold");
    reasons := reasons + If(s.learningConfidence < 0.65, "learning_confidence_degraded");
    reasons := reasons + If(s.goalStatus.Some? && s.goalStatus.value != "COMPLETED", "goal_incomplete");
  }

  /** The reasons, written out. */
  lemma {:induction false} ReasonsInFields(s: Signals)
    ensures Reasons(s) ==
            (if exists w :: w in s.weaknesses && w != "" then ["reflection_signals_degradation"] else []) +
            (if s.missingInformation != [] then ["missing_information"] else []) +
            (if !s.success || s.qualityScore < 0.7 then ["evaluation_below_threshold"] else []) +
            (if s.learningConfidence < 0.65 then ["learning_confidence_degraded"] else []) +
            (if s.goalStatus.Some? && s.goalStatus.value != "COMPLETED" then ["goal_incomplete"] else [])
  {
  }

  /** `", ".join(reasons)`: single reasons stand alone, lists are separated by a comma. */
  lemma {:induction false} JoinedOne(reason: string)
    ensures Joined([reason]) == reason
  {
  }

  lemma {:induction false} JoinedAppend(a: seq<string>, b: seq<string>)
    requires a != [] && b != []
    ensures Joined(a + b) == Joined(a) + ", " + Joined(b)
  {
    if |a| == 1 {
      assert (a + b)[1..] == b;
    } else {
      JoinedAppend(a[1..], b);
      assert (a + b)[1..] == a[1..] + b;
    }
  }

  method ShouldReplan(s: Signals) returns (v: Verdict)
    ensures v.required <==> Degraded(s)
    ensures var mean := (s.evaluationConfidence + s.reflectionConfidence + s.learningConfidence) / 3.0;
            && (0.0 <= mean <= 0.99 ==> v.confidence == mean)
            && (mean < 0.0 ==> v.confidence == 0.0) && (mean > 0.99 ==> v.confidence == 0.99)
    ensures v.reason == if v.required then Joined(Reasons(s)) else "no_replanning_needed"
    ensures v.confidence == Clamp((s.evaluationConfidence + s.reflectionConfidence + s.learningConfidence) / 3.0)
  {
    var reasons := CollectReasons(s);
    SomeReason(s);
    v := Verdict(reasons != [], if reasons == [] then "no_replanning_needed" else Joined(reasons),
                 Clamp((s.evaluationConfidence + s.reflectionConfidence + s.learningConfidence) / 3.0));
  }

  // ---- one revision ----

  predicate Keeps(t: PlannedTask) {
    t.confidence >= 0.75 && t.identifier != "task_2" && t.identifier != "task_3"
  }

  predicate Drops(t: PlannedTask) {
    !Keeps(t)
  }

  const FOLLOW_UP := PlannedTask("adaptive_1", "Adaptive follow-up 1", 0.72)

  function Preserved(b: Blueprint): seq<PlannedTask> {
    Filter(Keeps, b.taskGraph)
  }

  function NotAmong(kept: seq<PlannedTask>): PlannedTask -> bool {
    (t: PlannedTask) => t !in kept
  }

  /** `task not in preserved_tasks`, by value. */
  function Removed(b: Blueprint): seq<PlannedTask> {
    Filter(NotAmong(Preserved(b)), b.taskGraph)
  }

  function Ids(tasks: seq<PlannedTask>): (r: seq<string>)
    ensures |r| == |tasks| && forall i :: 0 <= i < |r| ==> r[i] == tasks[i].identifier
  {
    Map((t: PlannedTask) => t.identifier, tasks)
  }

  function SnapshotOf(b: Blueprint): Snapshot {
    Snapshot(b.revisionNumber, Ids(b.taskGraph), b.confidence, b.rationale)
  }

  /** `previous.revision_number or 1`. */
  function BaseRevision(r: int): int {
    if r == 0 then 1 else r
  }

  function Replan(b: Blueprint, v: Verdict): Blueprint {
    var revision := BaseRevision(b.revisionNumber) + 1;
    var tasks := Preserved(b) + [FOLLOW_UP];
    Blueprint(
      tasks, v.confidence, revision,
      [FOLLOW_UP.identifier], Ids(Removed(b)), Ids(Removed(b)),
      Some(v.reason), b.history + [SnapshotOf(b)],
      if b.version.Some? then Some(DecimalInt(revision)) else None,
      b.trace + [TraceEntry("COMPLETED", v.reason, v.confidence)])
  }

  /** A call that does not replan touches only the metadata version and the trace, and nothing
      at all without metadata. */
  function Skip(b: Blueprint, v: Verdict): Blueprint {
    if b.version.None? then b
    else b.(version := Some("0"), trace := b.trace + [TraceEntry("SKIPPED", v.reason, 0.0)])
  }

  function Revise(b: Blueprint, v: Verdict): Blueprint {
    if v.required then Replan(b, v) else Skip(b, v)
  }

  lemma {:induction false} SplitByKeeps(s: seq<PlannedTask>)
    ensures multiset(Filter(Keeps, s)) + multiset(Filter(Drops, s)) == multiset(s)
  {
    if s != [] {
      SplitByKeeps(s[1..]);
      assert s == [s[0]] + s[1..];
      if Keeps(s[0]) {
        assert Filter(Drops, s) == Filter(Drops, s[1..]);
      } else {
        assert Filter(Keeps, s) == Filter(Keeps, s[1..]);
      }
    }
  }

  /** Kept and removed tasks partition the previous list. */
  lemma {:induction false} KeptAndRemoved(b: Blueprint)
    ensures multiset(Preserved(b)) + multiset(Removed(b)) == multiset(b.taskGraph)
    ensures forall t :: t in Preserved(b) ==> t !in Removed(b)
  {
    FilterMembers(Keeps, b.taskGraph);
    FilterMembers(Drops, b.taskGraph);
    SameFilter(NotAmong(Preserved(b)), Drops, b.taskGraph);
    SplitByKeeps(b.taskGraph);
  }

  lemma {:induction false} FilterDistinct(s: seq<PlannedTask>)
    requires NoRepeats(Ids(s))
    ensures NoRepeats(Ids(Filter(Keeps, s)))
  {
    if s != [] {
      FilterDistinct(s[1..]);
      FilterMembers(Keeps, s[1..]);
      var rest := Filter(Keeps, s[1..]);
      forall i | 0 <= i < |rest| ensures rest[i].identifier != s[0].identifier {
        assert rest[i] in s[1..];
      }
    }
  }

  /** Replanning keeps identifiers distinct exactly when no kept task is already called
      `adaptive_1`. */
  lemma {:induction false} ReplanDistinct(b: Blueprint, v: Verdict)
    requires NoRepeats(Ids(b.taskGraph))
    ensures NoRepeats(Ids(Replan(b, v).taskGraph)) <==>
            forall t :: t in b.taskGraph && Keeps(t) ==> t.identifier != FOLLOW_UP.identifier
  {
    FilterDistinct(b.taskGraph);
    FilterMembers(Keeps, b.taskGraph);
    var kept, tasks := Preserved(b), Replan(b, v).taskGraph;
    assert tasks == kept + [FOLLOW_UP];
    if t :| t in b.taskGraph && Keeps(t) && t.identifier == FOLLOW_UP.identifier {
      var i :| 0 <= i < |kept| && kept[i] == t;
      assert tasks[i].identifier == tasks[|kept|].identifier;
    }
  }

  /** After one replanning the task list is a fixed point of every later one. */
  lemma {:induction false} ReplanFixedPoint(b: Blueprint, v: Verdict, w: Verdict)
    ensures Replan(Replan(b, v), w).taskGraph == Replan(b, v).taskGraph
    ensures Removed(Replan(b, v)) == [FOLLOW_UP]
  {
    var kept, c := Preserved(b), Replan(b, v);
    FilterMembers(Keeps, b.taskGraph);
    FilterAppend(Keeps, kept, [FOLLOW_UP]);
    FilterAll(Keeps, kept);
    assert Preserved(c) == kept;
    SameFilter(NotAmong(kept), Drops, c.taskGraph);
    FilterAppend(Drops, kept, [FOLLOW_UP]);
    FilterOut(Drops, kept);
  }

  lemma {:induction false} PreservedInFields(b: Blueprint)
    ensures Preserved(b) ==
            Filter((t: PlannedTask) => t.confidence >= 0.75 && t.identifier != "task_2" && t.identifier != "task_3",
                   b.taskGraph)
  {
    SameFilter(Keeps, (t: PlannedTask) => t.confidence >= 0.75 && t.identifier != "task_2" && t.identifier != "task_3",
               b.taskGraph);
  }

  lemma {:induction false} RemovedInFields(b: Blueprint)
    ensures Removed(b) ==
            Filter((t: PlannedTask) => t.confidence < 0.75 || t.identifier == "task_2" || t.identifier == "task_3",
                   b.taskGraph)
  {
    FilterMembers(Keeps, b.taskGraph);
    SameFilter(NotAmong(Preserved(b)),
               (t: PlannedTask) => t.confidence < 0.75 || t.identifier == "task_2" || t.identifier == "task_3",
               b.taskGraph);
  }

  /** One replanning, field by field. */
  lemma {:induction false} ReplanInFields(b: Blueprint, v: Verdict)
    requires v.required
    ensures var r := Revise(b, v);
            var dropped :=
              Filter((t: PlannedTask) => t.confidence < 0.75 || t.identifier == "task_2" || t.identifier == "task_3",
                     b.taskGraph);
            && r.insertedTasks == ["adaptive_1"]
            && r.removedTasks == r.supersededTasks == Map((t: PlannedTask) => t.identifier, dropped)
            && r.confidence == v.confidence && r.rationale == Some(v.reason)
            && r.revisionNumber == (if b.revisionNumber == 0 then 1 else b.revisionNumber) + 1
    ensures var r := Revise(b, v);
            && r.history == b.history + [Snapshot(b.revisionNumber, Map((t: PlannedTask) => t.identifier, b.taskGraph),
                                                  b.confidence, b.rationale)]
            && r.trace == b.trace + [TraceEntry("COMPLETED", v.reason, v.confidence)]
            && r.version == if b.version.Some? then Some(DecimalInt(r.revisionNumber)) else None
  {
    RemovedInFields(b);
    var dropped := Removed(b);
    assert Ids(dropped) == Map((t: PlannedTask) => t.identifier, dropped);
    assert Ids(b.taskGraph) == Map((t: PlannedTask) => t.identifier, b.taskGraph);
  }

  /** A call that does not replan leaves everything but the version and the trace. */
  lemma {:induction false} SkipInFields(b: Blueprint, v: Verdict)
    requires !v.required
    ensures var r := Revise(b, v);
            && r == b.(version := r.version, trace := r.trace)
            && (b.version.None? ==> r == b)
            && (b.version.Some? ==>
                  r.version == Some("0") && r.trace == b.trace + [TraceEntry("SKIPPED", v.reason, 0.0)])
  {
  }

  // ---- any number of revisions ----

  function Run(b: Blueprint, vs: seq<Verdict>): Blueprint {
    if vs == [] then b else Revise(Run(b, vs[..|vs| - 1]), vs[|vs| - 1])
  }

  /** The blueprints that were replanned, each as it was just before. */
  function Replanned(b: Blueprint, vs: seq<Verdict>): seq<Blueprint> {
    if vs == [] then []
    else
      var front := vs[..|vs| - 1];
      Replanned(b, front) + if vs[|vs| - 1].required then [Run(b, front)] else []
  }

  function Snapshots(bs: seq<Blueprint>): seq<Snapshot> {
    if bs == [] then [] else Snapshots(bs[..|bs| - 1]) + [SnapshotOf(bs[|bs| - 1])]
  }

  lemma {:induction false} SnapshotsSnoc(bs: seq<Blueprint>, b: Blueprint)
    ensures Snapshots(bs + [b]) == Snapshots(bs) + [SnapshotOf(b)]
  {
    assert (bs + [b])[..|bs|] == bs;
  }

  lemma {:induction false} HistoryStep(b: Blueprint, v: Verdict)
    ensures Revise(b, v).history == if v.required then b.history + [SnapshotOf(b)] else b.history
  {
  }

  lemma {:induction false} SnapshotsStep(b: Blueprint, vs: seq<Verdict>)
    requires vs != []
    ensures var front, v := vs[..|vs| - 1], vs[|vs| - 1];
            Snapshots(Replanned(b, vs)) ==
            Snapshots(Replanned(b, front)) + if v.required then [SnapshotOf(Run(b, front))] else []
  {
    var front := vs[..|vs| - 1];
    SnapshotsSnoc(Replanned(b, front), Run(b, front));
    assert Replanned(b, front) + [] == Replanned(b, front);
  }

  /** The history grows by exactly the snapshots of the replanned blueprints, in order. */
  lemma {:induction false} HistoryOfRun(b: Blueprint, vs: seq<Verdict>)
    ensures Run(b, vs).history == b.history + Snapshots(Replanned(b, vs))
  {
    if vs == [] {
      assert b.history + [] == b.history;
    } else {
      var front, v := vs[..|vs| - 1], vs[|vs| - 1];
      HistoryOfRun(b, front);
      HistoryStep(Run(b, front), v);
      SnapshotsStep(b, vs);
    }
  }

  /** Every replanning strictly raises the revision number; from a number that is not negative
      it counts them. Other calls leave it alone. */
  lemma {:induction false} RevisionOfRun(b: Blueprint, vs: seq<Verdict>)
    ensures var n, r := |Replanned(b, vs)|, Run(b, vs).revisionNumber;
            && (n == 0 ==> r == b.revisionNumber)
            && r >= b.revisionNumber + n
            && (b.revisionNumber >= 0 && n > 0 ==> r == BaseRevision(b.revisionNumber) + n)
  {
    if vs != [] {
      var front, v := vs[..|vs| - 1], vs[|vs| - 1];
      RevisionOfRun(b, front);
      var before := Run(b, front).revisionNumber;
      assert Run(b, vs).revisionNumber == if v.required then BaseRevision(before) + 1 else before;
      assert |Replanned(b, vs)| == |Replanned(b, front)| + if v.required then 1 else 0;
    }
  }

  /** The task list of a run depends only on whether it replanned at all. */
  lemma {:induction false} TasksOfRun(b: Blueprint, vs: seq<Verdict>)
    ensures Run(b, vs).taskGraph == if Replanned(b, vs) == [] then b.taskGraph else Preserved(b) + [FOLLOW_UP]
  {
    if vs != [] {
      var front, v := vs[..|vs| - 1], vs[|vs| - 1];
      TasksOfRun(b, front);
      if v.required && Replanned(b, front) != [] {
        FilterMembers(Keeps, b.taskGraph);
        FilterAppend(Keeps, Preserved(b), [FOLLOW_UP]);
        FilterAll(Keeps, Preserved(b));
      }
    }
  }

  /** The task list after any run that replanned: the entries of the first plan that are certain
      enough and not called task_2 or task_3, in their order, and then the follow-up. */
  lemma {:induction false} TasksInFields(b: Blueprint, vs: seq<Verdict>)
    requires exists v :: v in vs && v.required
    ensures Run(b, vs).taskGraph ==
            Filter((t: PlannedTask) => t.confidence >= 0.75 && t.identifier != "task_2" && t.identifier != "task_3",
                   b.taskGraph) +
            [PlannedTask("adaptive_1", "Adaptive follow-up 1", 0.72)]
  {
    ReplannedSome(b, vs);
    TasksOfRun(b, vs);
    PreservedInFields(b);
  }

  lemma {:induction false} ReplannedSome(b: Blueprint, vs: seq<Verdict>)
    ensures Replanned(b, vs) != [] <==> exists v :: v in vs && v.required
  {
    if vs != [] {
      ReplannedSome(b, vs[..|vs| - 1]);
      assert vs == vs[..|vs| - 1] + [vs[|vs| - 1]];
    }
  }

  /** Identifiers stay distinct over every run from a plan without `adaptive_1`. */
  lemma {:induction false} DistinctOverRun(b: Blueprint, vs: seq<Verdict>)
    requires NoRepeats(Ids(b.taskGraph))
    requires forall t :: t in b.taskGraph ==> t.identifier != FOLLOW_UP.identifier
    ensures NoRepeats(Ids(Run(b, vs).taskGraph))
  {
    TasksOfRun(b, vs);
    ReplanDistinct(b, Verdict(true, "", 0.0));
  }

  /** With metadata, the planning version after a call is the revision number if the call
      replanned and "0" otherwise, whatever the revision number is by then. */
  lemma {:induction false} VersionFollowsLastCall(b: Blueprint, vs: seq<Verdict>)
    requires b.version.Some? && vs != []
    ensures Run(b, vs).version ==
            Some(if vs[|vs| - 1].required then DecimalInt(Run(b, vs).revisionNumber) else "0")
  {
    VersionPresent(b, vs[..|vs| - 1]);
  }

  lemma {:induction false} VersionPresent(b: Blueprint, vs: seq<Verdict>)
    ensures Run(b, vs).version.Some? <==> b.version.Some?
  {
    if vs != [] {
      VersionPresent(b, vs[..|vs| - 1]);
    }
  }
}
