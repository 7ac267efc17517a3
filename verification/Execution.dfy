/** The execution state machine, the task chain built from a blueprint's capabilities, and the
    run that the engine publishes. */
module Execution {
  import opened Prelude
  import opened StableSort
  import opened Text

  datatype ExecutionState = INITIALIZED | READY | RUNNING | WAITING | COMPLETED | FAILED | CANCELLED

  function Allowed(s: ExecutionState): set<ExecutionState> {
    match s
    case INITIALIZED => {READY, CANCELLED, FAILED}
    case READY => {RUNNING, CANCELLED, FAILED}
    case RUNNING => {WAITING, COMPLETED, FAILED, CANCELLED}
    case WAITING => {RUNNING, FAILED, CANCELLED}
    case COMPLETED => {}
    case FAILED => {}
    case CANCELLED => {}
  }

  /** The table: every live state can fail or be cancelled, and these steps lead on. */
  lemma {:induction false} AllowedTable(s: ExecutionState, t: ExecutionState)
    ensures t in Allowed(s) <==>
            || (t in {FAILED, CANCELLED} && s !in {COMPLETED, FAILED, CANCELLED})
            || (s, t) in {(INITIALIZED, READY), (READY, RUNNING), (RUNNING, WAITING), (WAITING, RUNNING),
                          (RUNNING, COMPLETED)}
  {
  }

  datatype Transition = Transition(from: Option<ExecutionState>, to: ExecutionState, taskId: Option<string>)

  /** Each entry continues the one before it by an allowed step. */
  ghost predicate Chain(log: seq<Transition>) {
    && log != []
    && forall i :: 0 < i < |log| ==> log[i].from == Some(log[i - 1].to) && log[i].to in Allowed(log[i - 1].to)
  }

  function Last(log: seq<Transition>): ExecutionState
    requires log != []
  {
    log[|log| - 1].to
  }

  class ExecutionStateMachine {
    var currentState: ExecutionState
    var transitions: seq<Transition>

    constructor (initial: ExecutionState)
      ensures currentState == initial && transitions == [Transition(None, initial, None)]
    {
      currentState := initial;
      transitions := [Transition(None, initial, None)];
    }

    /** A move outside the table is refused and changes nothing. */
    method TransitionTo(state: ExecutionState, taskId: Option<string>) returns (ok: bool)
      modifies this
      ensures ok <==> state in Allowed(old(currentState))
      ensures ok ==> currentState == state
                     && transitions == old(transitions) + [Transition(Some(old(currentState)), state, taskId)]
      ensures !ok ==> currentState == old(currentState) && transitions == old(transitions)
    {
      if state !in Allowed(currentState) {
        return false;
      }
      transitions := transitions + [Transition(Some(currentState), state, taskId)];
      currentState := state;
      return true;
    }
  }

  /** The log of a fresh machine after a list of requests, accepted or refused. */
  function LogOf(requests: seq<ExecutionState>): (log: seq<Transition>)
    ensures log != []
  {
    if requests == [] then [Transition(None, INITIALIZED, None)]
    else
      var log, next := LogOf(requests[..|requests| - 1]), requests[|requests| - 1];
      if next in Allowed(Last(log)) then log + [Transition(Some(Last(log)), next, None)] else log
  }

  lemma {:induction false} LogIsChain(requests: seq<ExecutionState>)
    ensures Chain(LogOf(requests)) && LogOf(requests)[0] == Transition(None, INITIALIZED, None)
  {
    if requests != [] {
      LogIsChain(requests[..|requests| - 1]);
    }
  }

  /** A fresh machine ends in the last state of that log. */
  method DriveMachine(requests: seq<ExecutionState>) returns (log: seq<Transition>, state: ExecutionState)
    ensures log == LogOf(requests) && state == Last(log) && Chain(log)
  {
    var machine := new ExecutionStateMachine(INITIALIZED);
    for n := 0 to |requests|
      invariant fresh(machine) && machine.transitions == LogOf(requests[..n])
      invariant machine.currentState == Last(machine.transitions)
    {
      assert requests[..n + 1][..n] == requests[..n];
      var _ := machine.TransitionTo(requests[n], None);
    }
    assert requests[..|requests|] == requests;
    LogIsChain(requests);
    log, state := machine.transitions, machine.currentState;
  }

  lemma {:induction false} NextAllowed(log: seq<Transition>, i: nat)
    requires Chain(log) && i + 1 < |log|
    ensures log[i + 1].to in Allowed(log[i].to)
  {
  }

  /** Nothing follows a terminal state. */
  lemma {:induction false} TerminalIsLast(log: seq<Transition>, i: nat)
    requires Chain(log) && i < |log| && log[i].to in {COMPLETED, FAILED, CANCELLED}
    ensures i == |log| - 1
  {
    if i + 1 < |log| {
      NextAllowed(log, i);
    }
  }

  lemma {:induction false} PastReady(log: seq<Transition>, i: nat)
    requires Chain(log) && i < |log| && log[0].to == INITIALIZED
    ensures log[i].to in {RUNNING, WAITING, COMPLETED} ==> i >= 2 && log[1].to == READY && log[2].to == RUNNING
    ensures log[i].to == READY ==> i == 1
    ensures log[i].to == INITIALIZED ==> i == 0
  {
    if i > 0 {
      PastReady(log, i - 1);
      assert log[i].to in Allowed(log[i - 1].to);
    }
  }

  /** A fresh machine that reached COMPLETED went through READY, then RUNNING, and was RUNNING
      just before it completed. */
  lemma {:induction false} CompletedPath(requests: seq<ExecutionState>)
    requires Last(LogOf(requests)) == COMPLETED
    ensures var log := LogOf(requests);
            |log| >= 4 && log[1].to == READY && log[2].to == RUNNING && log[|log| - 2].to == RUNNING
  {
    var log := LogOf(requests);
    LogIsChain(requests);
    PastReady(log, |log| - 1);
    assert log[|log| - 1].to in Allowed(log[|log| - 2].to);
    PastReady(log, |log| - 2);
  }

  // ---- the task chain ----

  datatype ExecutionTask = ExecutionTask(
    taskId: string, capability: string, state: ExecutionState, dependencies: seq<string>, priority: nat)

  const PROVIDER := "provider"
  const PROVIDER_TASK := "capability_provider"

  function CapabilityId(n: nat): string {
    "capability_" + Decimal(n)
  }

  lemma {:induction false} CapabilityIdsDiffer(m: nat, n: nat)
    ensures CapabilityId(m) == CapabilityId(n) ==> m == n
    ensures CapabilityId(m) != PROVIDER_TASK
  {
    if CapabilityId(m) == CapabilityId(n) {
      SuffixInjective("capability_", Decimal(m), Decimal(n));
      DecimalInjective(m, n);
    }
    var suffix := Decimal(m);
    assert '0' <= suffix[0] <= '9' && suffix[0] != 'p';
    assert CapabilityId(m)[|"capability_"|] == suffix[0] && PROVIDER_TASK[|"capability_"|] == 'p';
  }

  /** `priorities.get(id, default)` for priorities numbered by position; the last position of a
      repeated id counts. */
  function PriorityOf(ordering: seq<string>, id: string, default: nat): nat {
    if ordering == [] then default
    else if ordering[|ordering| - 1] == id then |ordering| - 1
    else PriorityOf(ordering[..|ordering| - 1], id, default)
  }

  lemma {:induction false} PriorityMeaning(ordering: seq<string>, id: string, default: nat)
    ensures var p := PriorityOf(ordering, id, default);
            && (id !in ordering ==> p == default)
            && (id in ordering ==> p < |ordering| && ordering[p] == id && id !in ordering[p + 1..])
  {
    if ordering != [] && ordering[|ordering| - 1] != id {
      var front := ordering[..|ordering| - 1];
      PriorityMeaning(front, id, default);
      assert ordering == front + [ordering[|ordering| - 1]];
      var p := PriorityOf(front, id, default);
      if id in front {
        assert ordering[p + 1..] == front[p + 1..] + [ordering[|ordering| - 1]];
      }
    }
  }

  function CapabilityTask(names: seq<string>, ordering: seq<string>, lower: string -> string, i: nat): ExecutionTask
    requires i < |names|
  {
    ExecutionTask(CapabilityId(i + 1), lower(names[i]), READY,
                  if i > 0 then [CapabilityId(i)] else [],
                  PriorityOf(ordering, CapabilityId(i + 1), i))
  }

  function TaskIds(tasks: seq<ExecutionTask>): (r: seq<string>)
    ensures |r| == |tasks| && forall i :: 0 <= i < |r| ==> r[i] == tasks[i].taskId
  {
    Map((t: ExecutionTask) => t.taskId, tasks)
  }

  /** Ids are distinct and each task after the first depends on exactly the one before it, so
      the list order is a topological order. */
  ghost predicate IsChain(tasks: seq<ExecutionTask>) {
    && NoRepeats(TaskIds(tasks))
    && (forall i :: 0 <= i < |tasks| ==> tasks[i].state == READY)
    && (tasks != [] ==> tasks[0].dependencies == [])
    && (forall i :: 0 < i < |tasks| ==> tasks[i].dependencies == [tasks[i - 1].taskId])
  }

  predicate HasProvider(tasks: seq<ExecutionTask>) {
    exists i :: 0 <= i < |tasks| && tasks[i].capability == "provider"
  }

  lemma {:induction false} CapabilityIdsNoRepeats(tasks: seq<ExecutionTask>)
    requires forall i :: 0 <= i < |tasks| ==> tasks[i].taskId == CapabilityId(i + 1)
    ensures NoRepeats(TaskIds(tasks)) && PROVIDER_TASK !in TaskIds(tasks)
  {
    var ids := TaskIds(tasks);
    forall i, j | 0 <= i < j < |ids| ensures ids[i] != ids[j] {
      CapabilityIdsDiffer(i + 1, j + 1);
    }
    forall i | 0 <= i < |ids| ensures ids[i] != PROVIDER_TASK {
      CapabilityIdsDiffer(i + 1, i + 1);
    }
  }

  lemma {:induction false} CapabilityChain(
      names: seq<string>, ordering: seq<string>, lower: string -> string, tasks: seq<ExecutionTask>)
    requires |tasks| == |names|
    requires forall i :: 0 <= i < |tasks| ==> tasks[i] == CapabilityTask(names, ordering, lower, i)
    ensures IsChain(tasks) && PROVIDER_TASK !in TaskIds(tasks)
  {
    CapabilityIdsNoRepeats(tasks);
  }

  function CapabilityTasks(names: seq<string>, ordering: seq<string>, lower: string -> string, n: nat)
    : (r: seq<ExecutionTask>)
    requires n <= |names|
    ensures |r| == n
  {
    if n == 0 then []
    else CapabilityTasks(names, ordering, lower, n - 1) + [CapabilityTask(names, ordering, lower, n - 1)]
  }

  lemma {:induction false} CapabilityTasksAt(
      names: seq<string>, ordering: seq<string>, lower: string -> string, n: nat, i: nat)
    requires i < n <= |names|
    ensures CapabilityTasks(names, ordering, lower, n)[i] == CapabilityTask(names, ordering, lower, i)
  {
    if i < n - 1 {
      CapabilityTasksAt(names, ordering, lower, n - 1, i);
    }
  }

  method ListCapabilities(names: seq<string>, ordering: seq<string>, lower: string -> string)
    returns (tasks: seq<ExecutionTask>)
    ensures |tasks| == |names|
    ensures forall i :: 0 <= i < |names| ==> tasks[i] == CapabilityTask(names, ordering, lower, i)
  {
    tasks := [];
    for index := 0 to |names|
      invariant tasks == CapabilityTasks(names, ordering, lower, index)
    {
      tasks := tasks + [CapabilityTask(names, ordering, lower, index)];
    }
    forall i | 0 <= i < |names| ensures tasks[i] == CapabilityTask(names, ordering, lower, i) {
      CapabilityTasksAt(names, ordering, lower, |names|, i);
    }
  }

  lemma {:induction false} AppendToChain(tasks: seq<ExecutionTask>, t: ExecutionTask)
    requires IsChain(tasks) && tasks != [] && t.state == READY && t.dependencies == [tasks[|tasks| - 1].taskId]
    requires t.taskId !in TaskIds(tasks)
    ensures IsChain(tasks + [t])
  {
    assert TaskIds(tasks + [t]) == TaskIds(tasks) + [t.taskId];
  }

  /** One entry per capability in order, and a provider entry exactly when none of them is one. */
  ghost predicate FromCapabilities(
      names: seq<string>, ordering: seq<string>, lower: string -> string, tasks: seq<ExecutionTask>) {
    && |names| <= |tasks| <= |names| + 1
    && (forall i :: 0 <= i < |names| ==>
          && tasks[i].taskId == "capability_" + Decimal(i + 1) && tasks[i].capability == lower(names[i])
          && tasks[i].priority == PriorityOf(ordering, tasks[i].taskId, i))
    && (|tasks| == |names| + 1 <==> forall i :: 0 <= i < |names| ==> lower(names[i]) != "provider")
    && (|tasks| == |names| + 1 ==>
          && tasks[|names|].taskId == "capability_provider" && tasks[|names|].capability == "provider"
          && tasks[|names|].priority == PriorityOf(ordering, "capability_provider", |names|))
  }

  /** The tasks of a blueprint that requires capabilities. */
  method BuildCapabilityTasks(names: seq<string>, ordering: seq<string>, lower: string -> string)
    returns (tasks: seq<ExecutionTask>)
    requires names != []
    ensures FromCapabilities(names, ordering, lower, tasks)
    ensures IsChain(tasks) && HasProvider(tasks)
  {
    tasks := ListCapabilities(names, ordering, lower);
    CapabilityChain(names, ordering, lower, tasks);
    assert forall i :: 0 <= i < |names| ==> tasks[i].capability == lower(names[i]);
    if !HasProvider(tasks) {
      var provider := ExecutionTask(PROVIDER_TASK, PROVIDER, READY, [tasks[|tasks| - 1].taskId],
                                    PriorityOf(ordering, PROVIDER_TASK, |tasks|));
      AppendToChain(tasks, provider);
      tasks := tasks + [provider];
      assert tasks[|names|] == provider;
    }
  }

  // ---- a blueprint without capabilities ----

  datatype PlannedTask = PlannedTask(identifier: string, capabilities: seq<string>)

  datatype Edge = Edge(source: string, target: string)

  datatype Blueprint = Blueprint(
    capabilityNames: seq<string>, ordering: seq<string>, planned: seq<PlannedTask>, edges: seq<Edge>)

  /** The sources of the edges into a task, in edge order. */
  function Sources(edges: seq<Edge>, id: string): seq<string> {
    if edges == [] then []
    else
      var last := edges[|edges| - 1];
      Sources(edges[..|edges| - 1], id) + if last.target == id then [last.source] else []
  }

  function Lookup(m: map<string, seq<string>>, id: string): seq<string> {
    if id in m then m[id] else []
  }

  /** `dependencies.setdefault(edge.target, []).append(edge.source)` over all edges. */
  method CollectSources(edges: seq<Edge>) returns (m: map<string, seq<string>>)
    ensures forall id :: Lookup(m, id) == Sources(edges, id)
  {
    m := map[];
    for n := 0 to |edges|
      invariant forall id :: Lookup(m, id) == Sources(edges[..n], id)
    {
      assert edges[..n + 1][..n] == edges[..n];
      var e := edges[n];
      m := m[e.target := Lookup(m, e.target) + [e.source]];
    }
    assert edges[..|edges|] == edges;
  }

  function FromPlan(b: Blueprint, i: nat): ExecutionTask
    requires i < |b.planned|
  {
    var t := b.planned[i];
    ExecutionTask(t.identifier, if t.capabilities != [] then t.capabilities[0] else "runtime_v1", READY,
                  Sources(b.edges, t.identifier), PriorityOf(b.ordering, t.identifier, i))
  }

  function AllFromPlan(b: Blueprint): (r: seq<ExecutionTask>)
    ensures |r| == |b.planned| && forall i :: 0 <= i < |r| ==> r[i] == FromPlan(b, i)
  {
    seq(|b.planned|, i requires 0 <= i < |b.planned| => FromPlan(b, i))
  }

  lemma {:induction false} SourcesInFields(edges: seq<Edge>, id: string)
    ensures Sources(edges, id) == Map((e: Edge) => e.source, Filter((e: Edge) => e.target == id, edges))
  {
    if edges != [] {
      var front, last := edges[..|edges| - 1], edges[|edges| - 1];
      SourcesInFields(front, id);
      assert edges == front + [last];
      FilterAppend((e: Edge) => e.target == id, front, [last]);
    }
  }

  /** The entry of a planned task, field by field. */
  lemma {:induction false} PlannedInFields(b: Blueprint, i: nat)
    requires i < |b.planned|
    ensures var t, p := AllFromPlan(b)[i], b.planned[i];
            && t.taskId == p.identifier && t.state == READY
            && t.capability == (if p.capabilities == [] then "runtime_v1" else p.capabilities[0])
            && t.dependencies == Map((e: Edge) => e.source, Filter((e: Edge) => e.target == p.identifier, b.edges))
            && t.priority == PriorityOf(b.ordering, p.identifier, i)
  {
    SourcesInFields(b.edges, b.planned[i].identifier);
  }

  predicate ByPriority(a: ExecutionTask, b: ExecutionTask) {
    a.priority <= b.priority
  }

  method BuildPlannedTasks(b: Blueprint) returns (tasks: seq<ExecutionTask>)
    ensures tasks == Sort(ByPriority, AllFromPlan(b))
  {
    var dependencies := CollectSources(b.edges);
    tasks := [];
    for i := 0 to |b.planned|
      invariant |tasks| == i && forall j :: 0 <= j < i ==> tasks[j] == FromPlan(b, j)
    {
      var t := b.planned[i];
      tasks := tasks + [ExecutionTask(
        t.identifier, if t.capabilities != [] then t.capabilities[0] else "runtime_v1", READY,
        Lookup(dependencies, t.identifier), PriorityOf(b.ordering, t.identifier, i))];
    }
    assert tasks == AllFromPlan(b);
    tasks := Sort(ByPriority, tasks);
  }

  /** Every dependency that is in the list comes before the entry that needs it. */
  ghost predicate Topological(tasks: seq<ExecutionTask>) {
    forall p, q :: 0 <= p < |tasks| && 0 <= q < |tasks| && tasks[p].taskId in tasks[q].dependencies ==> p < q
  }

  ghost predicate Earlier(tasks: seq<ExecutionTask>, i: nat, j: nat)
    requires i < |tasks| && j < |tasks|
  {
    tasks[i].priority < tasks[j].priority || (tasks[i].priority == tasks[j].priority && i < j)
  }

  /** Every dependency has an earlier priority, or the same priority and an earlier position. */
  ghost predicate DependenciesRise(tasks: seq<ExecutionTask>) {
    forall i, j :: 0 <= i < |tasks| && 0 <= j < |tasks| && tasks[i].taskId in tasks[j].dependencies ==>
      Earlier(tasks, i, j)
  }

  lemma {:induction false} TopologicalNeeds(all: seq<ExecutionTask>, pos: seq<nat>, i: nat, j: nat)
    requires InOrder(ByPriority, all, pos) && Picks(all, pos, Sort(ByPriority, all))
    requires Topological(Sort(ByPriority, all)) && i < |all| && j < |all| && all[i].taskId in all[j].dependencies
    ensures Earlier(all, i, j)
  {
    assert i in pos && j in pos;
    var p :| 0 <= p < |pos| && pos[p] == i;
    var q :| 0 <= q < |pos| && pos[q] == j;
    PositionOrder(ByPriority, all, pos, p, q);
  }

  lemma {:induction false} RisingSuffices(all: seq<ExecutionTask>, pos: seq<nat>, p: nat, q: nat)
    requires InOrder(ByPriority, all, pos) && Picks(all, pos, Sort(ByPriority, all)) && DependenciesRise(all)
    requires var r := Sort(ByPriority, all); p < |r| && q < |r| && r[p].taskId in r[q].dependencies
    ensures p < q
  {
    assert Earlier(all, pos[p], pos[q]);
    PositionOrder(ByPriority, all, pos, p, q);
  }

  /** Sorted by priority, the list is topological exactly when the priorities respect the
      dependencies. */
  lemma {:induction false} TopologicalExactly(all: seq<ExecutionTask>)
    ensures Topological(Sort(ByPriority, all)) <==> DependenciesRise(all)
  {
    var r := Sort(ByPriority, all);
    var pos := SortPositions(ByPriority, all);
    if Topological(r) {
      forall i: nat, j: nat | i < |all| && j < |all| && all[i].taskId in all[j].dependencies
        ensures Earlier(all, i, j)
      {
        TopologicalNeeds(all, pos, i, j);
      }
    }
    if DependenciesRise(all) {
      forall p: nat, q: nat | p < |r| && q < |r| && r[p].taskId in r[q].dependencies ensures p < q {
        RisingSuffices(all, pos, p, q);
      }
    }
  }

  /** The dependency graph does not order the tasks: here `a` needs `b`, but stays first. */
  lemma {:induction false} DependencyComesLater()
    ensures var b := Blueprint([], [], [PlannedTask("a", []), PlannedTask("b", [])], [Edge("b", "a")]);
            !Topological(Sort(ByPriority, AllFromPlan(b)))
  {
    var b := Blueprint([], [], [PlannedTask("a", []), PlannedTask("b", [])], [Edge("b", "a")]);
    var all := AllFromPlan(b);
    TopologicalExactly(all);
    assert Sources(b.edges, "a") == ["b"] by {
      assert b.edges[..0] == [];
    }
    assert all[1].taskId in all[0].dependencies;
    assert all[0].priority == 0 && all[1].priority == 1;
    assert !Earlier(all, 1, 0);
  }

  ghost predicate IsTaskList(b: Blueprint, lower: string -> string, tasks: seq<ExecutionTask>) {
    if b.capabilityNames == [] then tasks == Sort(ByPriority, AllFromPlan(b))
    else FromCapabilities(b.capabilityNames, b.ordering, lower, tasks) && IsChain(tasks) && HasProvider(tasks)
  }

  /** `build_execution_tasks`. */
  method BuildExecutionTasks(b: Blueprint, lower: string -> string) returns (tasks: seq<ExecutionTask>)
    ensures IsTaskList(b, lower, tasks)
  {
    if b.capabilityNames != [] {
      tasks := BuildCapabilityTasks(b.capabilityNames, b.ordering, lower);
    } else {
      tasks := BuildPlannedTasks(b);
    }
  }

  // ---- the engine ----

  /** First task with the preferred capability, otherwise the first task. */
  function SelectTask(tasks: seq<ExecutionTask>, preferred: string, from: nat := 0): (k: nat)
    requires from <= |tasks| && tasks != []
    ensures k < |tasks|
    ensures (exists i :: from <= i < |tasks| && tasks[i].capability == preferred) ==>
              && from <= k && tasks[k].capability == preferred
              && forall i :: from <= i < k ==> tasks[i].capability != preferred
    ensures (forall i :: from <= i < |tasks| ==> tasks[i].capability != preferred) ==> k == 0
    decreases |tasks| - from
  {
    if from == |tasks| then 0
    else if tasks[from].capability == preferred then from
    else SelectTask(tasks, preferred, from + 1)
  }

  /** Every entry with the id of the dispatched one becomes a completed copy of it. */
  function WithCompleted(tasks: seq<ExecutionTask>, done: ExecutionTask): (r: seq<ExecutionTask>)
    ensures |r| == |tasks|
  {
    seq(|tasks|, i requires 0 <= i < |tasks| =>
      if tasks[i].taskId == done.taskId then done.(state := COMPLETED) else tasks[i])
  }

  datatype ExecutionRun = ExecutionRun(state: ExecutionState, tasks: seq<ExecutionTask>, transitions: seq<Transition>)

  /** What a chat request does to the published run: nothing without metadata or blueprint; the
      initial run only, when there is no entry to dispatch or the dispatcher raises; otherwise
      the initial run and then the completed one. */
  datatype EngineOutcome =
    | NotInitialized
    | NothingToDispatch(initial: ExecutionRun)
    | DispatchRaised(initial: ExecutionRun)
    | Finished(initial: ExecutionRun, final: ExecutionRun)

  lemma {:induction false} CompleteOne(tasks: seq<ExecutionTask>, k: nat)
    requires NoRepeats(TaskIds(tasks)) && k < |tasks|
    ensures WithCompleted(tasks, tasks[k]) == tasks[k := tasks[k].(state := COMPLETED)]
  {
  }

  const INITIAL_LOG := [Transition(None, INITIALIZED, None), Transition(Some(INITIALIZED), READY, None)]

  ghost predicate IsInitial(b: Blueprint, lower: string -> string, run: ExecutionRun) {
    && run.state == READY
    && run.transitions == INITIAL_LOG
    && IsTaskList(b, lower, run.tasks)
  }

  /** `_initialize_run`, once metadata and blueprint are there. */
  method InitializeRun(b: Blueprint, lower: string -> string) returns (run: ExecutionRun)
    ensures IsInitial(b, lower, run)
  {
    var machine := new ExecutionStateMachine(INITIALIZED);
    var tasks := BuildExecutionTasks(b, lower);
    var _ := machine.TransitionTo(READY, None);
    run := ExecutionRun(READY, tasks, machine.transitions);
  }

  /** The completed run: the selected entry, and no other when ids are distinct, is COMPLETED. */
  ghost predicate IsFinal(initial: ExecutionRun, final: ExecutionRun)
    requires initial.tasks != []
  {
    var k := SelectTask(initial.tasks, PROVIDER);
    && final.state == COMPLETED
    && |final.tasks| == |initial.tasks|
    && (forall i :: 0 <= i < |final.tasks| ==>
          final.tasks[i] == if initial.tasks[i].taskId == initial.tasks[k].taskId
                            then initial.tasks[k].(state := COMPLETED) else initial.tasks[i])
    && (NoRepeats(TaskIds(initial.tasks)) ==> final.tasks == initial.tasks[k := initial.tasks[k].(state := COMPLETED)])
    && (HasProvider(initial.tasks) ==> initial.tasks[k].capability == "provider")
    && SeededLog(final.transitions, initial.tasks[k].taskId)
  }

  lemma {:induction false} NothingToRun(b: Blueprint, lower: string -> string, tasks: seq<ExecutionTask>)
    requires IsTaskList(b, lower, tasks)
    ensures tasks == [] <==> b.capabilityNames == [] && b.planned == []
  {
  }

  /** Goes on with a second machine that is seeded with the log of the first. */
  method FinishRun(initial: ExecutionRun) returns (final: ExecutionRun)
    requires initial.state == READY && initial.tasks != [] && initial.transitions == INITIAL_LOG
    ensures IsFinal(initial, final)
  {
    var k := SelectTask(initial.tasks, PROVIDER);
    var taskId := initial.tasks[k].taskId;
    var machine := new ExecutionStateMachine(initial.state);
    machine.transitions := machine.transitions + initial.transitions[1..];
    var _ := machine.TransitionTo(RUNNING, Some(taskId));
    var _ := machine.TransitionTo(COMPLETED, Some(taskId));
    if NoRepeats(TaskIds(initial.tasks)) {
      CompleteOne(initial.tasks, k);
    }
    final := ExecutionRun(COMPLETED, WithCompleted(initial.tasks, initial.tasks[k]), machine.transitions);
  }

  /** `execute_chat`: initialise a run, publish it, dispatch one entry and publish the result. */
  method ExecuteChat(hasMetadata: bool, blueprint: Option<Blueprint>, lower: string -> string, dispatchOk: bool)
    returns (outcome: EngineOutcome)
    ensures outcome.NotInitialized? <==> !hasMetadata || blueprint.None?
    ensures !outcome.NotInitialized? ==> IsInitial(blueprint.value, lower, outcome.initial)
    ensures outcome.NothingToDispatch? <==>
              hasMetadata && blueprint.Some? && blueprint.value.capabilityNames == [] && blueprint.value.planned == []
    ensures outcome.DispatchRaised? ==> !dispatchOk
    ensures outcome.Finished? ==> dispatchOk && outcome.initial.tasks != [] && IsFinal(outcome.initial, outcome.final)
  {
    if !hasMetadata || blueprint.None? {
      return NotInitialized;
    }
    var initial := InitializeRun(blueprint.value, lower);
    NothingToRun(blueprint.value, lower, initial.tasks);
    if initial.tasks == [] {
      return NothingToDispatch(initial);
    }
    if !dispatchOk {
      return DispatchRaised(initial);
    }
    var final := FinishRun(initial);
    return Finished(initial, final);
  }

  ghost predicate SeededLog(log: seq<Transition>, taskId: string) {
    log == [Transition(None, READY, None), Transition(Some(INITIALIZED), READY, None),
            Transition(Some(READY), RUNNING, Some(taskId)), Transition(Some(RUNNING), COMPLETED, Some(taskId))]
  }

  /** The published log is not a chain, because the second machine starts with an entry of its
      own; from its second entry on it is one. */
  lemma {:induction false} SeededLogIsChainFromSecond(log: seq<Transition>, taskId: string)
    requires SeededLog(log, taskId)
    ensures !Chain(log) && Chain(log[1..]) && Last(log) == COMPLETED
  {
    assert log[1].from != Some(log[0].to);
  }

  /** Dispatch does not wait for dependencies: the completed task has its dependencies completed
      exactly when it is the first of the chain. */
  lemma {:induction false} DispatchSkipsDependencies(tasks: seq<ExecutionTask>, k: nat)
    requires IsChain(tasks) && k < |tasks|
    ensures var after := tasks[k := tasks[k].(state := COMPLETED)];
            (forall d :: d in after[k].dependencies ==>
               exists i :: 0 <= i < |after| && after[i].taskId == d && after[i].state == COMPLETED) <==> k == 0
  {
    if k > 0 {
      var d := tasks[k - 1].taskId;
      var after := tasks[k := tasks[k].(state := COMPLETED)];
      assert after[k].dependencies == [d] && d in after[k].dependencies;
      forall i | 0 <= i < |after| && after[i].taskId == d ensures after[i].state != COMPLETED {
        assert i == k - 1;
      }
    } else {
      assert tasks[0].dependencies == [];
    }
  }
}
