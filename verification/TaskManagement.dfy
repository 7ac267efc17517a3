/** The task layer of Runtime V2: task records, their five-field order, the queue, and the
    derivation of tasks from a goal. */
module TaskManagement {
  import opened Prelude
  import opened StableSort
  import opened Text

  datatype TaskState = CREATED | READY | BLOCKED | WAITING | RUNNING | COMPLETED | FAILED | CANCELLED

  datatype Priority = LOW | MEDIUM | HIGH | URGENT

  datatype TaskDependency = TaskDependency(taskId: string, relation: string)

  datatype TaskReport = TaskReport(
    taskId: Option<string>,
    title: string,
    description: Option<string>,
    priority: Priority,
    status: TaskState,
    dependencies: seq<TaskDependency>,
    deadline: Option<string>,
    createdAt: string,
    metadata: map<string, string>)

  datatype GoalStatus =
    | GoalCreated | GoalAnalyzed | GoalPlanned | GoalReady | GoalActive
    | GoalBlocked | GoalCompleted | GoalFailed | GoalCancelled

  datatype GoalReport = GoalReport(
    goalId: Option<int>, title: string, objective: string, priority: Priority,
    status: GoalStatus, metadata: map<string, string>)

  // ---- the order of the queue ----

  datatype Key = Key(late: bool, rank: nat, deadline: string, createdAt: string, id: string)

  const FAR_FUTURE := "9999-12-31T23:59:59+00:00"

  function Rank(p: Priority): nat {
    match p
    case URGENT => 0
    case HIGH => 1
    case MEDIUM => 2
    case LOW => 3
  }

  /** `task_id or ""`. */
  function IdText(t: TaskReport): string {
    if t.taskId.Some? then t.taskId.value else ""
  }

  function KeyOf(t: TaskReport): Key {
    Key(t.status != READY, Rank(t.priority),
        if t.deadline.Some? && t.deadline.value != "" then t.deadline.value else FAR_FUTURE,
        t.createdAt, IdText(t))
  }

  predicate KeyLe(a: Key, b: Key) {
    if a.late != b.late then b.late
    else if a.rank != b.rank then a.rank < b.rank
    else if a.deadline != b.deadline then StrLe(a.deadline, b.deadline)
    else if a.createdAt != b.createdAt then StrLe(a.createdAt, b.createdAt)
    else StrLe(a.id, b.id)
  }

  predicate TaskLe(a: TaskReport, b: TaskReport) {
    KeyLe(KeyOf(a), KeyOf(b))
  }

  lemma {:induction false} KeyTotal(a: Key, b: Key)
    ensures KeyLe(a, b) || KeyLe(b, a)
  {
    StrTotal(a.deadline, b.deadline);
    StrTotal(a.createdAt, b.createdAt);
    StrTotal(a.id, b.id);
  }

  lemma {:induction false} FieldTransitive(a: string, b: string, c: string)
    ensures StrLe(a, b) && StrLe(b, c) ==> StrLe(a, c)
    ensures StrLe(a, b) && StrLe(b, a) ==> a == b
  {
    if StrLe(a, b) && StrLe(b, c) {
      StrTransitive(a, b, c);
    }
    if StrLe(a, b) && StrLe(b, a) {
      StrAntisymmetric(a, b);
    }
  }

  lemma {:induction false} KeyTransitive(a: Key, b: Key, c: Key)
    requires KeyLe(a, b) && KeyLe(b, c)
    ensures KeyLe(a, c)
  {
    FieldTransitive(a.deadline, b.deadline, c.deadline);
    FieldTransitive(a.createdAt, b.createdAt, c.createdAt);
    FieldTransitive(a.id, b.id, c.id);
  }

  lemma {:induction false} TaskOrder()
    ensures TotalPreorder(TaskLe)
  {
    forall x, y ensures TaskLe(x, y) || TaskLe(y, x) {
      KeyTotal(KeyOf(x), KeyOf(y));
    }
    forall x, y, z | TaskLe(x, y) && TaskLe(y, z) ensures TaskLe(x, z) {
      KeyTransitive(KeyOf(x), KeyOf(y), KeyOf(z));
    }
  }

  predicate MoreUrgent(p: Priority, q: Priority) {
    || (p == URGENT && q != URGENT)
    || (p == HIGH && (q == MEDIUM || q == LOW))
    || (p == MEDIUM && q == LOW)
  }

  /** Of two different priorities exactly one is more urgent. */
  lemma {:induction false} UrgencyTotal(p: Priority, q: Priority)
    ensures MoreUrgent(p, q) || MoreUrgent(q, p) <==> p != q
    ensures !(MoreUrgent(p, q) && MoreUrgent(q, p))
  {
  }

  /** The order written out in the fields of the records: READY first, then by urgency, by
      deadline (a record without one as if due at the end of the year 9999), by creation time and
      by id. */
  lemma {:induction false} OrderInFields(a: TaskReport, b: TaskReport)
    ensures (a.status == READY) && b.status != READY ==> TaskLe(a, b) && !TaskLe(b, a)
    ensures (a.status == READY) == (b.status == READY) && MoreUrgent(a.priority, b.priority) ==>
              TaskLe(a, b) && !TaskLe(b, a)
    ensures (a.status == READY) == (b.status == READY) && a.priority == b.priority ==>
              var due := if a.deadline.Some? && a.deadline.value != "" then a.deadline.value
                         else "9999-12-31T23:59:59+00:00";
              var due' := if b.deadline.Some? && b.deadline.value != "" then b.deadline.value
                          else "9999-12-31T23:59:59+00:00";
              var id := if a.taskId.Some? then a.taskId.value else "";
              var id' := if b.taskId.Some? then b.taskId.value else "";
              if due != due' then TaskLe(a, b) == StrLe(due, due')
              else if a.createdAt != b.createdAt then TaskLe(a, b) == StrLe(a.createdAt, b.createdAt)
              else TaskLe(a, b) == StrLe(id, id')
  {
  }

  function Ordered(tasks: seq<TaskReport>): seq<TaskReport> {
    Sort(TaskLe, tasks)
  }

  /** In a sorted list no READY record comes after another one. */
  lemma {:induction false} ReadyFirst(tasks: seq<TaskReport>, i: nat, j: nat)
    requires i < j < |Ordered(tasks)| && Ordered(tasks)[j].status == READY
    ensures Ordered(tasks)[i].status == READY
  {
    TaskOrder();
    SortSorted(TaskLe, tasks);
    OrderInFields(Ordered(tasks)[j], Ordered(tasks)[i]);
  }

  // ---- reading a task list ----

  predicate IsReady(t: TaskReport) {
    t.status == READY
  }

  function HasStatus(s: TaskState): TaskReport -> bool {
    (t: TaskReport) => t.status == s
  }

  function Count(s: TaskState, tasks: seq<TaskReport>): nat {
    |Filter(HasStatus(s), tasks)|
  }

  function ReadyTasks(tasks: seq<TaskReport>): seq<TaskReport> {
    Filter(IsReady, Ordered(tasks))
  }

  predicate ValidateDependencies(t: TaskReport, completed: set<string>) {
    forall d :: d in t.dependencies ==> d.taskId in completed
  }

  function UpdateTask(t: TaskReport, status: TaskState, metadata: map<string, string>): TaskReport {
    t.(status := status, metadata := t.metadata + metadata)
  }

  function IdsOf(tasks: seq<TaskReport>): (r: seq<Option<string>>)
    ensures |r| == |tasks| && forall i :: 0 <= i < |r| ==> r[i] == tasks[i].taskId
  {
    Map((t: TaskReport) => t.taskId, tasks)
  }

  ghost predicate DistinctIds(tasks: seq<TaskReport>) {
    NoRepeats(IdsOf(tasks))
  }

  // ---- the queue ----

  datatype QueueSnapshot = QueueSnapshot(
    queueSize: nat, readyCount: nat, blockedCount: nat, completedCount: nat,
    withDependencies: nat, withoutDependencies: nat,
    prioritySummary: map<Priority, nat>, queuedTasks: seq<TaskReport>)

  predicate HasDependencies(t: TaskReport) {
    t.dependencies != []
  }

  predicate LacksDependencies(t: TaskReport) {
    t.dependencies == []
  }

  function HasPriority(p: Priority): TaskReport -> bool {
    (t: TaskReport) => t.priority == p
  }

  function Snapshot(tasks: seq<TaskReport>): QueueSnapshot {
    QueueSnapshot(
      |tasks|, Count(READY, tasks), Count(BLOCKED, tasks), Count(COMPLETED, tasks),
      |Filter(HasDependencies, tasks)|, |Filter(LacksDependencies, tasks)|,
      map p | p in {LOW, MEDIUM, HIGH, URGENT} :: |Filter(HasPriority(p), tasks)|,
      tasks)
  }

  /** What the snapshot counts. */
  lemma {:induction false} SnapshotInFields(tasks: seq<TaskReport>)
    ensures var n := Snapshot(tasks);
            && n.queueSize == |tasks| && n.queuedTasks == tasks
            && n.readyCount == |Filter((t: TaskReport) => t.status == READY, tasks)|
            && n.blockedCount == |Filter((t: TaskReport) => t.status == BLOCKED, tasks)|
            && n.completedCount == |Filter((t: TaskReport) => t.status == COMPLETED, tasks)|
            && n.withDependencies == |Filter((t: TaskReport) => t.dependencies != [], tasks)|
            && n.withoutDependencies == |Filter((t: TaskReport) => t.dependencies == [], tasks)|
    ensures forall p: Priority :: p in Snapshot(tasks).prioritySummary &&
              Snapshot(tasks).prioritySummary[p] == |Filter((t: TaskReport) => t.priority == p, tasks)|
  {
    SameFilter(HasStatus(READY), (t: TaskReport) => t.status == READY, tasks);
    SameFilter(HasStatus(BLOCKED), (t: TaskReport) => t.status == BLOCKED, tasks);
    SameFilter(HasStatus(COMPLETED), (t: TaskReport) => t.status == COMPLETED, tasks);
    SameFilter(HasDependencies, (t: TaskReport) => t.dependencies != [], tasks);
    SameFilter(LacksDependencies, (t: TaskReport) => t.dependencies == [], tasks);
    forall p: Priority
      ensures p in Snapshot(tasks).prioritySummary
      ensures |Filter(HasPriority(p), tasks)| == |Filter((t: TaskReport) => t.priority == p, tasks)|
    {
      SameFilter(HasPriority(p), (t: TaskReport) => t.priority == p, tasks);
      assert p == LOW || p == MEDIUM || p == HIGH || p == URGENT;
    }
  }

  /** The queue keeps its entries sorted by re-sorting on every arrival. `waiting` records the
      tasks not yet taken, in the order in which they arrived. */
  class TaskQueue {
    var entries: seq<TaskReport>
    ghost var waiting: seq<TaskReport>

    ghost predicate Valid()
      reads this
    {
      entries == Ordered(waiting)
    }

    constructor ()
      ensures Valid() && waiting == []
    {
      entries := [];
      waiting := [];
    }

    method Enqueue(task: TaskReport)
      requires Valid()
      modifies this
      ensures Valid() && waiting == old(waiting) + [task]
    {
      TaskOrder();
      ResortAfterAppend(TaskLe, waiting, task);
      entries := Ordered(entries + [task]);
      waiting := waiting + [task];
    }

    /** Takes the earliest arrival among the least tasks, or nothing from an empty queue. */
    method Dequeue() returns (task: Option<TaskReport>)
      requires Valid()
      modifies this
      ensures Valid()
      ensures task.None? <==> old(waiting) == []
      ensures task.None? ==> waiting == old(waiting)
      ensures task.Some? ==> exists i: nat ::
                FirstLeast(TaskLe, old(waiting), i) && task.value == old(waiting)[i] &&
                waiting == Without(old(waiting), i)
    {
      SortMultiset(TaskLe, waiting);
      if entries == [] {
        return None;
      }
      TaskOrder();
      ghost var i := SortHead(TaskLe, waiting);
      task := Some(entries[0]);
      entries := entries[1..];
      waiting := Without(waiting, i);
    }

    method Reorder(tasks: seq<TaskReport>)
      modifies this
      ensures Valid() && waiting == tasks
    {
      entries := Ordered(tasks);
      waiting := tasks;
    }

    method Inspect() returns (snapshot: QueueSnapshot)
      requires Valid()
      ensures snapshot == Snapshot(Ordered(waiting))
    {
      snapshot := Snapshot(entries);
    }
  }

  datatype QueueCall = Put(task: TaskReport) | Take

  function PutTasks(calls: seq<QueueCall>): seq<TaskReport> {
    if calls == [] then []
    else
      var rest := PutTasks(calls[..|calls| - 1]);
      match calls[|calls| - 1]
      case Put(t) => rest + [t]
      case Take => rest
  }

  /** What was taken and what still waits are together exactly what was put in. */
  ghost predicate Conserved(calls: seq<QueueCall>, taken: seq<TaskReport>, waiting: seq<TaskReport>) {
    multiset(taken) + multiset(waiting) == multiset(PutTasks(calls))
  }

  lemma {:induction false} PutConserves(
      calls: seq<QueueCall>, taken: seq<TaskReport>, waiting: seq<TaskReport>, t: TaskReport)
    requires Conserved(calls, taken, waiting)
    ensures Conserved(calls + [Put(t)], taken, waiting + [t])
  {
    assert (calls + [Put(t)])[..|calls|] == calls;
  }

  lemma {:induction false} TakeConserves(
      calls: seq<QueueCall>, taken: seq<TaskReport>, waiting: seq<TaskReport>, i: nat)
    requires Conserved(calls, taken, waiting) && i < |waiting|
    ensures Conserved(calls + [Take], taken + [waiting[i]], Without(waiting, i))
  {
    assert (calls + [Take])[..|calls|] == calls;
    assert waiting == waiting[..i] + [waiting[i]] + waiting[i + 1..];
  }

  lemma {:induction false} EmptyTakeConserves(calls: seq<QueueCall>, taken: seq<TaskReport>, waiting: seq<TaskReport>)
    requires Conserved(calls, taken, waiting)
    ensures Conserved(calls + [Take], taken, waiting)
  {
    assert (calls + [Take])[..|calls|] == calls;
  }

  /** What a queue has taken out and what still waits, in the order of arrival. */
  datatype Service = Service(taken: seq<TaskReport>, waiting: seq<TaskReport>)

  /** What the calls amount to: each departure takes the earliest of the least tasks that wait. */
  function Served(calls: seq<QueueCall>): Service {
    if calls == [] then Service([], []) else ServeOne(Served(calls[..|calls| - 1]), calls[|calls| - 1])
  }

  function ServeOne(v: Service, c: QueueCall): Service {
    match c
    case Put(t) => v.(waiting := v.waiting + [t])
    case Take =>
      if v.waiting == [] then v
      else
        var i := LeastIndex(TaskLe, v.waiting);
        Service(v.taken + [v.waiting[i]], Without(v.waiting, i))
  }

  /** No task is lost or duplicated. */
  lemma {:induction false} ServedConserves(calls: seq<QueueCall>)
    ensures Conserved(calls, Served(calls).taken, Served(calls).waiting)
  {
    if calls != [] {
      var front, c := calls[..|calls| - 1], calls[|calls| - 1];
      var v := Served(front);
      assert calls == front + [c];
      ServedConserves(front);
      match c
      case Put(t) => PutConserves(front, v.taken, v.waiting, t);
      case Take =>
        if v.waiting == [] {
          EmptyTakeConserves(front, v.taken, v.waiting);
        } else {
          TakeConserves(front, v.taken, v.waiting, LeastIndex(TaskLe, v.waiting));
        }
    }
  }

  lemma {:induction false} ServedSnoc(calls: seq<QueueCall>, c: QueueCall)
    ensures Served(calls + [c]) == ServeOne(Served(calls), c)
  {
    assert (calls + [c])[..|calls|] == calls;
  }

  /** One call on the queue. */
  method ServeCall(queue: TaskQueue, c: QueueCall, taken: seq<TaskReport>) returns (taken': seq<TaskReport>)
    requires queue.Valid()
    modifies queue
    ensures queue.Valid()
    ensures Service(taken', queue.waiting) == ServeOne(Service(taken, old(queue.waiting)), c)
  {
    taken' := taken;
    match c {
      case Put(t) =>
        queue.Enqueue(t);
      case Take =>
        ghost var before := queue.waiting;
        var t := queue.Dequeue();
        if t.Some? {
          ghost var i: nat :| FirstLeast(TaskLe, before, i) && t.value == before[i] &&
                              queue.waiting == Without(before, i);
          TaskOrder();
          LeastIndexOnly(TaskLe, before, i);
          taken' := taken' + [t.value];
        }
    }
  }

  /** Under any mix of arrivals and departures the tasks taken are, one by one, the earliest of
      the least that waited; none is lost or duplicated, and what is left is in order. */
  method DriveQueue(calls: seq<QueueCall>) returns (taken: seq<TaskReport>, left: seq<TaskReport>)
    ensures taken == Served(calls).taken && left == Ordered(Served(calls).waiting)
    ensures Conserved(calls, taken, left) && Sorted(TaskLe, left)
  {
    var queue := new TaskQueue();
    taken := [];
    for n := 0 to |calls|
      invariant fresh(queue) && queue.Valid() && Service(taken, queue.waiting) == Served(calls[..n])
    {
      assert calls[..n + 1] == calls[..n] + [calls[n]];
      ServedSnoc(calls[..n], calls[n]);
      taken := ServeCall(queue, calls[n], taken);
    }
    assert calls[..|calls|] == calls;
    ServedConserves(calls);
    TaskOrder();
    SortMultiset(TaskLe, queue.waiting);
    SortSorted(TaskLe, queue.waiting);
    left := queue.entries;
  }

  /** Queueing a list one task at a time and looking at the queue. */
  method SnapshotOf(tasks: seq<TaskReport>) returns (snapshot: QueueSnapshot)
    ensures snapshot == Snapshot(Ordered(tasks))
  {
    var queue := new TaskQueue();
    for n := 0 to |tasks|
      invariant fresh(queue) && queue.Valid() && queue.waiting == tasks[..n]
    {
      queue.Enqueue(tasks[n]);
    }
    assert tasks[..|tasks|] == tasks;
    snapshot := queue.Inspect();
  }

  lemma {:induction false} CountOrdered(s: TaskState, tasks: seq<TaskReport>)
    ensures Count(s, Ordered(tasks)) == Count(s, tasks)
  {
    TaskOrder();
    FilterSort(TaskLe, HasStatus(s), tasks);
    SortMultiset(TaskLe, Filter(HasStatus(s), tasks));
  }

  // ---- tasks of a goal ----

  /** The characters that `str.split()` treats as white space. */
  predicate IsSpace(c: char) {
    var n := c as int;
    || 0x09 <= n <= 0x0d || 0x1c <= n <= 0x20 || n in {0x85, 0xa0, 0x1680}
    || 0x2000 <= n <= 0x200a || n in {0x2028, 0x2029, 0x202f, 0x205f, 0x3000}
  }

  /** All of them, one by one. */
  lemma {:induction false} SpaceTable(c: char)
    ensures IsSpace(c) <==>
            c as int in {9, 10, 11, 12, 13, 28, 29, 30, 31, 32, 133, 160, 5760, 8192, 8193, 8194, 8195, 8196, 8197,
                         8198, 8199, 8200, 8201, 8202, 8232, 8233, 8239, 8287, 12288}
  {
  }

  /** `len(s.split())`: the number of places where a word begins. */
  function WordCount(s: string): nat {
    if s == [] then 0
    else
      var last := |s| - 1;
      WordCount(s[..last]) + if !IsSpace(s[last]) && (last == 0 || IsSpace(s[last - 1])) then 1 else 0
  }

  predicate StartsWord(s: string, i: int) {
    0 <= i < |s| && !IsSpace(s[i]) && (i == 0 || IsSpace(s[i - 1]))
  }

  function WordStarts(s: string): set<int> {
    set i | 0 <= i < |s| && StartsWord(s, i)
  }

  lemma {:induction false} WordCountIsStarts(s: string)
    ensures WordCount(s) == |WordStarts(s)|
    ensures forall i {:trigger i in WordStarts(s)} :: i in WordStarts(s) <==>
              0 <= i < |s| && !IsSpace(s[i]) && (i == 0 || IsSpace(s[i - 1]))
  {
    CountStarts(s);
  }

  lemma {:induction false} CountStarts(s: string)
    ensures WordCount(s) == |WordStarts(s)|
  {
    if s != [] {
      CountStarts(s[..|s| - 1]);
      StartsStep(s);
    }
  }

  lemma {:induction false} StartsStep(s: string)
    requires s != []
    ensures var last := |s| - 1;
            |WordStarts(s)| == |WordStarts(s[..last])| + if StartsWord(s, last) then 1 else 0
  {
    var last, front := |s| - 1, s[..|s| - 1];
    forall i | 0 <= i < last ensures StartsWord(front, i) <==> StartsWord(s, i) {
      assert front[i] == s[i] && (i > 0 ==> front[i - 1] == s[i - 1]);
    }
    assert last !in WordStarts(front);
    assert WordStarts(s) == WordStarts(front) + if StartsWord(s, last) then {last} else {};
  }

  function BaseCount(goal: GoalReport): (n: nat)
    ensures 1 <= n <= 3
    ensures n == 1 <==> WordCount(goal.objective) < 8
    ensures n == 3 <==> WordCount(goal.objective) >= 12
  {
    var quarter := WordCount(goal.objective) / 4;
    if quarter == 0 then 1 else if quarter < 3 then quarter else 3
  }

  function GoalIdText(goal: GoalReport): string {
    if goal.goalId.Some? && goal.goalId.value != 0 then DecimalInt(goal.goalId.value) else "goal"
  }

  function TaskIdAt(goal: GoalReport, n: nat): string {
    GoalIdText(goal) + "-task-" + Decimal(n)
  }

  lemma {:induction false} TaskIdInjective(goal: GoalReport, m: nat, n: nat)
    requires TaskIdAt(goal, m) == TaskIdAt(goal, n)
    ensures m == n
  {
    SuffixInjective(GoalIdText(goal) + "-task-", Decimal(m), Decimal(n));
    DecimalInjective(m, n);
  }

  function TaskAt(goal: GoalReport, index: nat, now: string): TaskReport {
    TaskReport(
      Some(TaskIdAt(goal, index + 1)),
      goal.title + " - Step " + Decimal(index + 1),
      Some(if index == 0 then goal.objective else "Continue: " + goal.objective),
      goal.priority,
      if index == 0 then READY else BLOCKED,
      if index > 0 then [TaskDependency(TaskIdAt(goal, index), "prerequisite")] else [],
      if "deadline" in goal.metadata then Some(goal.metadata["deadline"]) else None,
      now,
      map["goal_objective" := goal.objective] + goal.metadata)
  }

  /** A chain of tasks in which only the first is ready: the others are blocked, each on
      exactly its predecessor. */
  ghost predicate IsTaskChain(tasks: seq<TaskReport>) {
    && DistinctIds(tasks)
    && (forall i :: 0 <= i < |tasks| ==> tasks[i].status == if i == 0 then READY else BLOCKED)
    && (tasks != [] ==> tasks[0].dependencies == [])
    && (forall i :: 0 < i < |tasks| ==>
          tasks[i].dependencies == [TaskDependency(IdText(tasks[i - 1]), "prerequisite")])
  }

  lemma {:induction false} TaskIdsDistinct(goal: GoalReport, tasks: seq<TaskReport>)
    requires forall i :: 0 <= i < |tasks| ==> tasks[i].taskId == Some(TaskIdAt(goal, i + 1))
    ensures DistinctIds(tasks)
  {
    forall i, j | 0 <= i < j < |tasks| ensures tasks[i].taskId != tasks[j].taskId {
      if TaskIdAt(goal, i + 1) == TaskIdAt(goal, j + 1) {
        TaskIdInjective(goal, i + 1, j + 1);
      }
    }
  }

  /** The record of step `index`, written out. */
  ghost predicate IsStep(goal: GoalReport, now: string, index: nat, t: TaskReport) {
    var id := if goal.goalId.Some? && goal.goalId.value != 0 then DecimalInt(goal.goalId.value) else "goal";
    var prefix := id + "-task-";
    && t.taskId == Some(prefix + Decimal(index + 1))
    && t.title == goal.title + " - Step " + Decimal(index + 1)
    && t.description == Some(if index == 0 then goal.objective else "Continue: " + goal.objective)
    && t.priority == goal.priority && t.createdAt == now
    && t.status == (if index == 0 then READY else BLOCKED)
    && t.dependencies == (if index == 0 then [] else [TaskDependency(prefix + Decimal(index), "prerequisite")])
    && t.deadline == (if "deadline" in goal.metadata then Some(goal.metadata["deadline"]) else None)
    && t.metadata.Keys == goal.metadata.Keys + {"goal_objective"}
    && (forall k :: k in goal.metadata ==> t.metadata[k] == goal.metadata[k])
    && ("goal_objective" !in goal.metadata ==> t.metadata["goal_objective"] == goal.objective)
  }

  lemma {:induction false} TaskAtInFields(goal: GoalReport, index: nat, now: string)
    ensures IsStep(goal, now, index, TaskAt(goal, index, now))
  {
  }

  lemma {:induction false} ChainOfTasks(goal: GoalReport, now: string, tasks: seq<TaskReport>)
    requires forall i :: 0 <= i < |tasks| ==> tasks[i] == TaskAt(goal, i, now)
    ensures IsTaskChain(tasks) && forall i :: 0 <= i < |tasks| ==> IsStep(goal, now, i, tasks[i])
  {
    forall i | 0 <= i < |tasks|
      ensures IsStep(goal, now, i, tasks[i])
      ensures tasks[i].taskId == Some(TaskIdAt(goal, i + 1))
      ensures tasks[i].status == if i == 0 then READY else BLOCKED
      ensures tasks[i].dependencies == if i == 0 then [] else [TaskDependency(TaskIdAt(goal, i), "prerequisite")]
    {
      TaskAtInFields(goal, i, now);
    }
    TaskIdsDistinct(goal, tasks);
    forall i | 0 < i < |tasks| ensures IdText(tasks[i - 1]) == TaskIdAt(goal, i) {
      assert tasks[i - 1].taskId == Some(TaskIdAt(goal, i - 1 + 1));
    }
  }

  method CreateTasks(goal: GoalReport, now: string) returns (tasks: seq<TaskReport>)
    ensures |tasks| == BaseCount(goal) && IsTaskChain(tasks)
    ensures forall i :: 0 <= i < |tasks| ==> tasks[i] == TaskAt(goal, i, now) && IsStep(goal, now, i, tasks[i])
  {
    tasks := ListTasks(goal, BaseCount(goal), now);
    ChainOfTasks(goal, now, tasks);
  }

  method ListTasks(goal: GoalReport, n: nat, now: string) returns (tasks: seq<TaskReport>)
    ensures |tasks| == n && forall i :: 0 <= i < n ==> tasks[i] == TaskAt(goal, i, now)
  {
    tasks := [];
    for index := 0 to n
      invariant |tasks| == index && forall i :: 0 <= i < index ==> tasks[i] == TaskAt(goal, i, now)
    {
      var task := TaskAt(goal, index, now);
      tasks := tasks + [task];
    }
  }
}
