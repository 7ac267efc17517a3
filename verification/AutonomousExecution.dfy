/** The autonomous execution loop. Each turn re-sorts the whole task list, takes the first
    READY task, decides, hands it to the runtime and rewrites the list. It is proved equal to
    a much simpler description: sort the READY tasks once and walk them. */
module AutonomousExecution {
  import opened Prelude
  import opened StableSort
  import opened TaskManagement
  import opened Text

  datatype Decision = Executable | DecidedBlocked | DecidedWaiting | Skipped | DecidedCancelled

  function Decide(task: TaskReport, completedIds: set<string>): Decision {
    if task.status == CANCELLED then DecidedCancelled
    else if task.status == COMPLETED then Skipped
    else if !ValidateDependencies(task, completedIds) then DecidedBlocked
    else if task.status == READY then Executable
    else DecidedWaiting
  }

  /** The decision for a record in any state. */
  lemma {:induction false} DecideInFields(task: TaskReport, completedIds: set<string>)
    ensures var missing := exists d :: d in task.dependencies && d.taskId !in completedIds;
            Decide(task, completedIds) ==
            if task.status == CANCELLED then DecidedCancelled
            else if task.status == COMPLETED then Skipped
            else if missing then DecidedBlocked
            else if task.status == READY then Executable
            else DecidedWaiting
  {
  }

  /** What one hand-over to the runtime returns or raises. */
  datatype RunResult = Ok | Error(message: string)

  // ---- the simple description ----

  datatype Verdict = Done | Broke(message: string) | Held

  datatype Settled = Settled(task: TaskReport, verdict: Verdict)

  function VerdictOn(task: TaskReport, runtime: nat -> RunResult, calls: nat, done: set<string>): Verdict {
    if !ValidateDependencies(task, done) then Held
    else
      match runtime(calls)
      case Ok => Done
      case Error(m) => Broke(m)
  }

  /** Walk a list once: a task whose dependencies have all completed earlier in the walk is
      handed over, any other is held. `calls` counts the hand-overs so far. */
  function Walk(queue: seq<TaskReport>, runtime: nat -> RunResult, calls: nat, done: set<string>): (w: seq<Settled>)
    ensures |w| == |queue|
    ensures queue != [] ==> w[0] == Settled(queue[0], VerdictOn(queue[0], runtime, calls, done))
  {
    if queue == [] then []
    else
      var v := VerdictOn(queue[0], runtime, calls, done);
      [Settled(queue[0], v)] +
      Walk(queue[1..], runtime, if v.Held? then calls else calls + 1,
           if v.Done? then done + {IdText(queue[0])} else done)
  }

  lemma {:induction false} TasksOfWalk(queue: seq<TaskReport>, runtime: nat -> RunResult, calls: nat, done: set<string>)
    ensures Tasks(Walk(queue, runtime, calls, done)) == queue
  {
    if queue != [] {
      var v := VerdictOn(queue[0], runtime, calls, done);
      TasksOfWalk(queue[1..], runtime, if v.Held? then calls else calls + 1,
                  if v.Done? then done + {IdText(queue[0])} else done);
    }
  }

  predicate IsDone(s: Settled) { s.verdict.Done? }
  predicate IsBroke(s: Settled) { s.verdict.Broke? }
  predicate IsHeld(s: Settled) { s.verdict.Held? }
  predicate IsHandedOver(s: Settled) { !s.verdict.Held? }

  /** The record of a task after its verdict. */
  function Finish(t: TaskReport, v: Verdict): TaskReport {
    match v
    case Done => UpdateTask(t, COMPLETED, map[])
    case Broke(m) => UpdateTask(t, FAILED, map["error" := m])
    case Held => UpdateTask(t, BLOCKED, map[])
  }

  function Finished(ws: seq<Settled>): seq<TaskReport> {
    if ws == [] then [] else [Finish(ws[0].task, ws[0].verdict)] + Finished(ws[1..])
  }

  function Tasks(ws: seq<Settled>): seq<TaskReport> {
    if ws == [] then [] else [ws[0].task] + Tasks(ws[1..])
  }

  function Replace(tasks: seq<TaskReport>, t: TaskReport): (r: seq<TaskReport>)
    ensures |r| == |tasks|
  {
    seq(|tasks|, i requires 0 <= i < |tasks| => if tasks[i].taskId == t.taskId then t else tasks[i])
  }

  function Settle(tasks: seq<TaskReport>, w: Settled): (r: seq<TaskReport>)
    ensures |r| == |tasks|
  {
    Replace(tasks, Finish(w.task, w.verdict))
  }

  function SettleAll(tasks: seq<TaskReport>, ws: seq<Settled>): (r: seq<TaskReport>)
    ensures |r| == |tasks|
    decreases |ws|
  {
    if ws == [] then tasks else SettleAll(Settle(tasks, ws[0]), ws[1..])
  }

  /** The whole run as the simple description gives it. */
  function WalkOf(tasks: seq<TaskReport>, runtime: nat -> RunResult): seq<Settled> {
    Walk(ReadyTasks(tasks), runtime, 0, {})
  }

  // ---- one turn of the loop ----

  function OtherThan(id: Option<string>): TaskReport -> bool {
    (t: TaskReport) => t.taskId != id
  }

  lemma {:induction false} ReadyAfterSettle(tasks: seq<TaskReport>, w: Settled)
    ensures Filter(IsReady, Settle(tasks, w)) == Filter(OtherThan(w.task.taskId), Filter(IsReady, tasks))
  {
    if tasks != [] {
      assert Settle(tasks, w)[1..] == Settle(tasks[1..], w);
      ReadyAfterSettle(tasks[1..], w);
      if tasks[0].status == READY {
        assert ([tasks[0]] + Filter(IsReady, tasks[1..]))[1..] == Filter(IsReady, tasks[1..]);
      }
    }
  }

  lemma {:induction false} DistinctTail(tasks: seq<TaskReport>)
    requires DistinctIds(tasks) && tasks != []
    ensures DistinctIds(tasks[1..]) && forall t :: t in tasks[1..] ==> t.taskId != tasks[0].taskId
  {
  }

  lemma {:induction false} DistinctCons(task: TaskReport, rest: seq<TaskReport>)
    requires DistinctIds(rest) && forall t :: t in rest ==> t.taskId != task.taskId
    ensures DistinctIds([task] + rest)
  {
  }

  lemma {:induction false} FilterKeepsDistinct(p: TaskReport -> bool, tasks: seq<TaskReport>)
    requires DistinctIds(tasks)
    ensures DistinctIds(Filter(p, tasks))
  {
    if tasks != [] {
      DistinctTail(tasks);
      FilterKeepsDistinct(p, tasks[1..]);
      FilterMembers(p, tasks[1..]);
      DistinctCons(tasks[0], Filter(p, tasks[1..]));
    }
  }

  lemma {:induction false} SortKeepsDistinct(le: (TaskReport, TaskReport) -> bool, tasks: seq<TaskReport>)
    requires TotalPreorder(le) && DistinctIds(tasks)
    ensures DistinctIds(Sort(le, tasks))
  {
    var ids, r := IdsOf(tasks), IdsOf(Sort(le, tasks));
    var pos := SortPositions(le, tasks);
    forall p, q | 0 <= p < q < |r| ensures r[p] != r[q] {
      PositionOrder(le, tasks, pos, p, q);
      assert ids[pos[p]] != ids[pos[q]];
    }
  }

  lemma {:induction false} ReadyAreReady(tasks: seq<TaskReport>)
    ensures forall t :: t in ReadyTasks(tasks) <==> t in tasks && t.status == READY
  {
    SortMultiset(TaskLe, tasks);
    FilterMembers(IsReady, Ordered(tasks));
  }

  lemma {:induction false} ReadyDistinct(tasks: seq<TaskReport>)
    requires DistinctIds(tasks)
    ensures DistinctIds(ReadyTasks(tasks))
  {
    TaskOrder();
    SortKeepsDistinct(TaskLe, tasks);
    FilterKeepsDistinct(IsReady, Ordered(tasks));
  }

  /** After the first READY task has been settled, re-sorting and filtering the rewritten list
      gives the rest of the list that was already there. */
  lemma {:induction false} ReadyTail(tasks: seq<TaskReport>, v: Verdict)
    requires DistinctIds(tasks) && ReadyTasks(tasks) != []
    ensures ReadyTasks(Settle(tasks, Settled(ReadyTasks(tasks)[0], v))) == ReadyTasks(tasks)[1..]
  {
    var ready := ReadyTasks(tasks);
    var w := Settled(ready[0], v);
    var others := OtherThan(ready[0].taskId);
    TaskOrder();
    FilterSort(TaskLe, IsReady, Settle(tasks, w));
    ReadyAfterSettle(tasks, w);
    FilterSort(TaskLe, others, Filter(IsReady, tasks));
    FilterSort(TaskLe, IsReady, tasks);
    assert ReadyTasks(Settle(tasks, w)) == Filter(others, ready);
    ReadyDistinct(tasks);
    FilterAll(others, ready[1..]);
  }

  lemma {:induction false} SettleTouchesOne(tasks: seq<TaskReport>, w: Settled, i: nat)
    requires DistinctIds(tasks) && w.task in tasks && i < |tasks|
    ensures Settle(tasks, w)[i] == if tasks[i] == w.task then Finish(w.task, w.verdict) else tasks[i]
  {
  }

  // ---- the loop ----

  /** The lists that the loop keeps beside the task list: the tasks it picked, those it handed
      to the runtime, and the three result lists. `blocked` holds records as they were when
      picked, still READY. */
  datatype Books = Books(
    picked: seq<TaskReport>, handedOver: seq<TaskReport>,
    completed: seq<TaskReport>, failed: seq<TaskReport>, blocked: seq<TaskReport>)

  const EMPTY_BOOKS := Books([], [], [], [], [])

  function Enter(b: Books, s: Settled): Books {
    var picked, handed := b.picked + [s.task], b.handedOver + [s.task];
    match s.verdict
    case Done => b.(picked := picked, handedOver := handed, completed := b.completed + [Finish(s.task, s.verdict)])
    case Broke(_) => b.(picked := picked, handedOver := handed, failed := b.failed + [Finish(s.task, s.verdict)])
    case Held => b.(picked := picked, blocked := b.blocked + [s.task])
  }

  function EnterAll(b: Books, ws: seq<Settled>): Books
    decreases |ws|
  {
    if ws == [] then b else EnterAll(Enter(b, ws[0]), ws[1..])
  }

  function Join(a: Books, b: Books): Books {
    Books(a.picked + b.picked, a.handedOver + b.handedOver,
          a.completed + b.completed, a.failed + b.failed, a.blocked + b.blocked)
  }

  /** The books that the simple description predicts, read off the walk from its front. */
  function BooksOf(w: seq<Settled>): Books {
    if w == [] then EMPTY_BOOKS else Join(Enter(EMPTY_BOOKS, w[0]), BooksOf(w[1..]))
  }

  lemma {:induction false} JoinEnter(b: Books, s: Settled, c: Books)
    ensures Join(Enter(b, s), c) == Join(b, Join(Enter(EMPTY_BOOKS, s), c))
  {
  }

  lemma {:induction false} EnterAllIsBooksOf(b: Books, ws: seq<Settled>)
    ensures EnterAll(b, ws) == Join(b, BooksOf(ws))
    decreases |ws|
  {
    if ws != [] {
      EnterAllIsBooksOf(Enter(b, ws[0]), ws[1..]);
      JoinEnter(b, ws[0], BooksOf(ws[1..]));
    }
  }

  lemma {:induction false} EnterAllFromEmpty(ws: seq<Settled>)
    ensures EnterAll(EMPTY_BOOKS, ws) == BooksOf(ws)
  {
    EnterAllIsBooksOf(EMPTY_BOOKS, ws);
    var b := BooksOf(ws);
    assert Join(EMPTY_BOOKS, b) == b;
  }

  lemma {:induction false} FilterFirst(p: Settled -> bool, w: seq<Settled>)
    requires w != []
    ensures Tasks(Filter(p, w)) == (if p(w[0]) then [w[0].task] else []) + Tasks(Filter(p, w[1..]))
    ensures Finished(Filter(p, w)) ==
            (if p(w[0]) then [Finish(w[0].task, w[0].verdict)] else []) + Finished(Filter(p, w[1..]))
  {
  }

  /** The picked list is the walk itself. */
  lemma {:induction false} PickedList(w: seq<Settled>)
    ensures BooksOf(w).picked == Tasks(w)
  {
    if w != [] {
      PickedList(w[1..]);
    }
  }

  /** The runtime saw the tasks that were not held, in walk order. */
  lemma {:induction false} HandedOverList(w: seq<Settled>)
    ensures BooksOf(w).handedOver == Tasks(Filter(IsHandedOver, w))
  {
    if w != [] {
      HandedOverList(w[1..]);
      FilterFirst(IsHandedOver, w);
    }
  }

  lemma {:induction false} CompletedList(w: seq<Settled>)
    ensures BooksOf(w).completed == Finished(Filter(IsDone, w))
  {
    if w != [] {
      CompletedList(w[1..]);
      FilterFirst(IsDone, w);
    }
  }

  lemma {:induction false} FailedList(w: seq<Settled>)
    ensures BooksOf(w).failed == Finished(Filter(IsBroke, w))
  {
    if w != [] {
      FailedList(w[1..]);
      FilterFirst(IsBroke, w);
    }
  }

  lemma {:induction false} BlockedList(w: seq<Settled>)
    ensures BooksOf(w).blocked == Tasks(Filter(IsHeld, w))
  {
    if w != [] {
      BlockedList(w[1..]);
      FilterFirst(IsHeld, w);
    }
  }

  /** A settled task never changes again. */
  ghost predicate SettledForGood(history: seq<seq<TaskReport>>, n: nat) {
    && (forall a :: 0 <= a < |history| ==> |history[a]| == n)
    && forall a, b, i :: 0 <= a <= b < |history| && 0 <= i < n && history[a][i].status != READY ==>
         history[b][i] == history[a][i]
  }

  ghost predicate Keeps(before: seq<TaskReport>, after: seq<TaskReport>) {
    && |after| == |before|
    && forall i :: 0 <= i < |before| && before[i].status != READY ==> after[i] == before[i]
  }

  lemma {:induction false} ExtendHistory(history: seq<seq<TaskReport>>, n: nat, next: seq<TaskReport>)
    requires SettledForGood(history, n) && history != [] && Keeps(history[|history| - 1], next)
    ensures SettledForGood(history + [next], n)
  {
  }

  lemma {:induction false} TurnStep(tasks: seq<TaskReport>, w: Settled)
    requires DistinctIds(tasks) && ReadyTasks(tasks) != [] && w.task == ReadyTasks(tasks)[0]
    ensures DistinctIds(Settle(tasks, w)) && Keeps(tasks, Settle(tasks, w))
    ensures ReadyTasks(Settle(tasks, w)) == ReadyTasks(tasks)[1..]
  {
    ReadyAreReady(tasks);
    ReadyTail(tasks, w.verdict);
    assert w == Settled(ReadyTasks(tasks)[0], w.verdict);
    forall i | 0 <= i < |tasks| && tasks[i].status != READY ensures Settle(tasks, w)[i] == tasks[i] {
      SettleTouchesOne(tasks, w, i);
    }
  }

  /** What the loop keeps: finishing the walk from here gives what walking from the start gives. */
  ghost predicate OnCourse(tasks: seq<TaskReport>, runtime: nat -> RunResult,
                           now: seq<TaskReport>, books: Books, done: set<string>, calls: nat) {
    var rest, all := Walk(ReadyTasks(now), runtime, calls, done), WalkOf(tasks, runtime);
    && DistinctIds(now)
    && SettleAll(now, rest) == SettleAll(tasks, all)
    && EnterAll(books, rest) == EnterAll(EMPTY_BOOKS, all)
  }

  lemma {:induction false} StaysOnCourse(
      tasks: seq<TaskReport>, runtime: nat -> RunResult,
      now: seq<TaskReport>, books: Books, done: set<string>, calls: nat)
    requires OnCourse(tasks, runtime, now, books, done, calls) && ReadyTasks(now) != []
    ensures var task := ReadyTasks(now)[0];
            var w := Settled(task, VerdictOn(task, runtime, calls, done));
            OnCourse(tasks, runtime, Settle(now, w), Enter(books, w),
                     if IsDone(w) then done + {IdText(task)} else done,
                     if IsHandedOver(w) then calls + 1 else calls)
  {
    var ready := ReadyTasks(now);
    var w := Settled(ready[0], VerdictOn(ready[0], runtime, calls, done));
    TurnStep(now, w);
    var rest := Walk(ready, runtime, calls, done);
    assert rest[0] == w;
    assert rest[1..] == Walk(ready[1..], runtime, if IsHandedOver(w) then calls + 1 else calls,
                             if IsDone(w) then done + {IdText(ready[0])} else done);
  }

  ghost predicate Recorded(history: seq<seq<TaskReport>>, first: seq<TaskReport>, last: seq<TaskReport>) {
    && SettledForGood(history, |first|)
    && history != [] && history[0] == first && history[|history| - 1] == last
    && |history| + |ReadyTasks(last)| == |ReadyTasks(first)| + 1
  }

  lemma {:induction false} StaysRecorded(
      history: seq<seq<TaskReport>>, first: seq<TaskReport>, last: seq<TaskReport>, w: Settled)
    requires Recorded(history, first, last) && DistinctIds(last)
    requires ReadyTasks(last) != [] && w.task == ReadyTasks(last)[0]
    ensures w.task.status == READY && |ReadyTasks(Settle(last, w))| < |ReadyTasks(last)|
    ensures Recorded(history + [Settle(last, w)], first, Settle(last, w))
  {
    ReadyAreReady(last);
    TurnStep(last, w);
    ExtendHistory(history, |first|, Settle(last, w));
  }

  lemma {:induction false} AtExit(
      tasks: seq<TaskReport>, runtime: nat -> RunResult,
      now: seq<TaskReport>, books: Books, done: set<string>, calls: nat)
    requires OnCourse(tasks, runtime, now, books, done, calls) && ReadyTasks(now) == []
    ensures now == SettleAll(tasks, WalkOf(tasks, runtime))
    ensures books == BooksOf(WalkOf(tasks, runtime)) && books.picked == ReadyTasks(tasks)
  {
    EnterAllFromEmpty(WalkOf(tasks, runtime));
    TasksOfWalk(ReadyTasks(tasks), runtime, 0, {});
    PickedList(WalkOf(tasks, runtime));
  }

  method ExecuteLoop(tasks: seq<TaskReport>, runtime: nat -> RunResult)
    returns (finalTasks: seq<TaskReport>, books: Books, ghost history: seq<seq<TaskReport>>)
    requires DistinctIds(tasks)
    ensures finalTasks == SettleAll(tasks, WalkOf(tasks, runtime))
    ensures books == BooksOf(WalkOf(tasks, runtime)) && books.picked == ReadyTasks(tasks)
    ensures Recorded(history, tasks, finalTasks) && |history| == |ReadyTasks(tasks)| + 1
    ensures exists w :: Explained(tasks, runtime, w, finalTasks, books)
  {
    var completedIds, calls := {}, 0;
    finalTasks, books, history := tasks, EMPTY_BOOKS, [tasks];
    while true
      invariant OnCourse(tasks, runtime, finalTasks, books, completedIds, calls)
      invariant Recorded(history, tasks, finalTasks)
      decreases |ReadyTasks(finalTasks)|
    {
      var ready := ReadyTasks(finalTasks);
      if ready == [] {
        break;
      }
      StaysOnCourse(tasks, runtime, finalTasks, books, completedIds, calls);
      StaysRecorded(history, tasks, finalTasks, Settled(ready[0], VerdictOn(ready[0], runtime, calls, completedIds)));
      finalTasks, books, completedIds, calls := Turn(ready[0], finalTasks, books, completedIds, calls, runtime);
      history := history + [finalTasks];
    }
    AtExit(tasks, runtime, finalTasks, books, completedIds, calls);
    RunExplained(tasks, runtime);
  }

  lemma {:induction false} UpdateTwice(t: TaskReport, s: TaskState, s': TaskState, m: map<string, string>)
    ensures UpdateTask(UpdateTask(t, s, map[]), s', m) == UpdateTask(t, s', m)
  {
    assert t.metadata + map[] == t.metadata;
  }

  /** The body of the loop: decide, run and rewrite. */
  method Turn(task: TaskReport, tasks: seq<TaskReport>, books: Books, done: set<string>, calls: nat,
              runtime: nat -> RunResult)
    returns (tasks': seq<TaskReport>, books': Books, done': set<string>, calls': nat)
    requires task.status == READY
    ensures var w := Settled(task, VerdictOn(task, runtime, calls, done));
            && tasks' == Settle(tasks, w)
            && books' == Enter(books, w)
            && done' == (if IsDone(w) then done + {IdText(task)} else done)
            && calls' == (if IsHandedOver(w) then calls + 1 else calls)
            && Became(w, Finish(task, w.verdict))
  {
    FinishInFields(Settled(task, VerdictOn(task, runtime, calls, done)));
    tasks', books', done', calls' := tasks, books, done, calls;
    books' := books'.(picked := books'.picked + [task]);
    var decision := Decide(task, done);
    if decision.DecidedBlocked? {
      books' := books'.(blocked := books'.blocked + [task]);
      tasks' := Replace(tasks, UpdateTask(task, BLOCKED, map[]));
    } else if decision.DecidedCancelled? {
      tasks' := Replace(tasks, UpdateTask(task, CANCELLED, map[]));
    } else if !decision.Executable? {
      tasks' := Replace(tasks, UpdateTask(task, WAITING, map[]));
    } else {
      var reserved := UpdateTask(task, RUNNING, map[]);
      forall s, m { UpdateTwice(task, RUNNING, s, m); }
      books' := books'.(handedOver := books'.handedOver + [task]);
      match runtime(calls) {
        case Ok =>
          var finished := UpdateTask(reserved, COMPLETED, map[]);
          books' := books'.(completed := books'.completed + [finished]);
          done' := done + {IdText(finished)};
          tasks' := Replace(tasks, finished);
        case Error(m) =>
          var broken := UpdateTask(reserved, FAILED, map["error" := m]);
          books' := books'.(failed := books'.failed + [broken]);
          tasks' := Replace(tasks, broken);
      }
      calls' := calls + 1;
    }
  }

  // ---- what every run guarantees ----

  function DoneIds(ws: seq<Settled>): set<string> {
    if ws == [] then {} else (if IsDone(ws[0]) then {IdText(ws[0].task)} else {}) + DoneIds(ws[1..])
  }

  lemma {:induction false} DoneIdsMember(ws: seq<Settled>, id: string)
    ensures id in DoneIds(ws) <==> exists j :: 0 <= j < |ws| && IsDone(ws[j]) && IdText(ws[j].task) == id
  {
    if ws != [] {
      DoneIdsMember(ws[1..], id);
      if id in DoneIds(ws[1..]) {
        var j :| 0 <= j < |ws[1..]| && IsDone(ws[1..][j]) && IdText(ws[1..][j].task) == id;
        assert ws[j + 1] == ws[1..][j];
      }
      if j :| 0 < j < |ws| && IsDone(ws[j]) && IdText(ws[j].task) == id {
        assert ws[1..][j - 1] == ws[j];
      }
    }
  }

  lemma {:induction false} DoneIdsFront(w: seq<Settled>, i: nat, done: set<string>)
    requires 0 < i <= |w|
    ensures (if IsDone(w[0]) then done + {IdText(w[0].task)} else done) + DoneIds(w[1..][..i - 1]) ==
            done + DoneIds(w[..i])
  {
    assert w[1..][..i - 1] == w[..i][1..];
  }

  lemma {:induction false} WalkSafety(
      queue: seq<TaskReport>, runtime: nat -> RunResult, calls: nat, done: set<string>, i: nat)
    requires i < |queue|
    ensures var w := Walk(queue, runtime, calls, done);
            IsHandedOver(w[i]) <==> ValidateDependencies(w[i].task, done + DoneIds(w[..i]))
  {
    var w := Walk(queue, runtime, calls, done);
    if i == 0 {
      assert done + DoneIds(w[..0]) == done;
    } else {
      var calls' := if IsHandedOver(w[0]) then calls + 1 else calls;
      var done' := if IsDone(w[0]) then done + {IdText(queue[0])} else done;
      assert w[1..] == Walk(queue[1..], runtime, calls', done');
      WalkSafety(queue[1..], runtime, calls', done', i - 1);
      assert w[1..][i - 1] == w[i];
      DoneIdsFront(w, i, done);
    }
  }

  /** A picked task reaches the runtime exactly when each of its dependencies is the id of a
      task that completed earlier in the same run. */
  lemma {:induction false} DependencySafety(tasks: seq<TaskReport>, runtime: nat -> RunResult, i: nat)
    requires i < |WalkOf(tasks, runtime)|
    ensures var w := WalkOf(tasks, runtime);
            IsHandedOver(w[i]) <==>
            forall d :: d in w[i].task.dependencies ==>
              exists j :: 0 <= j < i && IsDone(w[j]) && IdText(w[j].task) == d.taskId
  {
    var w := WalkOf(tasks, runtime);
    WalkSafety(ReadyTasks(tasks), runtime, 0, {}, i);
    forall d | d in w[i].task.dependencies
      ensures d.taskId in {} + DoneIds(w[..i]) <==>
              exists j :: 0 <= j < i && IsDone(w[j]) && IdText(w[j].task) == d.taskId
    {
      DoneIdsMember(w[..i], d.taskId);
      if j :| 0 <= j < i && IsDone(w[j]) && IdText(w[j].task) == d.taskId {
        assert w[..i][j] == w[j];
      }
    }
  }

  lemma {:induction false} WalkTasks(queue: seq<TaskReport>, runtime: nat -> RunResult, calls: nat, done: set<string>)
    ensures var w := Walk(queue, runtime, calls, done);
            forall i :: 0 <= i < |w| ==> w[i].task == queue[i]
  {
    if queue != [] {
      var v := VerdictOn(queue[0], runtime, calls, done);
      WalkTasks(queue[1..], runtime, if v.Held? then calls else calls + 1,
                if v.Done? then done + {IdText(queue[0])} else done);
    }
  }

  /** No task is picked twice, so none is handed over twice. */
  lemma {:induction false} PickedOnce(tasks: seq<TaskReport>, runtime: nat -> RunResult)
    requires DistinctIds(tasks)
    ensures var w := WalkOf(tasks, runtime);
            && (forall i, j :: 0 <= i < j < |w| ==> w[i].task.taskId != w[j].task.taskId)
            && (forall i :: 0 <= i < |w| ==> w[i].task in tasks && w[i].task.status == READY)
  {
    ReadyDistinct(tasks);
    ReadyAreReady(tasks);
    WalkTasks(ReadyTasks(tasks), runtime, 0, {});
  }

  /** No task is picked after a less urgent one; tasks of equal priority are picked by deadline
      (a task without one last, as if due at the end of the year 9999), then by creation time,
      then by id. */
  lemma {:induction false} PickOrder(tasks: seq<TaskReport>, runtime: nat -> RunResult, i: nat, j: nat)
    requires i < j < |WalkOf(tasks, runtime)|
    ensures PicksBefore(WalkOf(tasks, runtime)[i].task, WalkOf(tasks, runtime)[j].task)
  {
    WalkTasks(ReadyTasks(tasks), runtime, 0, {});
    ReadySorted(tasks);
    OrderOfTwo(ReadyTasks(tasks)[i], ReadyTasks(tasks)[j]);
  }

  lemma {:induction false} ReadySorted(tasks: seq<TaskReport>)
    ensures Sorted(TaskLe, ReadyTasks(tasks))
    ensures forall i :: 0 <= i < |ReadyTasks(tasks)| ==> ReadyTasks(tasks)[i].status == READY
  {
    TaskOrder();
    FilterSort(TaskLe, IsReady, tasks);
    SortSorted(TaskLe, Filter(IsReady, tasks));
    FilterMembers(IsReady, Ordered(tasks));
    forall i | 0 <= i < |ReadyTasks(tasks)| ensures ReadyTasks(tasks)[i].status == READY {
      assert ReadyTasks(tasks)[i] in ReadyTasks(tasks);
    }
  }

  ghost predicate PicksBefore(a: TaskReport, b: TaskReport) {
    var due := if a.deadline.Some? && a.deadline.value != "" then a.deadline.value else "9999-12-31T23:59:59+00:00";
    var due' := if b.deadline.Some? && b.deadline.value != "" then b.deadline.value else "9999-12-31T23:59:59+00:00";
    var id := if a.taskId.Some? then a.taskId.value else "";
    var id' := if b.taskId.Some? then b.taskId.value else "";
    && !MoreUrgent(b.priority, a.priority)
    && (a.priority == b.priority ==> StrLe(due, due'))
    && (a.priority == b.priority && due == due' ==> StrLe(a.createdAt, b.createdAt))
    && (a.priority == b.priority && due == due' && a.createdAt == b.createdAt ==> StrLe(id, id'))
  }

  lemma {:induction false} OrderOfTwo(a: TaskReport, b: TaskReport)
    requires a.status == READY && b.status == READY && TaskLe(a, b)
    ensures PicksBefore(a, b)
  {
    StrReflexive(KeyOf(a).deadline);
    StrReflexive(a.createdAt);
  }

  /** The three verdicts partition a walk. */
  lemma {:induction false} VerdictsPartition(w: seq<Settled>)
    ensures multiset(Filter(IsDone, w)) + multiset(Filter(IsBroke, w)) + multiset(Filter(IsHeld, w)) == multiset(w)
    ensures |Filter(IsDone, w)| + |Filter(IsBroke, w)| + |Filter(IsHeld, w)| == |w|
  {
    if w != [] {
      VerdictsPartition(w[1..]);
      assert w == [w[0]] + w[1..];
    }
  }

  /** A task keeps its id; one that was picked carries its verdict, any other is untouched. */
  ghost predicate AppliedAt(t: TaskReport, w: seq<Settled>, final: TaskReport) {
    && final.taskId == t.taskId
    && (forall k :: 0 <= k < |w| && t == w[k].task ==> final == Finish(w[k].task, w[k].verdict))
    && ((forall k :: 0 <= k < |w| ==> t != w[k].task) ==> final == t)
  }

  /** The list keeps its length, its ids and their order; a task that was not READY is
      untouched and a READY task carries its verdict. */
  ghost predicate Applied(tasks: seq<TaskReport>, w: seq<Settled>, final: seq<TaskReport>) {
    |final| == |tasks| && forall i :: 0 <= i < |tasks| ==> AppliedAt(tasks[i], w, final[i])
  }

  ghost predicate Pending(tasks: seq<TaskReport>, w: seq<Settled>) {
    && DistinctIds(tasks)
    && (forall k :: 0 <= k < |w| ==> w[k].task in tasks && w[k].task.status == READY)
    && (forall i, j :: 0 <= i < j < |w| ==> w[i].task.taskId != w[j].task.taskId)
  }

  lemma {:induction false} PendingStep(tasks: seq<TaskReport>, w: seq<Settled>)
    requires Pending(tasks, w) && w != []
    ensures Pending(Settle(tasks, w[0]), w[1..])
  {
    var next := Settle(tasks, w[0]);
    forall k | 0 <= k < |w[1..]| ensures w[1..][k].task in next {
      var i: nat :| i < |tasks| && tasks[i] == w[k + 1].task;
      assert next[i] == tasks[i];
    }
  }

  lemma {:induction false} AppliedStep(tasks: seq<TaskReport>, w: seq<Settled>, i: nat, final: TaskReport)
    requires Pending(tasks, w) && w != [] && i < |tasks|
    requires AppliedAt(Settle(tasks, w[0])[i], w[1..], final)
    ensures AppliedAt(tasks[i], w, final)
  {
    var t := Settle(tasks, w[0])[i];
    SettleTouchesOne(tasks, w[0], i);
    if tasks[i] == w[0].task {
      assert forall k :: 0 <= k < |w[1..]| ==> t != w[1..][k].task;
    } else {
      assert forall k :: 0 < k < |w| ==> w[k] == w[1..][k - 1];
    }
  }

  lemma {:induction false} SettleAllApplies(tasks: seq<TaskReport>, w: seq<Settled>)
    requires Pending(tasks, w)
    ensures Applied(tasks, w, SettleAll(tasks, w))
    decreases |w|
  {
    if w != [] {
      var final := SettleAll(tasks, w);
      PendingStep(tasks, w);
      SettleAllApplies(Settle(tasks, w[0]), w[1..]);
      forall i: nat | i < |tasks| ensures AppliedAt(tasks[i], w, final[i]) {
        AppliedStep(tasks, w, i, final[i]);
      }
    }
  }

  lemma {:induction false} SettleOthers(tasks: seq<TaskReport>, w: Settled)
    requires forall t :: t in tasks ==> t.taskId != w.task.taskId
    ensures Settle(tasks, w) == tasks
  {
  }

  lemma {:induction false} SettleFront(tasks: seq<TaskReport>, w: Settled)
    requires tasks != []
    ensures Settle(tasks, w) ==
            [if tasks[0].taskId == w.task.taskId then Finish(w.task, w.verdict) else tasks[0]] + Settle(tasks[1..], w)
  {
  }

  lemma {:induction false} CountFront(s: TaskState, t: TaskReport, rest: seq<TaskReport>)
    ensures Count(s, [t] + rest) == (if t.status == s then 1 else 0) + Count(s, rest)
  {
  }

  lemma {:induction false} SettleCount(tasks: seq<TaskReport>, w: Settled, s: TaskState)
    requires DistinctIds(tasks) && w.task in tasks && w.task.status == READY
    ensures Count(s, Settle(tasks, w)) ==
            Count(s, tasks) + (if Finish(w.task, w.verdict).status == s then 1 else 0) - (if s == READY then 1 else 0)
  {
    var rest := tasks[1..];
    DistinctTail(tasks);
    assert tasks == [tasks[0]] + rest;
    CountFront(s, tasks[0], rest);
    SettleFront(tasks, w);
    CountFront(s, Settle(tasks, w)[0], Settle(rest, w));
    if tasks[0] == w.task {
      SettleOthers(rest, w);
    } else {
      SettleCount(rest, w, s);
    }
  }

  function Hits(s: TaskState): Settled -> bool {
    (w: Settled) => Finish(w.task, w.verdict).status == s
  }

  lemma {:induction false} SettleAllCount(tasks: seq<TaskReport>, w: seq<Settled>, s: TaskState)
    requires Pending(tasks, w)
    ensures Count(s, SettleAll(tasks, w)) ==
            Count(s, tasks) + |Filter(Hits(s), w)| - (if s == READY then |w| else 0)
    decreases |w|
  {
    if w != [] {
      PendingStep(tasks, w);
      SettleCount(tasks, w[0], s);
      SettleAllCount(Settle(tasks, w[0]), w[1..], s);
    }
  }

  lemma {:induction false} CountReady(tasks: seq<TaskReport>)
    ensures |ReadyTasks(tasks)| == Count(READY, tasks)
  {
    CountOrdered(READY, tasks);
    SameFilter(IsReady, HasStatus(READY), Ordered(tasks));
  }

  lemma {:induction false} FinishedLength(ws: seq<Settled>)
    ensures |Finished(ws)| == |Tasks(ws)| == |ws|
  {
    if ws != [] {
      FinishedLength(ws[1..]);
    }
  }

  lemma {:induction false} CompletedSize(w: seq<Settled>)
    ensures |BooksOf(w).completed| == |Filter(IsDone, w)| == |Filter(Hits(COMPLETED), w)|
  {
    CompletedList(w);
    FinishedLength(Filter(IsDone, w));
    SameFilter(IsDone, Hits(COMPLETED), w);
  }

  lemma {:induction false} FailedSize(w: seq<Settled>)
    ensures |BooksOf(w).failed| == |Filter(IsBroke, w)| == |Filter(Hits(FAILED), w)|
  {
    FailedList(w);
    FinishedLength(Filter(IsBroke, w));
    SameFilter(IsBroke, Hits(FAILED), w);
  }

  lemma {:induction false} BlockedSize(w: seq<Settled>)
    ensures |BooksOf(w).blocked| == |Filter(IsHeld, w)| == |Filter(Hits(BLOCKED), w)|
  {
    BlockedList(w);
    FinishedLength(Filter(IsHeld, w));
    SameFilter(IsHeld, Hits(BLOCKED), w);
  }

  lemma {:induction false} BookSizes(w: seq<Settled>)
    ensures var b := BooksOf(w);
            && |b.completed| == |Filter(Hits(COMPLETED), w)|
            && |b.failed| == |Filter(Hits(FAILED), w)|
            && |b.blocked| == |Filter(Hits(BLOCKED), w)|
            && |b.completed| + |b.failed| + |b.blocked| == |w|
  {
    CompletedSize(w);
    FailedSize(w);
    BlockedSize(w);
    VerdictsPartition(w);
  }

  lemma {:induction false} FinalCounts(tasks: seq<TaskReport>, w: seq<Settled>)
    requires Pending(tasks, w) && |w| == Count(READY, tasks)
    ensures var final, b := SettleAll(tasks, w), BooksOf(w);
            && Count(READY, final) == 0
            && Count(COMPLETED, final) == Count(COMPLETED, tasks) + |b.completed|
            && Count(FAILED, final) == Count(FAILED, tasks) + |b.failed|
            && Count(BLOCKED, final) == Count(BLOCKED, tasks) + |b.blocked|
  {
    BookSizes(w);
    SettleAllCount(tasks, w, READY);
    SettleAllCount(tasks, w, COMPLETED);
    SettleAllCount(tasks, w, FAILED);
    SettleAllCount(tasks, w, BLOCKED);
    FilterOut(Hits(READY), w);
  }

  /** The state of the list when the loop ends. */
  lemma {:induction false} ExitAccounting(tasks: seq<TaskReport>, runtime: nat -> RunResult)
    requires DistinctIds(tasks)
    ensures var w := WalkOf(tasks, runtime);
            var final, b := SettleAll(tasks, w), BooksOf(w);
            && Applied(tasks, w, final)
            && Count(READY, final) == 0
            && Count(COMPLETED, final) == Count(COMPLETED, tasks) + |b.completed|
            && Count(FAILED, final) == Count(FAILED, tasks) + |b.failed|
            && Count(BLOCKED, final) == Count(BLOCKED, tasks) + |b.blocked|
            && |b.completed| + |b.failed| + |b.blocked| == Count(READY, tasks)
  {
    var w := WalkOf(tasks, runtime);
    PickedOnce(tasks, runtime);
    SettleAllApplies(tasks, w);
    BookSizes(w);
    CountReady(tasks);
    FinalCounts(tasks, w);
  }

  // ---- the same in the fields of the records ----

  /** The id of a record, as a dependency names it. */
  ghost predicate Names(t: TaskReport, id: string) {
    t.taskId == Some(id) || (t.taskId == None && id == "")
  }

  /** Each pick is held exactly when a dependency of it has not completed before it in the run;
      any other one completed exactly when the runtime answered Ok to its hand-over, and carries
      the error otherwise. Hand-overs are counted over the run. */
  ghost predicate Judged(w: seq<Settled>, runtime: nat -> RunResult) {
    && (forall i :: 0 <= i < |w| ==>
          (w[i].verdict.Held? <==> exists d :: d in w[i].task.dependencies && Missing(w, i, d.taskId)))
    && (forall i :: 0 <= i < |w| && !w[i].verdict.Held? ==>
          w[i].verdict == match runtime(HandOversBefore(w, i)) case Ok => Done case Error(m) => Broke(m))
  }

  ghost predicate Missing(w: seq<Settled>, i: int, id: string)
    requires 0 <= i <= |w|
  {
    forall j :: 0 <= j < i ==> !(w[j].verdict.Done? && Names(w[j].task, id))
  }

  ghost function HandOversBefore(w: seq<Settled>, i: int): nat
    requires 0 <= i <= |w|
  {
    |Filter((s: Settled) => !s.verdict.Held?, w[..i])|
  }

  lemma {:induction false} HandOversFront(w: seq<Settled>, i: nat)
    requires 0 < i <= |w|
    ensures HandOversBefore(w, i) == (if w[0].verdict.Held? then 0 else 1) + HandOversBefore(w[1..], i - 1)
  {
    assert w[..i][1..] == w[1..][..i - 1];
  }

  lemma {:induction false} WalkAnswers(
      queue: seq<TaskReport>, runtime: nat -> RunResult, calls: nat, done: set<string>, i: nat)
    requires i < |queue| && !Walk(queue, runtime, calls, done)[i].verdict.Held?
    ensures var w := Walk(queue, runtime, calls, done);
            w[i].verdict == match runtime(calls + HandOversBefore(w, i)) case Ok => Done case Error(m) => Broke(m)
  {
    var w := Walk(queue, runtime, calls, done);
    if i == 0 {
      assert w[..0] == [];
    } else {
      var calls' := if IsHandedOver(w[0]) then calls + 1 else calls;
      var done' := if IsDone(w[0]) then done + {IdText(queue[0])} else done;
      assert w[1..] == Walk(queue[1..], runtime, calls', done');
      WalkAnswers(queue[1..], runtime, calls', done', i - 1);
      HandOversFront(w, i);
      assert w[1..][i - 1] == w[i];
    }
  }

  lemma {:induction false} WalkHolds(tasks: seq<TaskReport>, runtime: nat -> RunResult, i: nat)
    requires i < |WalkOf(tasks, runtime)|
    ensures var w := WalkOf(tasks, runtime);
            w[i].verdict.Held? <==> exists d :: d in w[i].task.dependencies && Missing(w, i, d.taskId)
  {
    var w := WalkOf(tasks, runtime);
    DependencySafety(tasks, runtime, i);
    forall d | d in w[i].task.dependencies
      ensures !Missing(w, i, d.taskId) <==> exists j :: 0 <= j < i && IsDone(w[j]) && IdText(w[j].task) == d.taskId
    {
      forall j | 0 <= j < i ensures Names(w[j].task, d.taskId) <==> IdText(w[j].task) == d.taskId {
      }
    }
  }

  lemma {:induction false} WalkJudged(tasks: seq<TaskReport>, runtime: nat -> RunResult)
    ensures Judged(WalkOf(tasks, runtime), runtime)
  {
    var w := WalkOf(tasks, runtime);
    forall i: nat | i < |w|
      ensures w[i].verdict.Held? <==> exists d :: d in w[i].task.dependencies && Missing(w, i, d.taskId)
    {
      WalkHolds(tasks, runtime, i);
    }
    forall i: nat | i < |w| && !w[i].verdict.Held?
      ensures w[i].verdict == match runtime(HandOversBefore(w, i)) case Ok => Done case Error(m) => Broke(m)
    {
      WalkAnswers(ReadyTasks(tasks), runtime, 0, {}, i);
    }
  }

  /** What a pick has become: only its status differs, and a failed one carries the error. */
  ghost predicate Became(s: Settled, t: TaskReport) {
    match s.verdict
    case Done => t == s.task.(status := COMPLETED)
    case Broke(m) => t == s.task.(status := FAILED, metadata := s.task.metadata["error" := m])
    case Held => t == s.task.(status := BLOCKED)
  }

  /** The records of a list are those of the given picks, in the order of the picks. */
  ghost predicate Lists(w: seq<Settled>, p: Settled -> bool, r: seq<TaskReport>) {
    |r| == |Filter(p, w)| && forall k :: 0 <= k < |r| ==> Became(Filter(p, w)[k], r[k])
  }

  ghost predicate ListsAsPicked(w: seq<Settled>, p: Settled -> bool, r: seq<TaskReport>) {
    |r| == |Filter(p, w)| && forall k :: 0 <= k < |r| ==> r[k] == Filter(p, w)[k].task
  }

  ghost predicate Booked(w: seq<Settled>, b: Books) {
    && ListsAsPicked(w, (s: Settled) => true, b.picked)
    && ListsAsPicked(w, (s: Settled) => !s.verdict.Held?, b.handedOver)
    && Lists(w, (s: Settled) => s.verdict.Done?, b.completed)
    && Lists(w, (s: Settled) => s.verdict.Broke?, b.failed)
    && ListsAsPicked(w, (s: Settled) => s.verdict.Held?, b.blocked)
  }

  /** Same length and order; a record that was picked became what its verdict says, the others
      are untouched. */
  ghost predicate Rewritten(tasks: seq<TaskReport>, w: seq<Settled>, final: seq<TaskReport>) {
    && |final| == |tasks|
    && (forall i, k :: 0 <= i < |tasks| && 0 <= k < |w| && tasks[i] == w[k].task ==> Became(w[k], final[i]))
    && (forall i :: 0 <= i < |tasks| && tasks[i].status != READY ==> final[i] == tasks[i])
  }

  lemma {:induction false} FinishInFields(s: Settled)
    ensures Became(s, Finish(s.task, s.verdict))
  {
    assert s.task.metadata + map[] == s.task.metadata;
    if s.verdict.Broke? {
      assert s.task.metadata + map["error" := s.verdict.message] == s.task.metadata["error" := s.verdict.message];
    }
  }

  lemma {:induction false} FinishedInFields(ws: seq<Settled>)
    ensures |Finished(ws)| == |ws| == |Tasks(ws)|
    ensures forall k :: 0 <= k < |ws| ==> Became(ws[k], Finished(ws)[k]) && Tasks(ws)[k] == ws[k].task
  {
    if ws != [] {
      FinishInFields(ws[0]);
      FinishedInFields(ws[1..]);
    }
  }

  lemma {:induction false} FilteredInFields(w: seq<Settled>, p: Settled -> bool, q: Settled -> bool)
    requires forall s :: s in w ==> p(s) == q(s)
    ensures Lists(w, q, Finished(Filter(p, w))) && ListsAsPicked(w, q, Tasks(Filter(p, w)))
  {
    SameFilter(p, q, w);
    FinishedInFields(Filter(p, w));
  }

  lemma {:induction false} BooksInFields(w: seq<Settled>)
    ensures Booked(w, BooksOf(w))
  {
    PickedList(w);
    HandedOverList(w);
    CompletedList(w);
    FailedList(w);
    BlockedList(w);
    var all := (s: Settled) => true;
    FilterAll(all, w);
    FilteredInFields(w, all, all);
    FilteredInFields(w, IsHandedOver, (s: Settled) => !s.verdict.Held?);
    FilteredInFields(w, IsDone, (s: Settled) => s.verdict.Done?);
    FilteredInFields(w, IsBroke, (s: Settled) => s.verdict.Broke?);
    FilteredInFields(w, IsHeld, (s: Settled) => s.verdict.Held?);
  }

  lemma {:induction false} FinalInFields(tasks: seq<TaskReport>, runtime: nat -> RunResult)
    requires DistinctIds(tasks)
    ensures Rewritten(tasks, WalkOf(tasks, runtime), SettleAll(tasks, WalkOf(tasks, runtime)))
  {
    var w := WalkOf(tasks, runtime);
    PickedOnce(tasks, runtime);
    SettleAllApplies(tasks, w);
    var final := SettleAll(tasks, w);
    forall i, k | 0 <= i < |tasks| && 0 <= k < |w| && tasks[i] == w[k].task ensures Became(w[k], final[i]) {
      assert AppliedAt(tasks[i], w, final[i]);
      FinishInFields(w[k]);
    }
    forall i | 0 <= i < |tasks| && tasks[i].status != READY ensures final[i] == tasks[i] {
      assert AppliedAt(tasks[i], w, final[i]);
    }
  }

  /** The loop in the fields of its records: the picks are the READY records in queue order, each
      judged by its dependencies and by the answer to its own hand-over; the lists and the final
      task list hold what the picks have become. */
  ghost predicate Explained(tasks: seq<TaskReport>, runtime: nat -> RunResult, w: seq<Settled>,
                            final: seq<TaskReport>, b: Books) {
    && |w| == |ReadyTasks(tasks)| && (forall i :: 0 <= i < |w| ==> w[i].task == ReadyTasks(tasks)[i])
    && Judged(w, runtime) && Booked(w, b) && Rewritten(tasks, w, final)
  }

  lemma {:induction false} RunExplained(tasks: seq<TaskReport>, runtime: nat -> RunResult)
    requires DistinctIds(tasks)
    ensures var w := WalkOf(tasks, runtime);
            Explained(tasks, runtime, w, SettleAll(tasks, w), BooksOf(w))
  {
    WalkTasks(ReadyTasks(tasks), runtime, 0, {});
    WalkJudged(tasks, runtime);
    BooksInFields(WalkOf(tasks, runtime));
    FinalInFields(tasks, runtime);
  }

  // ---- a whole goal ----

  /** The condition under which the engine marks the goal COMPLETED. */
  predicate MarksComplete(taskCount: nat, b: Books) {
    |b.failed| == 0 && |b.blocked| == 0 && |b.completed| == taskCount
  }

  lemma {:induction false} FullFilter<T(!new)>(p: T -> bool, s: seq<T>)
    ensures |Filter(p, s)| == |s| <==> forall x :: x in s ==> p(x)
  {
    if s != [] {
      FullFilter(p, s[1..]);
      assert forall x :: x in s <==> x == s[0] || x in s[1..];
    }
  }

  /** The goal is marked COMPLETED exactly when every task started READY and completed in this
      run. A task that was COMPLETED beforehand keeps the goal from being marked. */
  lemma {:induction false} GoalCompletion(tasks: seq<TaskReport>, runtime: nat -> RunResult)
    requires DistinctIds(tasks)
    ensures var w := WalkOf(tasks, runtime);
            MarksComplete(|tasks|, BooksOf(w)) <==>
            (forall t :: t in tasks ==> t.status == READY) && (forall s :: s in w ==> IsDone(s))
  {
    var w := WalkOf(tasks, runtime);
    ExitAccounting(tasks, runtime);
    FullFilter(HasStatus(READY), tasks);
    FullFilter(IsDone, w);
    CompletedList(w);
    FinishedLength(Filter(IsDone, w));
    CountReady(tasks);
    assert Count(READY, tasks) <= |tasks|;
  }

  datatype GoalRun = GoalRun(goal: GoalReport, tasks: seq<TaskReport>, books: Books, snapshot: QueueSnapshot)

  lemma {:induction false} ChainReady(created: seq<TaskReport>)
    requires IsTaskChain(created) && created != []
    ensures ReadyTasks(Ordered(created)) == [created[0]]
    ensures DistinctIds(Ordered(created)) && |Ordered(created)| == |created|
    ensures Count(BLOCKED, Ordered(created)) == |created| - 1
  {
    TaskOrder();
    SortSorted(TaskLe, created);
    SortOfSorted(TaskLe, Ordered(created));
    FilterSort(TaskLe, IsReady, created);
    SortMultiset(TaskLe, created);
    SortKeepsDistinct(TaskLe, created);
    CountOrdered(BLOCKED, created);
    var rest := created[1..];
    FilterAll(HasStatus(BLOCKED), rest);
    FilterMembers(IsReady, rest);
    if Filter(IsReady, rest) != [] {
      assert Filter(IsReady, rest)[0] in rest;
    }
  }

  /** One record was picked; what it has become by the answer of the runtime. */
  ghost predicate OnlyStep(first: TaskReport, answer: RunResult, b: Books) {
    && b.picked == [first] && b.handedOver == [first] && b.blocked == []
    && match answer
       case Ok => b.completed == [first.(status := COMPLETED)] && b.failed == []
       case Error(m) =>
         b.completed == [] && b.failed == [first.(status := FAILED, metadata := first.metadata["error" := m])]
  }

  /** Executing a goal. Only the first of its tasks ever starts READY and nothing promotes the
      others, so a goal whose objective has eight or more words (two or three tasks) is left
      ACTIVE whatever the runtime does. */
  method ExecuteGoal(goal: GoalReport, now: string, runtime: nat -> RunResult) returns (run: GoalRun)
    ensures run.goal == goal.(status := run.goal.status)
    ensures run.goal.status == if WordCount(goal.objective) < 8 && runtime(0).Ok? then GoalCompleted else GoalActive
    ensures |run.tasks| == BaseCount(goal) && |run.books.handedOver| == 1
    ensures |run.books.completed| == (if runtime(0).Ok? then 1 else 0) && run.books.blocked == []
    ensures run.snapshot.readyCount == 0 && run.snapshot.blockedCount == BaseCount(goal) - 1
    ensures run.snapshot.queuedTasks == Ordered(run.tasks)
    ensures exists first :: IsStep(goal, now, 0, first) && OnlyStep(first, runtime(0), run.books)
  {
    var created := CreateTasks(goal, now);
    var tasks := Ordered(created);
    ChainReady(created);
    var finalTasks, books, history := ExecuteLoop(tasks, runtime);
    var snapshot := SnapshotOf(finalTasks);
    ExitAccounting(tasks, runtime);
    CountOrdered(READY, finalTasks);
    CountOrdered(BLOCKED, finalTasks);
    OneTaskWalk(created[0], runtime);
    var status := if MarksComplete(|tasks|, books) then GoalCompleted else GoalActive;
    run := GoalRun(goal.(status := status), finalTasks, books, snapshot);
  }

  lemma {:induction false} OneTaskWalk(task: TaskReport, runtime: nat -> RunResult)
    requires task.dependencies == []
    ensures var b := BooksOf(Walk([task], runtime, 0, {}));
            && |b.completed| == (if runtime(0).Ok? then 1 else 0)
            && |b.failed| == (if runtime(0).Ok? then 0 else 1)
            && b.blocked == [] && |b.handedOver| == 1
            && OnlyStep(task, runtime(0), b)
  {
    var w := Walk([task], runtime, 0, {});
    assert w == [w[0]];
    FinishInFields(w[0]);
  }
}
