/** What every stream of a run amounts to, told from its own steps alone: the session, the
    events its client saw and the rows it stored, in their fields. */
module StreamingRuns {
  import opened StableSort
  import opened Streaming

  /** The steps that stream `i` took, in order; those it could not take are skipped. */
  function Taken(schedule: seq<Scheduled>, i: nat): seq<Step> {
    if schedule == [] then []
    else
      var front, last := schedule[..|schedule| - 1], schedule[|schedule| - 1];
      Taken(front, i) + if last.stream == i && Enabled(Run(front).sessions, i, last.step) then [last.step] else []
  }

  // ---- what is read off the steps ----

  function TokenOf(e: Step): seq<string> {
    if e.Chunk? && e.token != "" then [e.token] else []
  }

  function TokensOf(steps: seq<Step>): seq<string> {
    if steps == [] then [] else TokensOf(steps[..|steps| - 1]) + TokenOf(steps[|steps| - 1])
  }

  function UserTextOf(e: Step): seq<string> {
    match e
    case Prepare(content) => [content]
    case PrepareFails(_, stored, content) => if stored then [content] else []
    case _ => []
  }

  function UserTextsOf(steps: seq<Step>): seq<string> {
    if steps == [] then [] else UserTextsOf(steps[..|steps| - 1]) + UserTextOf(steps[|steps| - 1])
  }

  /** The finish reason of the last chunk that had one, otherwise "stop". */
  function LastReason(steps: seq<Step>): string {
    if steps == [] then "stop"
    else
      var last := steps[|steps| - 1];
      if last.Chunk? && last.finishReason != "" then last.finishReason else LastReason(steps[..|steps| - 1])
  }

  lemma {:induction false} LastReasonMeaning(steps: seq<Step>)
    ensures (LastReason(steps) == "stop" && forall e :: e in steps && e.Chunk? ==> e.finishReason == "") ||
            exists k :: 0 <= k < |steps| && HasReason(steps, k)
  {
    if steps != [] {
      var front, last := steps[..|steps| - 1], steps[|steps| - 1];
      if last.Chunk? && last.finishReason != "" {
        assert HasReason(steps, |steps| - 1);
      } else {
        LastReasonMeaning(front);
        if k :| 0 <= k < |front| && HasReason(front, k) {
          assert steps[k + 1..] == front[k + 1..] + [last];
          assert HasReason(steps, k);
        }
        assert steps == front + [last];
      }
    }
  }

  ghost predicate HasReason(steps: seq<Step>, k: int)
    requires 0 <= k < |steps|
  {
    && steps[k].Chunk? && steps[k].finishReason == LastReason(steps) && LastReason(steps) != ""
    && forall e :: e in steps[k + 1..] && e.Chunk? ==> e.finishReason == ""
  }

  // ---- the session and the rows ----

  /** How the last step leaves the stream. */
  ghost predicate EndsAs(e: Step, phase: Phase) {
    match e
    case Finish => phase == Ended(Completed)
    case Disconnect => phase == Ended(Cancelled)
    case ProviderFails(_) => phase == Ended(Failed("provider_streaming_error"))
    case PrepareFails(HttpError, _, _) => phase == Ended(RaisedHttp)
    case PrepareFails(OtherError, _, _) => phase == Ended(Failed("internal_error"))
    case FinishFails(HttpError) => phase == Ended(RaisedHttp)
    case FinishFails(OtherError) => phase == Ended(Failed("internal_error"))
    case Open(_) => phase == Preparing
    case Prepare(_) => phase == Reading
    case Resume => phase == Reading
    case Chunk(token, reason) => phase == if token == "" then Reading else AtToken(reason)
  }

  ghost predicate SessionTold(steps: seq<Step>, s: Session) {
    && steps != [] && steps[0] == Open(s.conversation) && EndsAs(steps[|steps| - 1], s.phase)
    && s.collected == TokensOf(steps)
    && (s.phase.AtToken? ==>
          LastReason(steps) == if s.phase.finishReason != "" then s.phase.finishReason else s.finishReason)
    && (!s.phase.AtToken? && s.phase != Ended(Cancelled) ==> s.finishReason == LastReason(steps))
    && (s.phase.Preparing? ==> UserTextsOf(steps) == []) && |UserTextsOf(steps)| <= 1
  }

  function RowsOf(messages: seq<Message>, i: nat, r: Role): seq<Message> {
    Filter((m: Message) => m.stream == i && m.role == r, messages)
  }

  function UserRows(i: nat, conversation: nat, contents: seq<string>): seq<Message> {
    Map((content: string) => Message(i, conversation, User, content, ""), contents)
  }

  function AnswerRows(i: nat, s: Session, completed: bool): seq<Message> {
    if completed then [Message(i, s.conversation, Assistant, Concat(s.collected), s.finishReason)] else []
  }

  /** The user row holds the text given when the stream was prepared, the answer row of a completed
      stream its tokens and its finish reason; both belong to its conversation, and there are no
      other rows. */
  ghost predicate RowsTold(messages: seq<Message>, i: nat, steps: seq<Step>, s: Session) {
    && RowsOf(messages, i, User) == UserRows(i, s.conversation, UserTextsOf(steps))
    && RowsOf(messages, i, Assistant) == AnswerRows(i, s, s.phase == Ended(Completed))
  }

  lemma {:induction false} OpenTold(sessions: map<nat, Session>, i: nat, e: Step)
    requires Enabled(sessions, i, e) && e.Open?
    ensures SessionTold([e], After(sessions, i, e))
  {
    assert [e][..0] == [];
    assert TokensOf([e]) == [] && UserTextsOf([e]) == [] && LastReason([e]) == "stop";
  }

  lemma {:induction false} Snoc(steps: seq<Step>, e: Step)
    ensures TokensOf(steps + [e]) == TokensOf(steps) + TokenOf(e)
    ensures UserTextsOf(steps + [e]) == UserTextsOf(steps) + UserTextOf(e)
    ensures LastReason(steps + [e]) ==
            if e.Chunk? && e.finishReason != "" then e.finishReason else LastReason(steps)
  {
    assert (steps + [e])[..|steps|] == steps;
  }

  lemma {:induction false} StepTold(sessions: map<nat, Session>, i: nat, e: Step, steps: seq<Step>)
    requires Enabled(sessions, i, e) && !e.Open? && SessionTold(steps, sessions[i])
    ensures SessionTold(steps + [e], After(sessions, i, e))
  {
    Snoc(steps, e);
  }

  lemma {:induction false} NewRows(
      messages: seq<Message>, sessions: map<nat, Session>, i: nat, e: Step, j: nat, r: Role)
    requires Enabled(sessions, i, e)
    ensures RowsOf(messages + NewMessages(sessions, i, e), j, r) ==
            RowsOf(messages, j, r) + if i == j then RowsOf(NewMessages(sessions, i, e), i, r) else []
  {
    FilterAppend((m: Message) => m.stream == j && m.role == r, messages, NewMessages(sessions, i, e));
  }

  /** The rows that a step of the stream itself adds, by role. */
  lemma {:induction false} OwnUserRows(sessions: map<nat, Session>, i: nat, e: Step)
    requires Enabled(sessions, i, e)
    ensures RowsOf(NewMessages(sessions, i, e), i, User) ==
            UserRows(i, After(sessions, i, e).conversation, UserTextOf(e))
  {
  }

  lemma {:induction false} OwnAnswerRows(sessions: map<nat, Session>, i: nat, e: Step)
    requires Enabled(sessions, i, e)
    ensures RowsOf(NewMessages(sessions, i, e), i, Assistant) == AnswerRows(i, After(sessions, i, e), e.Finish?)
  {
  }

  lemma {:induction false} UserRowsAppend(i: nat, conversation: nat, a: seq<string>, b: seq<string>)
    ensures UserRows(i, conversation, a + b) == UserRows(i, conversation, a) + UserRows(i, conversation, b)
  {
  }

  lemma {:induction false} UserStep(
      messages: seq<Message>, sessions: map<nat, Session>, i: nat, e: Step, steps: seq<Step>)
    requires Enabled(sessions, i, e) && !e.Open?
    requires RowsOf(messages, i, User) == UserRows(i, sessions[i].conversation, UserTextsOf(steps))
    ensures RowsOf(messages + NewMessages(sessions, i, e), i, User) ==
            UserRows(i, After(sessions, i, e).conversation, UserTextsOf(steps + [e]))
  {
    NewRows(messages, sessions, i, e, i, User);
    OwnUserRows(sessions, i, e);
    Snoc(steps, e);
    UserRowsAppend(i, sessions[i].conversation, UserTextsOf(steps), UserTextOf(e));
  }

  lemma {:induction false} AnswerStep(messages: seq<Message>, sessions: map<nat, Session>, i: nat, e: Step)
    requires Enabled(sessions, i, e) && !e.Open? && RowsOf(messages, i, Assistant) == []
    ensures var s := After(sessions, i, e);
            RowsOf(messages + NewMessages(sessions, i, e), i, Assistant) ==
            AnswerRows(i, s, s.phase == Ended(Completed))
  {
    NewRows(messages, sessions, i, e, i, Assistant);
    OwnAnswerRows(sessions, i, e);
  }

  lemma {:induction false} RowsStep(
      messages: seq<Message>, sessions: map<nat, Session>, i: nat, e: Step, steps: seq<Step>)
    requires Enabled(sessions, i, e) && !e.Open? && RowsTold(messages, i, steps, sessions[i])
    ensures RowsTold(messages + NewMessages(sessions, i, e), i, steps + [e], After(sessions, i, e))
  {
    UserStep(messages, sessions, i, e, steps);
    AnswerStep(messages, sessions, i, e);
  }

  // ---- runs ----

  ghost predicate Told(schedule: seq<Scheduled>, i: nat) {
    var st, steps := Run(schedule), Taken(schedule, i);
    if i in st.sessions then SessionTold(steps, st.sessions[i]) && RowsTold(st.messages, i, steps, st.sessions[i])
    else steps == [] && forall m :: m in st.messages ==> m.stream != i
  }

  lemma {:induction false} NoRows(messages: seq<Message>, i: nat, r: Role)
    requires forall m :: m in messages ==> m.stream != i
    ensures RowsOf(messages, i, r) == []
  {
    FilterOut((m: Message) => m.stream == i && m.role == r, messages);
  }

  /** The stream that is scheduled. */
  lemma {:induction false} OwnStep(schedule: seq<Scheduled>, front: seq<Scheduled>, i: nat, e: Step)
    requires schedule != [] && front == schedule[..|schedule| - 1] && schedule[|schedule| - 1] == Scheduled(i, e)
    requires Told(front, i) && Enabled(Run(front).sessions, i, e)
    ensures Told(schedule, i)
  {
    var st, steps := Run(front), Taken(front, i);
    if e.Open? {
      OpenTold(st.sessions, i, e);
      NoRows(st.messages, i, User);
      NoRows(st.messages, i, Assistant);
      assert st.messages + [] == st.messages && [] + [e] == [e];
    } else {
      StepTold(st.sessions, i, e, steps);
      RowsStep(st.messages, st.sessions, i, e, steps);
    }
  }

  /** Any other stream, or a step that cannot be taken. */
  lemma {:induction false} OtherStep(schedule: seq<Scheduled>, front: seq<Scheduled>, last: Scheduled, i: nat)
    requires schedule != [] && front == schedule[..|schedule| - 1] && schedule[|schedule| - 1] == last
    requires Told(front, i) && (last.stream != i || !Enabled(Run(front).sessions, i, last.step))
    ensures Told(schedule, i)
  {
    var st := Run(front);
    assert Taken(schedule, i) == Taken(front, i);
    if Enabled(st.sessions, last.stream, last.step) {
      NewRows(st.messages, st.sessions, last.stream, last.step, i, User);
      NewRows(st.messages, st.sessions, last.stream, last.step, i, Assistant);
    }
  }

  lemma {:induction false} NothingTold(i: nat)
    ensures Told([], i)
  {
  }

  /** Over every interleaving of any number of streams, each stream is told by its own steps. */
  lemma {:induction false} EveryStreamTold(schedule: seq<Scheduled>, i: nat)
    ensures Told(schedule, i)
  {
    if schedule == [] {
      NothingTold(i);
    } else {
      var front, last := schedule[..|schedule| - 1], schedule[|schedule| - 1];
      EveryStreamTold(front, i);
      if last.stream == i && Enabled(Run(front).sessions, i, last.step) {
        OwnStep(schedule, front, i, last.step);
      } else {
        OtherStep(schedule, front, last, i);
      }
    }
  }

  // ---- the content of an answer ----

  lemma {:induction false} ConcatOne(t: string)
    ensures Concat([t]) == t && Concat([]) == ""
  {
    assert [t][..0] == [];
  }

  lemma {:induction false} ConcatAppend(a: seq<string>, b: seq<string>)
    ensures Concat(a + b) == Concat(a) + Concat(b)
  {
    if b == [] {
      assert a + b == a;
    } else {
      ConcatAppend(a, b[..|b| - 1]);
      assert (a + b)[..|a + b| - 1] == a + b[..|b| - 1];
    }
  }

  /** The tokens of the token events, in order. */
  function TokensIn(events: seq<SseEvent>): seq<string> {
    if events == [] then []
    else
      var last := events[|events| - 1];
      TokensIn(events[..|events| - 1]) + if last.TokenEvent? then [last.token] else []
  }

  lemma {:induction false} TokensInSnoc(events: seq<SseEvent>, e: SseEvent)
    ensures TokensIn(events + [e]) == TokensIn(events) + if e.TokenEvent? then [e.token] else []
  {
    assert (events + [e])[..|events|] == events;
  }

  lemma {:induction false} TokensInEvents(tokens: seq<string>)
    ensures TokensIn(TokenEvents(tokens)) == tokens
  {
    if tokens != [] {
      var front, last := tokens[..|tokens| - 1], tokens[|tokens| - 1];
      TokensInEvents(front);
      TokensInSnoc(TokenEvents(front), TokenEvent(last));
      assert front + [last] == tokens;
    }
  }

  lemma {:induction false} TokensInSent(s: Session)
    requires Accurate(s)
    ensures TokensIn(s.sent) == s.collected
  {
    TokensInEvents(s.collected);
    if Tail(s) == [] {
      assert s.sent == TokenEvents(s.collected);
    } else {
      TokensInSnoc(TokenEvents(s.collected), Tail(s)[0]);
      assert s.sent == TokenEvents(s.collected) + [Tail(s)[0]];
    }
  }

  /** For every completed stream of every run there is exactly one answer row. It belongs to the
      stream's conversation, and its content is the concatenation of the token events that the
      client was sent, which are the non-empty tokens of its chunks. */
  lemma {:induction false} AnswerIsWhatWasSent(schedule: seq<Scheduled>, i: nat)
    requires var st := Run(schedule); i in st.sessions && st.sessions[i].phase == Ended(Completed)
    ensures var st := Run(schedule);
            var s := st.sessions[i];
            && Filter((m: Message) => m.stream == i && m.role == Assistant, st.messages) ==
               [Message(i, s.conversation, Assistant, Concat(TokensIn(s.sent)), LastReason(Taken(schedule, i)))]
            && TokensIn(s.sent) == TokensOf(Taken(schedule, i))
  {
    EveryStreamTold(schedule, i);
    Accounting(schedule);
    TokensInSent(Run(schedule).sessions[i]);
  }

  lemma {:induction false} TokenEventsInFields(tokens: seq<string>)
    ensures TokenEvents(tokens) == Map((t: string) => TokenEvent(t), tokens)
  {
    if tokens != [] {
      TokenEventsInFields(tokens[..|tokens| - 1]);
    }
  }

  /** What the client of any stream of any run was sent: the non-empty tokens of its chunks, then
      on completion one event with the finish reason and the number of tokens, on failure one with
      the error code, and nothing more. */
  lemma {:induction false} SentInFields(schedule: seq<Scheduled>, i: nat)
    requires i in Run(schedule).sessions
    ensures var s, tokens := Run(schedule).sessions[i], TokensOf(Taken(schedule, i));
            s.sent ==
            Map((t: string) => TokenEvent(t), tokens) +
            match s.phase
            case Ended(Completed) => [DoneEvent(LastReason(Taken(schedule, i)), |tokens|)]
            case Ended(Failed(code)) => [ErrorEvent(code)]
            case _ => []
  {
    EveryStreamTold(schedule, i);
    Accounting(schedule);
    TokenEventsInFields(TokensOf(Taken(schedule, i)));
  }

  datatype Groups = Groups(live: set<nat>, completed: set<nat>, failed: set<nat>, cancelled: set<nat>)

  ghost predicate AreGroups(sessions: map<nat, Session>, g: Groups) {
    && (forall i :: i in g.live <==> i in sessions && !sessions[i].phase.Ended?)
    && (forall i :: i in g.completed <==> i in sessions && sessions[i].phase == Ended(Completed))
    && (forall i :: i in g.failed <==>
          i in sessions && sessions[i].phase.Ended? && sessions[i].phase.outcome.Failed?)
    && (forall i :: i in g.cancelled <==> i in sessions && sessions[i].phase == Ended(Cancelled))
  }

  lemma {:induction false} GroupsOf(sessions: map<nat, Session>) returns (g: Groups)
    ensures AreGroups(sessions, g)
    ensures CountersOf(sessions) == Counters(|g.live|, |g.completed|, |g.failed|, |g.cancelled|)
  {
    g := Groups(Ids(sessions, LiveBucket), Ids(sessions, CompletedBucket),
                Ids(sessions, FailedBucket), Ids(sessions, CancelledBucket));
  }

  /** The counters are the numbers of sessions in the phases that they stand for. */
  lemma {:induction false} CountersInFields(schedule: seq<Scheduled>) returns (g: Groups)
    ensures Run(schedule).counters == Counters(|g.live|, |g.completed|, |g.failed|, |g.cancelled|)
    ensures AreGroups(Run(schedule).sessions, g)
  {
    Accounting(schedule);
    g := GroupsOf(Run(schedule).sessions);
  }
}
