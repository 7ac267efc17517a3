/** Streaming sessions. Any number of generators run interleaved and share module-level
    counters and the message table; each can end by completing, by a provider error, by an
    error while preparing or persisting, or by the client disconnecting at a token. */
module Streaming {
  import opened StableSort

  datatype Outcome =
    | Completed
    | Failed(code: string)
    | Cancelled
    | RaisedHttp

  /** Where a generator stands. `AtToken` is the suspension at a token event, with the finish
      reason of the chunk still to be looked at. */
  datatype Phase =
    | Preparing
    | Reading
    | AtToken(finishReason: string)
    | Ended(outcome: Outcome)

  datatype SseEvent =
    | TokenEvent(token: string)
    | DoneEvent(finishReason: string, tokensSent: nat)
    | ErrorEvent(code: string)

  datatype Session = Session(
    conversation: nat, phase: Phase, collected: seq<string>, tokensSent: nat, finishReason: string, sent: seq<SseEvent>)

  datatype Role = User | Assistant

  datatype Message = Message(stream: nat, conversation: nat, role: Role, content: string, finishReason: string)

  datatype Trouble = HttpError | OtherError

  /** One step of one generator, with what its surroundings answer. Any error while reading from
      the provider, an HTTP error too, meets the inner handler and counts as a failure; outside
      that loop an HTTP error is let through uncounted. */
  datatype Step =
    | Open(conversation: nat)
    | Prepare(content: string)
    | PrepareFails(trouble: Trouble, stored: bool, content: string)
    | Chunk(token: string, finishReason: string)
    | Resume
    | Disconnect
    | ProviderFails(trouble: Trouble)
    | Finish
    | FinishFails(trouble: Trouble)

  const PROVIDER_ERROR := "provider_streaming_error"
  const INTERNAL_ERROR := "internal_error"

  predicate Enabled(sessions: map<nat, Session>, i: nat, e: Step) {
    if e.Open? then i !in sessions
    else
      && i in sessions
      && match e
         case Open(_) => false
         case Prepare(_) => sessions[i].phase.Preparing?
         case PrepareFails(_, _, _) => sessions[i].phase.Preparing?
         case Chunk(_, _) => sessions[i].phase.Reading?
         case Resume => sessions[i].phase.AtToken?
         case Disconnect => sessions[i].phase.AtToken?
         case ProviderFails(_) => sessions[i].phase.Reading?
         case Finish => sessions[i].phase.Reading?
         case FinishFails(_) => sessions[i].phase.Reading?
  }

  /** Which steps a stream can take, by where it stands. */
  lemma {:induction false} StepsInFields(sessions: map<nat, Session>, i: nat, e: Step)
    ensures i !in sessions ==> (Enabled(sessions, i, e) <==> e.Open?)
    ensures i in sessions ==>
              (Enabled(sessions, i, e) <==>
               match sessions[i].phase
               case Preparing => e.Prepare? || e.PrepareFails?
               case Reading => e.Chunk? || e.ProviderFails? || e.Finish? || e.FinishFails?
               case AtToken(_) => e.Resume? || e.Disconnect?
               case Ended(_) => false)
  {
  }

  function Updated(reason: string, with: string): string {
    if with != "" then with else reason
  }

  /** How a session that hits trouble outside the provider loop ends. */
  function Fail(s: Session, t: Trouble): Session {
    match t
    case HttpError => s.(phase := Ended(RaisedHttp))
    case OtherError => s.(phase := Ended(Failed(INTERNAL_ERROR)), sent := s.sent + [ErrorEvent(INTERNAL_ERROR)])
  }

  /** The session after a step; the other sessions are untouched. */
  function After(sessions: map<nat, Session>, i: nat, e: Step): Session
    requires Enabled(sessions, i, e)
  {
    if e.Open? then Session(e.conversation, Preparing, [], 0, "stop", [])
    else
      var s := sessions[i];
      match e
      case Open(_) => s
      case Prepare(_) => s.(phase := Reading)
      case PrepareFails(t, _, _) => Fail(s, t)
      case Chunk(token, reason) =>
        if token == "" then s.(finishReason := Updated(s.finishReason, reason))
        else s.(phase := AtToken(reason), collected := s.collected + [token], tokensSent := s.tokensSent + 1,
                sent := s.sent + [TokenEvent(token)])
      case Resume => s.(phase := Reading, finishReason := Updated(s.finishReason, s.phase.finishReason))
      case Disconnect => s.(phase := Ended(Cancelled))
      case ProviderFails(_) =>
        s.(phase := Ended(Failed(PROVIDER_ERROR)), sent := s.sent + [ErrorEvent(PROVIDER_ERROR)])
      case Finish => s.(phase := Ended(Completed), sent := s.sent + [DoneEvent(s.finishReason, s.tokensSent)])
      case FinishFails(t) => Fail(s, t)
  }

  function Next(sessions: map<nat, Session>, i: nat, e: Step): map<nat, Session>
    requires Enabled(sessions, i, e)
  {
    sessions[i := After(sessions, i, e)]
  }

  // ---- what the client saw ----

  function TokenEvents(tokens: seq<string>): seq<SseEvent> {
    if tokens == [] then [] else TokenEvents(tokens[..|tokens| - 1]) + [TokenEvent(tokens[|tokens| - 1])]
  }

  function Concat(tokens: seq<string>): string {
    if tokens == [] then "" else Concat(tokens[..|tokens| - 1]) + tokens[|tokens| - 1]
  }

  function Tail(s: Session): seq<SseEvent> {
    match s.phase
    case Ended(Completed) => [DoneEvent(s.finishReason, s.tokensSent)]
    case Ended(Failed(code)) => [ErrorEvent(code)]
    case _ => []
  }

  /** The client saw the collected tokens in order, then one final event if the stream
      completed or failed, and nothing more; there is always a finish reason. */
  ghost predicate Accurate(s: Session) {
    && s.sent == TokenEvents(s.collected) + Tail(s)
    && s.tokensSent == |s.collected| && s.finishReason != ""
    && forall t :: t in s.collected ==> t != ""
  }

  lemma {:induction false} StepAccurate(sessions: map<nat, Session>, i: nat, e: Step)
    requires Enabled(sessions, i, e) && (i in sessions ==> Accurate(sessions[i]))
    ensures Accurate(After(sessions, i, e))
  {
    if e.Chunk? && e.token != "" {
      var s := sessions[i];
      assert (s.collected + [e.token])[..|s.collected|] == s.collected;
    }
  }

  // ---- the counters ----

  datatype Bucket = LiveBucket | CompletedBucket | FailedBucket | CancelledBucket | HttpBucket

  function BucketOf(s: Session): Bucket {
    match s.phase
    case Ended(Completed) => CompletedBucket
    case Ended(Failed(_)) => FailedBucket
    case Ended(Cancelled) => CancelledBucket
    case Ended(RaisedHttp) => HttpBucket
    case _ => LiveBucket
  }

  function Ids(sessions: map<nat, Session>, b: Bucket): set<nat> {
    set i | i in sessions && BucketOf(sessions[i]) == b
  }

  function Count(sessions: map<nat, Session>, b: Bucket): nat {
    |Ids(sessions, b)|
  }

  function Is(s: Session, b: Bucket): nat {
    if BucketOf(s) == b then 1 else 0
  }

  function Was(sessions: map<nat, Session>, i: nat, b: Bucket): nat {
    if i in sessions then Is(sessions[i], b) else 0
  }

  lemma {:induction false} CountUpdate(sessions: map<nat, Session>, i: nat, s: Session, b: Bucket)
    ensures Count(sessions[i := s], b) == Count(sessions, b) - Was(sessions, i, b) + Is(s, b)
  {
    var before, after := Ids(sessions, b), Ids(sessions[i := s], b);
    assert after == before - {i} + (if BucketOf(s) == b then {i} else {});
  }

  datatype Counters = Counters(active: nat, completed: nat, failed: nat, cancelled: nat)

  function CountersOf(sessions: map<nat, Session>): Counters {
    Counters(Count(sessions, LiveBucket), Count(sessions, CompletedBucket),
             Count(sessions, FailedBucket), Count(sessions, CancelledBucket))
  }

  /** What a step does to the counters, when a live stream takes it. */
  function Effect(c: Counters, e: Step): Counters {
    var freed := c.(active := if c.active > 0 then c.active - 1 else 0);
    match e
    case Open(_) => c.(active := c.active + 1)
    case PrepareFails(HttpError, _, _) => freed
    case PrepareFails(OtherError, _, _) => freed.(failed := c.failed + 1)
    case Disconnect => freed.(cancelled := c.cancelled + 1)
    case ProviderFails(_) => freed.(failed := c.failed + 1)
    case Finish => freed.(completed := c.completed + 1)
    case FinishFails(HttpError) => freed
    case FinishFails(OtherError) => freed.(failed := c.failed + 1)
    case Prepare(_) => c
    case Chunk(_, _) => c
    case Resume => c
  }

  lemma {:induction false} StepCounters(sessions: map<nat, Session>, i: nat, e: Step)
    requires Enabled(sessions, i, e)
    ensures CountersOf(Next(sessions, i, e)) == Effect(CountersOf(sessions), e)
  {
    var s := After(sessions, i, e);
    CountUpdate(sessions, i, s, LiveBucket);
    CountUpdate(sessions, i, s, CompletedBucket);
    CountUpdate(sessions, i, s, FailedBucket);
    CountUpdate(sessions, i, s, CancelledBucket);
  }

  // ---- the message table ----

  function AnswerOf(i: nat): Message -> bool {
    (m: Message) => m.stream == i && m.role == Assistant
  }

  function Answers(messages: seq<Message>, i: nat): seq<Message> {
    Filter(AnswerOf(i), messages)
  }

  function AnswerFrom(i: nat, s: Session): Message {
    Message(i, s.conversation, Assistant, Concat(s.collected), s.finishReason)
  }

  /** A stream that completed stored exactly one answer, the concatenation of the tokens it
      sent; any other stream stored none. */
  ghost predicate Stored(messages: seq<Message>, i: nat, s: Session) {
    Answers(messages, i) ==
    if s.phase == Ended(Completed) then [AnswerFrom(i, s)] else []
  }

  ghost predicate AllStored(messages: seq<Message>, sessions: map<nat, Session>) {
    && (forall i :: i in sessions ==> Stored(messages, i, sessions[i]))
    && forall i :: i !in sessions ==> Answers(messages, i) == []
  }

  function NewMessages(sessions: map<nat, Session>, i: nat, e: Step): seq<Message>
    requires Enabled(sessions, i, e)
  {
    match e
    case Prepare(content) => [Message(i, sessions[i].conversation, User, content, "")]
    case PrepareFails(_, true, content) => [Message(i, sessions[i].conversation, User, content, "")]
    case Finish => [AnswerFrom(i, sessions[i])]
    case _ => []
  }

  lemma {:induction false} StepStored(messages: seq<Message>, sessions: map<nat, Session>, i: nat, e: Step)
    requires AllStored(messages, sessions) && Enabled(sessions, i, e)
    ensures AllStored(messages + NewMessages(sessions, i, e), Next(sessions, i, e))
  {
    var after, next := messages + NewMessages(sessions, i, e), Next(sessions, i, e);
    forall j | j in next ensures Stored(after, j, next[j]) {
      NewAnswers(messages, sessions, i, e, j);
    }
    forall j | j !in next ensures Answers(after, j) == [] {
      NewAnswers(messages, sessions, i, e, j);
    }
  }

  lemma {:induction false} NewAnswers(messages: seq<Message>, sessions: map<nat, Session>, i: nat, e: Step, j: nat)
    requires Enabled(sessions, i, e)
    ensures Answers(messages + NewMessages(sessions, i, e), j) ==
            Answers(messages, j) + if e.Finish? && i == j then [AnswerFrom(i, sessions[i])] else []
  {
    FilterAppend(AnswerOf(j), messages, NewMessages(sessions, i, e));
  }

  // ---- runs ----

  datatype State = State(counters: Counters, messages: seq<Message>, sessions: map<nat, Session>)

  const START := State(Counters(0, 0, 0, 0), [], map[])

  function Advanced(st: State, i: nat, e: Step): State {
    if Enabled(st.sessions, i, e) then
      State(Effect(st.counters, e), st.messages + NewMessages(st.sessions, i, e), Next(st.sessions, i, e))
    else st
  }

  datatype Scheduled = Scheduled(stream: nat, step: Step)

  /** The state after a schedule; steps that cannot be taken are skipped. */
  function Run(schedule: seq<Scheduled>): State {
    if schedule == [] then START
    else
      var last := schedule[|schedule| - 1];
      Advanced(Run(schedule[..|schedule| - 1]), last.stream, last.step)
  }

  ghost predicate Inv(st: State) {
    && st.counters == CountersOf(st.sessions)
    && AllStored(st.messages, st.sessions)
    && forall i :: i in st.sessions ==> Accurate(st.sessions[i])
  }

  lemma {:induction false} AdvanceKeepsInv(st: State, i: nat, e: Step)
    requires Inv(st)
    ensures Inv(Advanced(st, i, e))
  {
    if Enabled(st.sessions, i, e) {
      StepAccurate(st.sessions, i, e);
      StepStored(st.messages, st.sessions, i, e);
      StepCounters(st.sessions, i, e);
    }
  }

  /** For every interleaving of any number of streams: the active counter is the number of live
      streams, each ended stream is in exactly one outcome counter (none for an HTTP error),
      every client saw exactly the tokens collected for it, and the stored answers are those
      of the completed streams. */
  lemma {:induction false} Accounting(schedule: seq<Scheduled>)
    ensures Inv(Run(schedule))
  {
    if schedule == [] {
      assert CountersOf(map[]) == Counters(0, 0, 0, 0);
    } else {
      var last := schedule[|schedule| - 1];
      Accounting(schedule[..|schedule| - 1]);
      AdvanceKeepsInv(Run(schedule[..|schedule| - 1]), last.stream, last.step);
    }
  }

  lemma {:induction false} UnionSize(a: set<nat>, b: set<nat>)
    requires a !! b
    ensures |a + b| == |a| + |b|
  {
  }

  lemma {:induction false} FiveSets(a: set<nat>, b: set<nat>, c: set<nat>, d: set<nat>, e: set<nat>)
    requires a !! b !! c !! d !! e
    ensures |a + b + c + d + e| == |a| + |b| + |c| + |d| + |e|
  {
    UnionSize(a, b);
    UnionSize(a + b, c);
    UnionSize(a + b + c, d);
    UnionSize(a + b + c + d, e);
  }

  lemma {:induction false} IdsDisjoint(sessions: map<nat, Session>, b: Bucket, c: Bucket)
    requires b != c
    ensures Ids(sessions, b) !! Ids(sessions, c)
  {
  }

  lemma {:induction false} IdsCover(sessions: map<nat, Session>)
    ensures sessions.Keys == Ids(sessions, LiveBucket) + Ids(sessions, CompletedBucket) + Ids(sessions, FailedBucket)
                             + Ids(sessions, CancelledBucket) + Ids(sessions, HttpBucket)
  {
    forall i | i in sessions ensures i in Ids(sessions, BucketOf(sessions[i])) {
    }
  }

  /** Every stream is live or has exactly one outcome. */
  lemma {:induction false} BucketsPartition(sessions: map<nat, Session>)
    ensures Count(sessions, LiveBucket) + Count(sessions, CompletedBucket) + Count(sessions, FailedBucket)
            + Count(sessions, CancelledBucket) + Count(sessions, HttpBucket) == |sessions|
  {
    IdsCover(sessions);
    forall b, c | b != c ensures Ids(sessions, b) !! Ids(sessions, c) {
      IdsDisjoint(sessions, b, c);
    }
    FiveSets(Ids(sessions, LiveBucket), Ids(sessions, CompletedBucket), Ids(sessions, FailedBucket),
             Ids(sessions, CancelledBucket), Ids(sessions, HttpBucket));
  }

  /** An ended stream never changes again, whatever is scheduled later. */
  lemma {:induction false} EndedForGood(schedule: seq<Scheduled>, more: seq<Scheduled>, i: nat)
    requires var before := Run(schedule).sessions; i in before && before[i].phase.Ended?
    ensures var after := Run(schedule + more).sessions; i in after && after[i] == Run(schedule).sessions[i]
    decreases |more|
  {
    if more == [] {
      assert schedule + more == schedule;
    } else {
      var front := more[..|more| - 1];
      EndedForGood(schedule, front, i);
      assert (schedule + more)[..|schedule + more| - 1] == schedule + front;
    }
  }

  // ---- the service ----

  /** The shared state that the generators change: the counters of `stream_events`, the message
      table, and the frames of the generators themselves. */
  class StreamingService {
    var active: nat
    var completed: nat
    var failed: nat
    var cancelled: nat
    var messages: seq<Message>
    var sessions: map<nat, Session>

    ghost function Current(): State
      reads this
    {
      State(Counters(active, completed, failed, cancelled), messages, sessions)
    }

    constructor ()
      ensures Current() == START
    {
      active, completed, failed, cancelled := 0, 0, 0, 0;
      messages, sessions := [], map[];
    }

    /** `max(0, active - 1)`. */
    method DecrementActive()
      modifies `active
      ensures active == if old(active) > 0 then old(active) - 1 else 0
    {
      active := if active > 0 then active - 1 else 0;
    }

    /** The handlers around the whole generator body: an HTTP exception only gives the slot
        back, any other exception is recorded as a failure. */
    method HandleTrouble(t: Trouble)
      modifies `active, `failed
      ensures failed == old(failed) + if t.OtherError? then 1 else 0
      ensures active == if old(active) > 0 then old(active) - 1 else 0
    {
      if t.OtherError? {
        failed := failed + 1;
      }
      DecrementActive();
    }

    /** The counter updates that a step performs. */
    method Account(e: Step)
      modifies `active, `completed, `failed, `cancelled
      ensures Counters(active, completed, failed, cancelled) ==
              Effect(old(Counters(active, completed, failed, cancelled)), e)
    {
      match e {
        case Open(_) =>
          active := active + 1;
        case PrepareFails(t, _, _) =>
          HandleTrouble(t);
        case Disconnect =>
          cancelled := cancelled + 1;
          DecrementActive();
        case ProviderFails(_) =>
          failed := failed + 1;
          DecrementActive();
        case Finish =>
          completed := completed + 1;
          DecrementActive();
        case FinishFails(t) =>
          HandleTrouble(t);
        case Prepare(_) =>
        case Chunk(_, _) =>
        case Resume =>
      }
    }

    /** The message rows that a step stores. */
    method Persist(i: nat, e: Step)
      requires Enabled(sessions, i, e)
      modifies `messages
      ensures messages == old(messages) + NewMessages(sessions, i, e)
    {
      if e.Prepare? || (e.PrepareFails? && e.stored) {
        messages := messages + [Message(i, sessions[i].conversation, User, e.content, "")];
      } else if e.Finish? {
        var text := JoinTokens(sessions[i].collected);
        messages := messages + [Message(i, sessions[i].conversation, Assistant, text, sessions[i].finishReason)];
      }
    }

    /** The local variables of the generator after a step, and what it yields. */
    method MoveOn(i: nat, e: Step)
      requires Enabled(sessions, i, e)
      modifies `sessions
      ensures sessions == Next(old(sessions), i, e)
    {
      if e.Open? {
        sessions := sessions[i := Session(e.conversation, Preparing, [], 0, "stop", [])];
        return;
      }
      var s := sessions[i];
      var phase, sent := s.phase, s.sent;
      var collected, tokensSent, finishReason := s.collected, s.tokensSent, s.finishReason;
      match e {
        case Open(_) =>
        case Prepare(_) =>
          phase := Reading;
        case Chunk(token, reason) =>
          if token != "" {
            collected := collected + [token];
            tokensSent := tokensSent + 1;
            sent := sent + [TokenEvent(token)];
            phase := AtToken(reason);
          } else if reason != "" {
            finishReason := reason;
          }
        case Resume =>
          if phase.finishReason != "" {
            finishReason := phase.finishReason;
          }
          phase := Reading;
        case Disconnect =>
          phase := Ended(Cancelled);
        case ProviderFails(_) =>
          phase := Ended(Failed(PROVIDER_ERROR));
          sent := sent + [ErrorEvent(PROVIDER_ERROR)];
        case Finish =>
          phase := Ended(Completed);
          sent := sent + [DoneEvent(finishReason, tokensSent)];
        case _ =>
          if e.trouble.HttpError? {
            phase := Ended(RaisedHttp);
          } else {
            phase := Ended(Failed(INTERNAL_ERROR));
            sent := sent + [ErrorEvent(INTERNAL_ERROR)];
          }
      }
      sessions := sessions[i := Session(s.conversation, phase, collected, tokensSent, finishReason, sent)];
    }

    /** One step of generator `i`: what it stores, what it counts, where it stands next. */
    method Advance(i: nat, e: Step)
      modifies this
      ensures Current() == Advanced(old(Current()), i, e)
    {
      if Enabled(sessions, i, e) {
        Persist(i, e);
        Account(e);
        MoveOn(i, e);
      }
    }
  }

  /** `"".join(tokens)`. */
  method JoinTokens(tokens: seq<string>) returns (text: string)
    ensures text == Concat(tokens)
  {
    text := "";
    for n := 0 to |tokens|
      invariant text == Concat(tokens[..n])
    {
      assert tokens[..n + 1][..n] == tokens[..n];
      text := text + tokens[n];
    }
    assert tokens[..|tokens|] == tokens;
  }

  /** The service under any schedule is in the state that the run predicts, so its counters
      are right after every step. */
  method Drive(schedule: seq<Scheduled>) returns (service: StreamingService)
    ensures fresh(service) && service.Current() == Run(schedule) && Inv(service.Current())
  {
    service := new StreamingService();
    for n := 0 to |schedule|
      invariant fresh(service) && service.Current() == Run(schedule[..n])
    {
      assert schedule[..n + 1][..n] == schedule[..n];
      service.Advance(schedule[n].stream, schedule[n].step);
    }
    assert schedule[..|schedule|] == schedule;
    Accounting(schedule);
  }
}
