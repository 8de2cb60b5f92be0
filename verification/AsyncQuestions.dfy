/**
 * Background questions of one session: the questions that a thread asked without waiting, kept live
 * from its events or rebuilt from its history.
 *
 * Which questions an item asks is not modelled.
 */
module AsyncQuestions {
  import opened Prelude
  import opened Utf16
  import DisplayParts

  /** A request for answers to one or more questions. */
  datatype Question = Question(id: Id, blocking: bool, texts: seq<Text>)

  /** A map by question id that iterates in insertion order. */
  type Pending = seq<Question>

  datatype Questions = Questions(pending: Pending, handled: set<Id>, claims: set<Id>)

  const FRESH := Questions([], {}, {})

  function IdsOf(pending: Pending): (ids: seq<Id>)
    ensures |ids| == |pending|
    ensures forall i | 0 <= i < |ids| :: ids[i] == pending[i].id
  {
    seq(|pending|, i requires 0 <= i < |pending| => pending[i].id)
  }

  /** A known id keeps its place. */
  function With(pending: Pending, question: Question): Pending
    decreases |pending|
  {
    if pending == [] then [question]
    else if pending[0].id == question.id then [question] + pending[1..]
    else [pending[0]] + With(pending[1..], question)
  }

  function Without(pending: Pending, gone: set<Id>): Pending
    decreases |pending|
  {
    if pending == [] then []
    else (if pending[0].id in gone then [] else [pending[0]]) + Without(pending[1..], gone)
  }

  function IdSet(ids: seq<Id>): set<Id> {
    set id | id in ids
  }

  // ---------------------------------------------------------------------------------------------
  // Operations on the live state
  // ---------------------------------------------------------------------------------------------

  function Added(s: Questions, question: Question): Questions {
    if question.id in s.handled then s else s.(pending := With(s.pending, question))
  }

  function Resolved(s: Questions, ids: set<Id>): Questions {
    Questions(Without(s.pending, ids), s.handled + ids, s.claims - ids)
  }

  function PendingQuestion(pending: Pending, id: Id): (question: Option<Question>)
    ensures question.Some? <==> Holds(pending, id)
    ensures question.Some? ==> question.value in pending && question.value.id == id
    decreases |pending|
  {
    if pending == [] then None
    else if pending[0].id == id then Some(pending[0])
    else PendingQuestion(pending[1..], id)
  }

  /** The first alternative of an answer counts, and must not be blank. */
  predicate IsAnswered(answer: seq<Text>) {
    answer != [] && DisplayParts.Trim(answer[0]) != []
  }

  predicate AnswersAll(question: Question, answers: seq<seq<Text>>) {
    |answers| == |question.texts| && forall answer <- answers :: IsAnswered(answer)
  }

  /** A reply may start for a pending question that has no other reply in flight, with an answer to each part. */
  predicate MayClaim(s: Questions, id: Id, answers: seq<seq<Text>>) {
    && Holds(s.pending, id) && id !in s.claims
    && AnswersAll(PendingQuestion(s.pending, id).value, answers)
  }

  function AddedAll(s: Questions, questions: Pending): Questions
    decreases |questions|
  {
    if questions == [] then s
    else Added(AddedAll(s, questions[..|questions| - 1]), questions[|questions| - 1])
  }

  // ---------------------------------------------------------------------------------------------
  // Events and history
  // ---------------------------------------------------------------------------------------------

  /** The canonical events that concern questions, and those that change the history beside them. */
  datatype Event =
    | UserMessage(message: Id, resolved: Option<seq<Id>>)
    | AssistantMessage(message: Id, question: Option<Question>)
    | StreamPart(message: Id)
    | Tool(message: Id, resolved: Option<seq<Id>>)
    | Compacted(message: Id)
    | OtherEvent

  datatype Role = User | Assistant | System

  /** `isResolution` marks the empty user record that only closes questions. */
  datatype Message = Message(
    id: Id, isResolution: bool, role: Role, question: Option<Question>, resolved: Option<seq<Id>>, parts: nat)

  /** The ids that an event resolves: those it names, or for a user message all that are pending. */
  function ResolvedBy(s: Questions, event: Event): Option<seq<Id>> {
    match event
    case UserMessage(_, resolved) => Some(if resolved.Some? then resolved.value else IdsOf(s.pending))
    case Tool(_, resolved) => resolved
    case _ => None
  }

  function Observed(s: Questions, event: Event): Questions {
    if event.AssistantMessage? && event.question.Some? then Added(s, event.question.value)
    else if ResolvedBy(s, event).Some? then Resolved(s, IdSet(ResolvedBy(s, event).value))
    else s
  }

  function Live(s: Questions, events: seq<Event>): Questions
    decreases |events|
  {
    if events == [] then s else Observed(Live(s, events[..|events| - 1]), events[|events| - 1])
  }

  /** The position of the first message with the id. */
  function MessageAt(messages: seq<Message>, id: Id): (i: nat)
    ensures i <= |messages|
    decreases |messages|
  {
    if messages == [] || (messages[0].id == id && !messages[0].isResolution) then 0 else 1 + MessageAt(messages[1..], id)
  }

  function Projected(messages: seq<Message>, event: Event): seq<Message> {
    match event
    case UserMessage(id, resolved) => messages + [Message(id, false, User, None, resolved, 0)]
    case AssistantMessage(id, question) => messages + [Message(id, false, Assistant, question, None, 0)]
    case StreamPart(id) =>
      var i := MessageAt(messages, id);
      if i < |messages| && messages[i].role == Assistant
      then messages[i := messages[i].(parts := messages[i].parts + 1)]
      else messages + [Message(id, false, Assistant, None, None, 1)]
    case Tool(id, resolved) =>
      (if resolved.Some? then messages + [Message(id, true, User, None, resolved, 0)] else messages)
      + [Message(id, false, Assistant, None, None, 1)]
    case Compacted(id) => messages + [Message(id, false, System, None, None, 0)]
    case OtherEvent => messages
  }

  function History(events: seq<Event>): seq<Message>
    decreases |events|
  {
    if events == [] then [] else Projected(History(events[..|events| - 1]), events[|events| - 1])
  }

  /** What the replay of a history keeps on the side: its pending and its handled questions. */
  datatype Replay = Replay(pending: Pending, handled: set<Id>)

  function ReplayedOne(r: Replay, message: Message): Replay {
    if message.role == Assistant && message.question.Some? && !message.question.value.blocking
    then if message.question.value.id in r.handled then r else r.(pending := With(r.pending, message.question.value))
    else if message.role != User then r
    else
      var ids := IdSet(if message.resolved.Some? then message.resolved.value else IdsOf(r.pending));
      Replay(Without(r.pending, ids), r.handled + ids)
  }

  function Replayed(messages: seq<Message>): Replay
    decreases |messages|
  {
    if messages == [] then Replay([], {})
    else ReplayedOne(Replayed(messages[..|messages| - 1]), messages[|messages| - 1])
  }

  /** The state after loading a history. */
  function Loaded(s: Questions, messages: seq<Message>): Questions {
    AddedAll(Resolved(s, Replayed(messages).handled), Replayed(messages).pending)
  }

  // ---------------------------------------------------------------------------------------------
  // Runs
  // ---------------------------------------------------------------------------------------------

  datatype Operation =
    | Observe(event: Event)
    | Resolve(ids: seq<Id>)
    | Load(messages: seq<Message>)
    | Claim(claimed: Id, answers: seq<seq<Text>>)
    | Release(released: Id)

  function Step(s: Questions, op: Operation): Questions {
    match op
    case Observe(event) => Observed(s, event)
    case Resolve(ids) => Resolved(s, IdSet(ids))
    case Load(messages) => Loaded(s, messages)
    case Claim(id, answers) => if MayClaim(s, id, answers) then s.(claims := s.claims + {id}) else s
    case Release(id) => s.(claims := s.claims - {id})
  }

  function Run(s: Questions, ops: seq<Operation>): Questions
    decreases |ops|
  {
    if ops == [] then s else Run(Step(s, ops[0]), ops[1..])
  }

  ghost predicate DistinctIds(pending: Pending) {
    forall i, j | 0 <= i < j < |pending| :: pending[i].id != pending[j].id
  }

  predicate Holds(pending: Pending, id: Id)
    decreases |pending|
  {
    pending != [] && (pending[0].id == id || Holds(pending[1..], id))
  }

  /** No handled question is pending, and only pending questions are claimed. */
  ghost predicate Inv(s: Questions) {
    && DistinctIds(s.pending)
    && (forall q <- s.pending :: q.id !in s.handled)
    && forall id <- s.claims :: Holds(s.pending, id)
  }

  // ---------------------------------------------------------------------------------------------
  // Pending maps
  // ---------------------------------------------------------------------------------------------

  lemma {:induction false} HoldsIff(pending: Pending, id: Id)
    ensures Holds(pending, id) <==> exists q <- pending :: q.id == id
    ensures Holds(pending, id) <==> id in IdsOf(pending)
    decreases |pending|
  {
    if pending == [] {
    } else {
      assert pending == [pending[0]] + pending[1..];
      HoldsIff(pending[1..], id);
      assert IdsOf(pending) == [pending[0].id] + IdsOf(pending[1..]);
    }
  }

  lemma {:induction false} WithContains(pending: Pending, question: Question)
    ensures forall q: Question :: q in With(pending, question) ==> q in pending || q == question
    ensures forall id: Id :: Holds(With(pending, question), id) <==> Holds(pending, id) || id == question.id
    decreases |pending|
  {
    if pending != [] && pending[0].id != question.id {
      WithContains(pending[1..], question);
      assert With(pending, question)[1..] == With(pending[1..], question);
    } else {
      assert With(pending, question)[1..] == if pending == [] then [] else pending[1..];
    }
  }

  lemma {:induction false} WithKeepsDistinct(pending: Pending, question: Question)
    requires DistinctIds(pending)
    ensures DistinctIds(With(pending, question))
    decreases |pending|
  {
    if pending != [] && pending[0].id != question.id {
      var rest := With(pending[1..], question);
      WithKeepsDistinct(pending[1..], question);
      WithContains(pending[1..], question);
      forall i | 0 <= i < |rest| ensures rest[i].id != pending[0].id {
        assert rest[i] in rest;
        assert rest[i] in pending[1..] || rest[i] == question;
      }
    }
  }

  lemma {:induction false} WithoutContains(pending: Pending, gone: set<Id>)
    ensures forall q: Question :: q in Without(pending, gone) <==> q in pending && q.id !in gone
    ensures forall id: Id :: Holds(Without(pending, gone), id) <==> Holds(pending, id) && id !in gone
    decreases |pending|
  {
    if pending == [] {
    } else {
      WithoutContains(pending[1..], gone);
      if pending[0].id !in gone {
        assert Without(pending, gone)[1..] == Without(pending[1..], gone);
      } else {
        assert Without(pending, gone) == Without(pending[1..], gone);
      }
    }
  }

  lemma {:induction false} WithoutKeepsDistinct(pending: Pending, gone: set<Id>)
    requires DistinctIds(pending)
    ensures DistinctIds(Without(pending, gone))
    decreases |pending|
  {
    if pending == [] {
    } else {
      var rest := Without(pending[1..], gone);
      WithoutKeepsDistinct(pending[1..], gone);
      WithoutContains(pending[1..], gone);
      forall i | 0 <= i < |rest| ensures rest[i].id != pending[0].id {
        assert rest[i] in rest;
        assert rest[i] in pending[1..];
      }
    }
  }

  lemma {:induction false} WithoutNothing(pending: Pending, gone: set<Id>)
    requires forall q <- pending :: q.id !in gone
    ensures Without(pending, gone) == pending
    decreases |pending|
  {
    if pending == [] {
    } else {
      assert pending[0] in pending && forall q <- pending[1..] :: q in pending;
      WithoutNothing(pending[1..], gone);
    }
  }

  lemma {:induction false} WithKnown(pending: Pending, question: Question)
    requires DistinctIds(pending) && question in pending
    ensures With(pending, question) == pending
    decreases |pending|
  {
    if pending[0] != question {
      assert question in pending[1..];
      var i :| 1 <= i < |pending| && pending[i] == question;
      assert pending[0].id != question.id;
      WithKnown(pending[1..], question);
    }
  }

  lemma {:induction false} WithNew(pending: Pending, question: Question)
    requires !Holds(pending, question.id)
    ensures With(pending, question) == pending + [question]
    decreases |pending|
  {
    if pending == [] {
    } else {
      assert pending[0] in pending && forall q <- pending[1..] :: q in pending;
      WithNew(pending[1..], question);
    }
  }

  // ---------------------------------------------------------------------------------------------
  // Every operation keeps the invariant
  // ---------------------------------------------------------------------------------------------

  lemma AddedKeepsInv(s: Questions, question: Question)
    requires Inv(s)
    ensures Inv(Added(s, question)) && Added(s, question).handled == s.handled
  {
    WithKeepsDistinct(s.pending, question);
    WithContains(s.pending, question);
    hide With, DistinctIds;
  }

  lemma ResolvedKeepsInv(s: Questions, ids: set<Id>)
    requires Inv(s)
    ensures Inv(Resolved(s, ids))
  {
    WithoutKeepsDistinct(s.pending, ids);
    WithoutContains(s.pending, ids);
    hide Without, DistinctIds;
  }

  lemma {:induction false} AddedAllKeepsInv(s: Questions, questions: Pending)
    requires Inv(s)
    ensures Inv(AddedAll(s, questions)) && AddedAll(s, questions).handled == s.handled
    ensures AddedAll(s, questions).claims == s.claims
    decreases |questions|
  {
    if questions == [] {
    } else {
      AddedAllKeepsInv(s, questions[..|questions| - 1]);
      AddedKeepsInv(AddedAll(s, questions[..|questions| - 1]), questions[|questions| - 1]);
    }
  }

  lemma StepKeepsInv(s: Questions, op: Operation)
    requires Inv(s)
    ensures Inv(Step(s, op)) && s.handled <= Step(s, op).handled
  {
    hide Without, With;
    match op
    case Observe(event) =>
      if event.AssistantMessage? && event.question.Some? {
        AddedKeepsInv(s, event.question.value);
      } else if ResolvedBy(s, event).Some? {
        ResolvedKeepsInv(s, IdSet(ResolvedBy(s, event).value));
      }
    case Resolve(ids) => ResolvedKeepsInv(s, IdSet(ids));
    case Load(messages) =>
      ResolvedKeepsInv(s, Replayed(messages).handled);
      AddedAllKeepsInv(Resolved(s, Replayed(messages).handled), Replayed(messages).pending);
    case Claim(_, _) =>
    case Release(_) =>
  }

  /** In every run, claims are of pending questions, and what was handled once is never pending again. */
  lemma {:induction false} HandledStaysHandled(s: Questions, ops: seq<Operation>)
    requires Inv(s)
    ensures var after := Run(s, ops);
            && Inv(after)
            && forall id <- s.handled :: id in after.handled && !Holds(after.pending, id)
    decreases |ops|
  {
    if ops == [] {
      forall id | id in s.handled ensures !Holds(s.pending, id) {
        HoldsIff(s.pending, id);
      }
    } else {
      StepKeepsInv(s, ops[0]);
      HandledStaysHandled(Step(s, ops[0]), ops[1..]);
    }
  }

  // ---------------------------------------------------------------------------------------------
  // Replay
  // ---------------------------------------------------------------------------------------------

  ghost predicate SameRecord(a: Message, b: Message) {
    a.role == b.role && a.question == b.question && a.resolved == b.resolved
  }

  /** The parts of a message do not matter to a replay. */
  lemma {:induction false} ReplayIgnoresParts(a: seq<Message>, b: seq<Message>)
    requires |a| == |b| && forall i | 0 <= i < |a| :: SameRecord(a[i], b[i])
    ensures Replayed(a) == Replayed(b)
    decreases |a|
  {
    if a == [] {
    } else {
      ReplayIgnoresParts(a[..|a| - 1], b[..|b| - 1]);
      assert SameRecord(a[|a| - 1], b[|b| - 1]);
    }
  }

  lemma ReplayedMore(messages: seq<Message>, message: Message)
    ensures Replayed(messages + [message]) == ReplayedOne(Replayed(messages), message)
  {
    assert (messages + [message])[..|messages|] == messages;
  }

  /** The questions of items never block. */
  ghost predicate NeverBlocks(events: seq<Event>) {
    forall event <- events :: event.AssistantMessage? && event.question.Some? ==> !event.question.value.blocking
  }

  ghost predicate Mirrors(r: Replay, s: Questions) {
    r.pending == s.pending && r.handled == s.handled
  }

  lemma ProjectionMirrorsEvent(messages: seq<Message>, s: Questions, event: Event)
    requires Mirrors(Replayed(messages), s) && NeverBlocks([event])
    ensures Mirrors(Replayed(Projected(messages, event)), Observed(s, event))
  {
    assert event in [event];
    hide With, Without, Replayed, MessageAt;
    match event
    case UserMessage(id, resolved) => ReplayedMore(messages, Message(id, false, User, None, resolved, 0));
    case AssistantMessage(id, question) => ReplayedMore(messages, Message(id, false, Assistant, question, None, 0));
    case StreamPart(_) => StreamPartChangesNoQuestion(messages, event);
    case Tool(id, resolved) =>
      var before := if resolved.Some? then messages + [Message(id, true, User, None, resolved, 0)] else messages;
      if resolved.Some? {
        ReplayedMore(messages, Message(id, true, User, None, resolved, 0));
      }
      ReplayedMore(before, Message(id, false, Assistant, None, None, 1));
    case Compacted(id) => ReplayedMore(messages, Message(id, false, System, None, None, 0));
    case OtherEvent =>
  }

  lemma StreamPartChangesNoQuestion(messages: seq<Message>, event: Event)
    requires event.StreamPart?
    ensures Replayed(Projected(messages, event)) == Replayed(messages)
  {
    hide With, Without, Replayed;
    var i := MessageAt(messages, event.message);
    if i < |messages| && messages[i].role == Assistant {
      ReplayIgnoresParts(messages, messages[i := messages[i].(parts := messages[i].parts + 1)]);
    } else {
      ReplayedMore(messages, Message(event.message, false, Assistant, None, None, 1));
    }
  }

  lemma {:induction false} HistoryMirrorsEvents(events: seq<Event>)
    requires NeverBlocks(events)
    ensures Mirrors(Replayed(History(events)), Live(FRESH, events))
    decreases |events|
  {
    if events == [] {
    } else {
      var front, last := events[..|events| - 1], events[|events| - 1];
      assert events == front + [last];
      HistoryMirrorsEvents(front);
      ProjectionMirrorsEvent(History(front), Live(FRESH, front), last);
    }
  }

  lemma {:induction false} AddingDistinctQuestions(s: Questions, questions: Pending)
    requires s.pending == [] && DistinctIds(questions) && forall q <- questions :: q.id !in s.handled
    ensures AddedAll(s, questions) == s.(pending := questions)
    decreases |questions|
  {
    if questions == [] {
    } else {
      var front, last := questions[..|questions| - 1], questions[|questions| - 1];
      assert questions == front + [last];
      assert forall q <- front :: q in questions;
      AddingDistinctQuestions(s, front);
      HoldsIff(front, last.id);
      assert last in questions;
      WithNew(front, last);
    }
  }

  lemma {:induction false} LiveKeepsInv(events: seq<Event>)
    ensures Inv(Live(FRESH, events))
    decreases |events|
  {
    if events == [] {
    } else {
      LiveKeepsInv(events[..|events| - 1]);
      StepKeepsInv(Live(FRESH, events[..|events| - 1]), Observe(events[|events| - 1]));
    }
  }

  /** Loading the history of any events into a fresh session gives what processing the events gave. */
  lemma ReplayEqualsLive(events: seq<Event>)
    requires NeverBlocks(events)
    ensures Loaded(FRESH, History(events)) == Live(FRESH, events).(claims := {})
  {
    HistoryMirrorsEvents(events);
    LiveKeepsInv(events);
    var s := Live(FRESH, events);
    assert Without(FRESH.pending, s.handled) == [];
    AddingDistinctQuestions(Resolved(FRESH, s.handled), s.pending);
  }

  /** The live path writes the ids that a user message resolved into the event; its history is as good. */
  function Annotated(s: Questions, event: Event): Event {
    match event
    case UserMessage(id, _) => UserMessage(id, ResolvedBy(s, event))
    case _ => event
  }

  function AnnotatedAll(events: seq<Event>): seq<Event>
    decreases |events|
  {
    if events == [] then []
    else
      var front := events[..|events| - 1];
      AnnotatedAll(front) + [Annotated(Live(FRESH, front), events[|events| - 1])]
  }

  lemma {:induction false} AnnotationsChangeNothing(events: seq<Event>)
    ensures Live(FRESH, AnnotatedAll(events)) == Live(FRESH, events)
    decreases |events|
  {
    if events == [] {
    } else {
      var front, last := events[..|events| - 1], events[|events| - 1];
      AnnotationsChangeNothing(front);
      var annotated := AnnotatedAll(events);
      assert annotated[..|annotated| - 1] == AnnotatedAll(front);
      assert Observed(Live(FRESH, front), Annotated(Live(FRESH, front), last)) == Observed(Live(FRESH, front), last);
    }
  }

  lemma {:induction false} ReplayedIsDistinct(messages: seq<Message>)
    ensures DistinctIds(Replayed(messages).pending)
    ensures forall q <- Replayed(messages).pending :: q.id !in Replayed(messages).handled
    decreases |messages|
  {
    if messages == [] {
    } else {
      var front := messages[..|messages| - 1];
      ReplayedIsDistinct(front);
      var r, message := Replayed(front), messages[|messages| - 1];
      if message.question.Some? {
        WithKeepsDistinct(r.pending, message.question.value);
        WithContains(r.pending, message.question.value);
      }
      var ids := IdSet(if message.resolved.Some? then message.resolved.value else IdsOf(r.pending));
      WithoutKeepsDistinct(r.pending, ids);
      WithoutContains(r.pending, ids);
      hide With, Without, DistinctIds;
    }
  }

  lemma {:induction false} AddedAllContains(s: Questions, questions: Pending)
    requires Inv(s) && DistinctIds(questions)
    requires forall q <- questions :: q.id !in s.handled
    ensures forall q <- questions :: q in AddedAll(s, questions).pending
    decreases |questions|
  {
    if questions == [] {
    } else {
      var front, last := questions[..|questions| - 1], questions[|questions| - 1];
      assert questions == front + [last];
      assert forall q <- front :: q in questions;
      AddedAllContains(s, front);
      AddedAllKeepsInv(s, front);
      var before := AddedAll(s, front);
      assert last in questions;
      forall q | q in front ensures q in With(before.pending, last) && q.id != last.id {
        var i :| 0 <= i < |front| && front[i] == q;
        assert questions[i].id != questions[|questions| - 1].id;
        WithKeepsOthers(before.pending, last, q);
      }
      WithKeepsOthers(before.pending, last, last);
    }
  }

  lemma {:induction false} WithKeepsOthers(pending: Pending, question: Question, q: Question)
    requires q == question || (q in pending && q.id != question.id)
    ensures q in With(pending, question)
    decreases |pending|
  {
    if pending != [] && pending[0].id != question.id && q != pending[0] {
      WithKeepsOthers(pending[1..], question, q);
    }
  }

  lemma {:induction false} AddingKnownQuestions(s: Questions, questions: Pending)
    requires Inv(s) && forall q <- questions :: q in s.pending
    ensures AddedAll(s, questions) == s
    decreases |questions|
  {
    if questions == [] {
    } else {
      var front, last := questions[..|questions| - 1], questions[|questions| - 1];
      assert questions == front + [last];
      assert forall q <- front :: q in questions;
      AddingKnownQuestions(s, front);
      assert last in questions;
      WithKnown(s.pending, last);
    }
  }

  /** Loading the same history again changes nothing, whatever the session knew before. */
  lemma ReloadChangesNothing(s: Questions, messages: seq<Message>)
    requires Inv(s)
    ensures Loaded(Loaded(s, messages), messages) == Loaded(s, messages)
  {
    var r := Replayed(messages);
    var resolved, once := Resolved(s, r.handled), Loaded(s, messages);
    ReplayedIsDistinct(messages);
    ResolvedKeepsInv(s, r.handled);
    AddedAllKeepsInv(resolved, r.pending);
    forall q | q in r.pending && q.id in resolved.handled ensures q.id in s.handled {
    }
    hide Replayed;
    assert r.handled <= once.handled;
    WithoutNothing(once.pending, r.handled);
    ClaimsAreNotHandled(once, r.handled);
    assert Resolved(once, r.handled) == once;
    AddingAgain(resolved, r.pending);
  }

  lemma ClaimsAreNotHandled(s: Questions, handled: set<Id>)
    requires Inv(s) && handled <= s.handled
    ensures s.claims - handled == s.claims && s.handled + handled == s.handled
  {
    forall id | id in s.claims ensures id !in handled {
      HoldsIff(s.pending, id);
    }
  }

  /** Adding the same questions twice is adding them once; handled ones are passed over both times. */
  lemma AddingAgain(s: Questions, questions: Pending)
    requires Inv(s) && DistinctIds(questions)
    ensures AddedAll(AddedAll(s, questions), questions) == AddedAll(s, questions)
  {
    var unhandled := Without(questions, s.handled);
    WithoutKeepsDistinct(questions, s.handled);
    WithoutContains(questions, s.handled);
    OnlyFreshAreAdded(s, questions);
    var once := AddedAll(s, questions);
    AddedAllKeepsInv(s, questions);
    AddedAllContains(s, unhandled);
    OnlyFreshAreAdded(once, questions);
    AddingKnownQuestions(once, unhandled);
  }

  lemma {:induction false} OnlyFreshAreAdded(s: Questions, questions: Pending)
    ensures AddedAll(s, questions) == AddedAll(s, Without(questions, s.handled))
    ensures AddedAll(s, questions).handled == s.handled
    decreases |questions|
  {
    if questions == [] {
    } else {
      var front, last := questions[..|questions| - 1], questions[|questions| - 1];
      OnlyFreshAreAdded(s, front);
      WithoutAppend(front, last, s.handled);
      assert questions == front + [last];
      var kept := Without(front, s.handled);
      assert (kept + [last])[..|kept|] == kept && kept + [] == kept;
    }
  }

  lemma {:induction false} WithoutAppend(pending: Pending, last: Question, gone: set<Id>)
    ensures Without(pending + [last], gone) == Without(pending, gone) + if last.id in gone then [] else [last]
    decreases |pending|
  {
    if pending == [] {
      assert pending + [last] == [last] && [last][1..] == [];
    } else {
      assert (pending + [last])[1..] == pending[1..] + [last];
      WithoutAppend(pending[1..], last, gone);
    }
  }
}
