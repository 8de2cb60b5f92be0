/**
 * Native server requests: each is marked as handled, registered as pending input and announced, or
 * answered at once; a reply or a native resolution forgets the mark. Code between two awaits is one
 * step here, and the steps of any number of requests and replies interleave.
 *
 * A set of handled keys is an object that a turn and the map of handled keys may both hold, and
 * that an automatic answer in flight keeps hold of. `books` are these objects.
 *
 * The events of a runtime are taken one after the other: while one waits for its automatic answer,
 * no further request and no native resolution of the runtime is taken. Only the release of the
 * runtime ends that wait; the released turns take their sets of handled keys with them. Replies are
 * not events, and interleave with everything.
 */
module ServerRequests {
  import opened Prelude
  import opened RequestKeys
  import SubagentLinks
  import opened PendingInput
  import opened PendingInputProofs

  /** A thread of a runtime. */
  datatype Place = Place(runtime: Id, thread: Id)

  datatype Kind = Approval | Question

  datatype Book = Book(place: Place, keys: set<string>)

  /** A reply in flight, with the entry that it captured. */
  datatype Reply = Reply(kind: Kind, entry: Entry)

  /** An automatic answer in flight, with the set of handled keys that it captured. */
  datatype Answer = Answer(place: Place, book: nat, key: string)

  /**
   * `busy` has the answer that the events of a runtime wait for, and `firstBook` the first set of
   * handled keys that a runtime may have made since it was last released.
   */
  datatype Server = Server(
    approvals: Table,
    questions: Table,
    books: seq<Book>,
    bookOf: map<Place, nat>,
    replies: set<Reply>,
    answers: set<Answer>,
    busy: map<Id, Answer>,
    firstBook: map<Id, nat>)

  const IDLE := Server(NO_PENDING, NO_PENDING, [], map[], {}, {}, map[], map[])

  function TableOf(s: Server, kind: Kind): Table {
    if kind == Approval then s.approvals else s.questions
  }

  function WithTable(s: Server, kind: Kind, t: Table): Server {
    if kind == Approval then s.(approvals := t) else s.(questions := t)
  }

  function PlaceKey(place: Place, native: RequestId): NativeKey {
    (place.runtime, place.thread, RequestKey(native))
  }

  function PlaceOf(entry: Entry): Place {
    Place(entry.runtime, entry.thread)
  }

  // ---------------------------------------------------------------------------------------------
  // Handled keys
  // ---------------------------------------------------------------------------------------------

  function Handled(s: Server, place: Place): set<string> {
    if place in s.bookOf && s.bookOf[place] < |s.books| then s.books[s.bookOf[place]].keys else {}
  }

  function FirstBook(s: Server, runtime: Id): nat {
    if runtime in s.firstBook then s.firstBook[runtime] else 0
  }

  predicate IsTurnBook(s: Server, place: Place, book: nat) {
    FirstBook(s, place.runtime) <= book < |s.books| && s.books[book].place == place
  }

  /** The thread uses the set it has, or the set of its running turn, or a new one. */
  function Attached(s: Server, place: Place, turnBook: Option<nat>): Server {
    if place in s.bookOf then s
    else if turnBook.Some? && IsTurnBook(s, place, turnBook.value)
    then s.(bookOf := s.bookOf[place := turnBook.value])
    else s.(books := s.books + [Book(place, {})], bookOf := s.bookOf[place := |s.books|])
  }

  /** The empty key is never marked. */
  function Marked(s: Server, book: nat, key: string): Server {
    if key == "" || book >= |s.books| then s
    else s.(books := s.books[book := s.books[book].(keys := s.books[book].keys + {key})])
  }

  function Unmarked(s: Server, book: nat, key: string): Server {
    if key == "" || book >= |s.books| then s
    else s.(books := s.books[book := s.books[book].(keys := s.books[book].keys - {key})])
  }

  /** Drops a handled key of a thread, and a set that becomes empty. */
  function Forgotten(s: Server, place: Place, key: string): Server {
    if place !in s.bookOf || s.bookOf[place] >= |s.books| then s
    else
      var book := s.bookOf[place];
      var keys := s.books[book].keys - {key};
      s.(books := s.books[book := s.books[book].(keys := keys)],
         bookOf := if keys == {} then s.bookOf - {place} else s.bookOf)
  }

  // ---------------------------------------------------------------------------------------------
  // Steps
  // ---------------------------------------------------------------------------------------------

  /** A request is shown to the user, or answered by policy. */
  datatype Treatment = Ask(kind: Kind) | AnswerItself

  /**
   * An arriving request: the route its thread has, the handled keys of the running turn, whether
   * it passes the checks that precede its treatment, and whether announcing it succeeds.
   */
  datatype Arrival = Arrival(
    place: Place,
    native: RequestId,
    treatment: Treatment,
    route: Option<SubagentLinks.Route>,
    turnBook: Option<nat>,
    admissible: bool,
    emits: bool)

  function RegistrationOf(a: Arrival): Registration {
    Registration(a.place.runtime, a.place.thread, a.native, a.route)
  }

  predicate IsHandled(s: Server, a: Arrival) {
    RequestKey(a.native) != "" && RequestKey(a.native) in Handled(s, a.place)
  }

  /** Registers and announces; a failed announcement withdraws the registration and the mark. */
  function Asked(s: Server, a: Arrival, kind: Kind, book: nat): Server {
    var key := RequestKey(a.native);
    var marked := Marked(s, book, key);
    var t := TableOf(s, kind);
    if !IsNew(t, RegistrationOf(a)) then marked
    else
      var added := Added(t, RegistrationOf(a));
      if a.emits then WithTable(marked, kind, added)
      else Unmarked(WithTable(marked, kind, Resolved(added, t.next, Some(a.place.runtime))), book, key)
  }

  function Arrived(s: Server, a: Arrival): Server {
    var s := Attached(s, a.place, a.turnBook);
    if IsHandled(s, a) || !a.admissible then s
    else
      var book := s.bookOf[a.place];
      match a.treatment
      case Ask(kind) => Asked(s, a, kind, book)
      case AnswerItself => Answering(Marked(s, book, RequestKey(a.native)), Answer(a.place, book, RequestKey(a.native)))
  }

  function Answering(s: Server, answer: Answer): Server {
    s.(answers := s.answers + {answer}, busy := s.busy[answer.place.runtime := answer])
  }

  function AnswerEnded(s: Server, answer: Answer, succeeds: bool): Server {
    var runtime := answer.place.runtime;
    var s' := s.(answers := s.answers - {answer},
                 busy := if Lookup(s.busy, runtime) == Some(answer) then s.busy - {runtime} else s.busy);
    if succeeds then s' else Unmarked(s', answer.book, answer.key)
  }

  function ReplyStarted(s: Server, kind: Kind, id: Id, session: Id, runtime: Option<Id>): Server {
    var t := TableOf(s, kind);
    if MayClaim(t, id, session, runtime)
    then WithTable(s, kind, Claimed(t, id, session, runtime)).(
           replies := s.replies + {Reply(kind, RequireForSession(t, id, session, runtime).entry)})
    else s
  }

  function ReplyFailed(s: Server, reply: Reply, releases: bool): Server {
    var s' := s.(replies := s.replies - {reply});
    if releases
    then WithTable(s', reply.kind, Released(TableOf(s, reply.kind), reply.entry.id, Some(reply.entry.runtime)))
    else s'
  }

  /** The reply was delivered: its occurrence is resolved and its native key forgotten. */
  function ReplyCompleted(s: Server, reply: Reply): Server {
    var s' := s.(replies := s.replies - {reply});
    var resolved := WithTable(s', reply.kind,
                              Resolved(TableOf(s, reply.kind), reply.entry.id, Some(reply.entry.runtime)));
    Forgotten(resolved, PlaceOf(reply.entry), RequestKey(reply.entry.native))
  }

  datatype NativeLookup = NotPending | IsAmbiguous | IsPending(kind: Kind, entry: Entry)

  function LookupNative(s: Server, key: NativeKey): NativeLookup {
    var approval, question := NativeEntry(s.approvals, key), NativeEntry(s.questions, key);
    if approval.Some? && question.Some? then IsAmbiguous
    else if approval.Some? then IsPending(Approval, approval.value)
    else if question.Some? then IsPending(Question, question.value)
    else NotPending
  }

  /** The runtime resolved the request itself; announcing that may fail before the key is forgotten. */
  function NativelyResolved(s: Server, place: Place, native: RequestId, emits: bool): Server {
    match LookupNative(s, PlaceKey(place, native))
    case IsPending(kind, entry) =>
      var resolved := WithTable(s, kind, Resolved(TableOf(s, kind), entry.id, Some(entry.runtime)));
      if emits then Forgotten(resolved, PlaceOf(entry), RequestKey(native)) else resolved
    case _ => s
  }

  predicate Concerned(place: Place, session: Id, runtime: Option<Id>) {
    place.thread == session && (runtime.None? || runtime.value == place.runtime)
  }

  function SessionCleared(s: Server, session: Id, runtime: Option<Id>): Server {
    s.(approvals := ClearedSession(s.approvals, session, runtime),
       questions := ClearedSession(s.questions, session, runtime),
       bookOf := map p | p in s.bookOf && !Concerned(p, session, runtime) :: s.bookOf[p])
  }

  /** The runtime has no handled keys any more, and no answer holds up its events. */
  function EventsCleared(s: Server, runtime: Id): Server {
    s.(bookOf := map p | p in s.bookOf && p.runtime != runtime :: s.bookOf[p],
       busy := s.busy - {runtime},
       firstBook := s.firstBook[runtime := |s.books|])
  }

  function RuntimeCleared(s: Server, runtime: Id): Server {
    EventsCleared(s.(approvals := ClearedRuntime(s.approvals, runtime),
                     questions := ClearedRuntime(s.questions, runtime)), runtime)
  }

  function RouteLearned(s: Server, route: SubagentLinks.Route): Server {
    var approvals := Applied(s.approvals, route);
    if approvals.conflict then s.(approvals := approvals.table)
    else s.(approvals := approvals.table, questions := Applied(s.questions, route).table)
  }

  datatype Step =
    | Arrive(arrival: Arrival)
    | EndAnswer(answer: Answer, succeeds: bool)
    | StartReply(kind: Kind, id: Id, session: Id, runtime: Option<Id>)
    | FailReply(failed: Reply, releases: bool)
    | CompleteReply(reply: Reply)
    | ResolveNatively(place: Place, native: RequestId, emits: bool)
    | LearnRoute(route: SubagentLinks.Route)
    | BindActiveTurn(session: Id, turn: Turn)
    | ReleaseSession(session: Id, runtime: Option<Id>)
    | ReleaseRuntime(released: Id)

  /** An event of a busy runtime is not taken yet. */
  function Next(s: Server, step: Step): Server {
    match step
    case Arrive(a) => if a.place.runtime in s.busy then s else Arrived(s, a)
    case EndAnswer(answer, succeeds) => if answer in s.answers then AnswerEnded(s, answer, succeeds) else s
    case StartReply(kind, id, session, runtime) => ReplyStarted(s, kind, id, session, runtime)
    case FailReply(reply, releases) => if reply in s.replies then ReplyFailed(s, reply, releases) else s
    case CompleteReply(reply) => if reply in s.replies then ReplyCompleted(s, reply) else s
    case ResolveNatively(place, native, emits) =>
      if place.runtime in s.busy then s else NativelyResolved(s, place, native, emits)
    case LearnRoute(route) => RouteLearned(s, route)
    case BindActiveTurn(session, turn) =>
      s.(approvals := Bound(s.approvals, session, turn), questions := Bound(s.questions, session, turn))
    case ReleaseSession(session, runtime) => SessionCleared(s, session, runtime)
    case ReleaseRuntime(runtime) => RuntimeCleared(s, runtime)
  }

  function Run(s: Server, steps: seq<Step>): Server
    decreases |steps|
  {
    if steps == [] then s else Run(Next(s, steps[0]), steps[1..])
  }

  // ---------------------------------------------------------------------------------------------
  // The properties
  // ---------------------------------------------------------------------------------------------

  ghost predicate BooksFit(s: Server) {
    && (forall p <- s.bookOf :: s.bookOf[p] < |s.books| && s.books[s.bookOf[p]].place == p)
    && (forall a <- s.answers :: a.book < |s.books|)
  }

  ghost predicate WellFormed(s: Server) {
    Inv(s.approvals) && Inv(s.questions) && BooksFit(s)
  }

  ghost predicate CoveredIn(s: Server, t: Table) {
    forall id <- t.entries ::
      RequestKey(t.entries[id].native) != "" ==> RequestKey(t.entries[id].native) in Handled(s, PlaceOf(t.entries[id]))
  }

  /** The handled keys of every thread contain the key of every request that is pending there. */
  ghost predicate Covered(s: Server) {
    CoveredIn(s, s.approvals) && CoveredIn(s, s.questions)
  }

  /** No native request is both a pending approval and a pending question. */
  ghost predicate Unambiguous(s: Server) {
    forall key: NativeKey :: !LookupNative(s, key).IsAmbiguous?
  }

  /** A request other than the given occurrence is pending under the native key. */
  predicate HasOther(s: Server, kind: Kind, id: Id, key: NativeKey) {
    || (NativeEntry(s.approvals, key).Some? && !(kind == Approval && NativeEntry(s.approvals, key).value.id == id))
    || (NativeEntry(s.questions, key).Some? && !(kind == Question && NativeEntry(s.questions, key).value.id == id))
  }

  /**
   * The step forgets the mark of a request that is still pending: a reply completes after the runtime
   * resolved its request and reused the native id.
   */
  predicate Uncovers(s: Server, step: Step) {
    && step.CompleteReply?
    && step.reply in s.replies
    && RequestKey(step.reply.entry.native) != ""
    && HasOther(s, step.reply.kind, step.reply.entry.id, NativeKeyOf(step.reply.entry))
  }

  predicate IsPendingKey(s: Server, key: NativeKey) {
    key in s.approvals.byNative || key in s.questions.byNative
  }

  /**
   * An answer in flight is the one its runtime waits for, and nothing is pending under its key; or
   * the runtime was released meanwhile, and nothing uses the set that the answer holds.
   */
  predicate AnswerFits(s: Server, answer: Answer) {
    && answer.book < |s.books| && s.books[answer.book].place == answer.place
    && (answer.book < FirstBook(s, answer.place.runtime)
        || (Lookup(s.busy, answer.place.runtime) == Some(answer)
            && (answer.key != "" ==> !IsPendingKey(s, (answer.place.runtime, answer.place.thread, answer.key)))))
  }

  /** Each runtime waits for at most one automatic answer at a time. */
  ghost predicate Serialized(s: Server) {
    && (forall r <- s.busy :: s.busy[r].place.runtime == r)
    && (forall r <- s.firstBook :: s.firstBook[r] <= |s.books|)
    && (forall p <- s.bookOf :: FirstBook(s, p.runtime) <= s.bookOf[p])
    && (forall answer <- s.answers :: AnswerFits(s, answer))
  }

  ghost predicate AlwaysCovered(s: Server, steps: seq<Step>)
    decreases |steps|
  {
    Covered(s) && (steps == [] || AlwaysCovered(Next(s, steps[0]), steps[1..]))
  }

  predicate NeverUncovers(s: Server, steps: seq<Step>)
    decreases |steps|
  {
    steps == [] || (!Uncovers(s, steps[0]) && NeverUncovers(Next(s, steps[0]), steps[1..]))
  }

  predicate HasNativeId(step: Step) {
    step.Arrive? ==> step.arrival.native != Text("")
  }
}
