/**
 * The protocol that admits a user message, a question reply or a continuation: it starts a turn or
 * steers the running one, waits for native answers, and decides what the caller is told and whether
 * the message is published. One step of the machine is the code between two awaits; the steps of
 * all sends, native events, and owner changes interleave freely.
 */
module MessageAdmission {
  import opened Prelude
  import opened MessageEchoes

  datatype Kind = UserMessage | QuestionReply | Continuation

  datatype Delivery = NewTurn | Steer

  datatype Request = Request(thread: Id, text: string, kind: Kind, delivery: Delivery)

  /** Why a request failed: a native error answer, or anything that leaves the result open. */
  datatype Cause = Refusal | Inconclusive

  /** What the caller of a send is told. */
  datatype Outcome =
    | Accepted
    | AcceptedUnowned  // admitted, but the owner was released or replaced
    | Refused
    | Unknown
    | Failed           // ended before, or without, a conclusive native answer

  datatype Pc =
    | Subscribing
    | AwaitingStart(turn: nat)
    | StartKnown(turn: nat, failure: Option<Outcome>)
    | Steering
    | SteerAnswered(cause: Option<Cause>)
    | AwaitingAnswer(turn: nat)
    | Admitted
    | Done(outcome: Outcome)

  datatype Send = Send(request: Request, session: Id, pc: Pc)

  datatype TurnStart = NotSent | Sent | Answered(endedBadly: bool) | Rejected(cause: Cause)

  datatype Turn = Turn(
    thread: Id, session: Id, message: Option<Id>, requested: bool, start: TurnStart, bound: bool, settled: bool)

  datatype Publication = BySend(message: Id) | ByEcho(message: Id, thread: Id, text: string)

  /** The retained session object of each thread, the turns ever registered, and the sends. */
  datatype Machine = Machine(
    sessions: map<Id, Id>,
    nextSession: Id,
    turns: seq<Turn>,
    active: map<Id, nat>,
    echoes: Echoes,
    sends: map<Id, Send>,
    published: seq<Publication>)

  const START := Machine(map[], 0, [], map[], NO_ECHOES, map[], [])

  /** What can go wrong in the synchronous part of a step. */
  datatype Fault = NoFault | ModelMissing | ClientMissing | PolicyMissing | NotCurrent

  datatype TurnStatus = InProgress | Completed | FailedOrInterrupted

  datatype Answer = Ok(status: TurnStatus) | Error(cause: Cause)

  datatype Step =
    | Begin(message: Id, request: Request)
    | Resume(resumed: Id, fault: Fault)
    | TurnAnswered(turn: nat, answer: Answer)
    | SteerAnswer(steered: Id, cause: Option<Cause>)
    | NativeEcho(echoThread: Id, text: string)
    | NativeBind(boundThread: Id)
    | NativeEnd(endedThread: Id)
    | Remember(rememberedThread: Id)
    | Release(releasedThread: Id)

  // ---------------------------------------------------------------------------------------------
  // Sessions and turns
  // ---------------------------------------------------------------------------------------------

  predicate IsRetained(s: Machine, thread: Id, session: Id) {
    Lookup(s.sessions, thread) == Some(session)
  }

  function RunningTurn(s: Machine, thread: Id): Option<nat> {
    if thread in s.active && s.active[thread] < |s.turns| && !s.turns[s.active[thread]].settled
    then Some(s.active[thread]) else None
  }

  function Register(s: Machine, thread: Id, session: Id, message: Option<Id>): Machine {
    s.(turns := s.turns + [Turn(thread, session, message, false, NotSent, false, false)],
       active := s.active[thread := |s.turns|])
  }

  /** Settling removes a turn from the registry only when it is the registered turn. */
  function Settle(s: Machine, turn: nat): Machine
    requires turn < |s.turns|
  {
    var thread := s.turns[turn].thread;
    s.(turns := s.turns[turn := s.turns[turn].(settled := true)],
       active := if Lookup(s.active, thread) == Some(turn) then s.active - {thread} else s.active)
  }

  function WithTurn(s: Machine, turn: nat, value: Turn): Machine
    requires turn < |s.turns|
  {
    s.(turns := s.turns[turn := value])
  }

  // ---------------------------------------------------------------------------------------------
  // Sends
  // ---------------------------------------------------------------------------------------------

  function At(s: Machine, m: Id, pc: Pc): Machine
    requires m in s.sends
  {
    s.(sends := s.sends[m := s.sends[m].(pc := pc)])
  }

  /** For a user message, an echo proves acceptance; for a reply it proves nothing. */
  predicate EchoAccepted(s: Machine, m: Id)
    requires m in s.sends
  {
    s.sends[m].request.kind.UserMessage? && WasEchoed(s.echoes, m)
  }

  /** A failed request whose echo did not prove acceptance throws; an open one leaves its echo to publish. */
  function UnlessEchoAccepted(s: Machine, m: Id, cause: Cause): Machine
    requires m in s.sends
  {
    if EchoAccepted(s, m) then At(s, m, Admitted)
    else if cause.Refusal? || !s.sends[m].request.kind.UserMessage?
    then At(s.(echoes := Cancel(s.echoes, m)), m, Done(if cause.Refusal? then Refused else Failed))
    else At(s.(echoes := PublishWhenEchoed(s.echoes, m)), m, Done(Unknown))
  }

  function StartNewTurn(s: Machine, m: Id, fault: Fault): Machine
    requires m in s.sends
  {
    var send := s.sends[m];
    var turn := |s.turns|;
    if fault.ModelMissing? then At(s, m, Done(Failed))
    else
      var isContinuation := send.request.kind.Continuation?;
      var registered := Register(s, send.request.thread, send.session, if isContinuation then None else Some(m));
      if fault.ClientMissing? then At(registered, m, Done(Failed))
      else if fault.PolicyMissing? then At(Settle(registered, turn), m, Done(Refused))
      else
        var expecting := if isContinuation then registered
                         else registered.(echoes := Expect(s.echoes, m, send.request.thread, send.request.text));
        var requested := WithTurn(expecting, turn, expecting.turns[turn].(requested := true));
        // A stale caller throws here, outside the code that settles: the turn and the echo stay.
        if fault.NotCurrent? then At(requested, m, Done(Failed))
        else At(WithTurn(requested, turn, requested.turns[turn].(start := Sent)), m, AwaitingAnswer(turn))
  }

  function SteerRunningTurn(s: Machine, m: Id, turn: nat): Machine
    requires m in s.sends && turn < |s.turns|
  {
    var request := s.sends[m].request;
    var expecting := s.(echoes := Expect(s.echoes, m, request.thread, request.text));
    At(expecting, m,
       if s.turns[turn].bound then StartKnown(turn, None)
       else if s.turns[turn].start.NotSent? then StartKnown(turn, Some(Failed))
       else AwaitingStart(turn))
  }

  /** The session is subscribed: refuse, steer the running turn, or start a new one. */
  function ResumeSubscribed(s: Machine, m: Id, fault: Fault): Machine
    requires m in s.sends
  {
    var send := s.sends[m];
    var running := RunningTurn(s, send.request.thread);
    if !IsRetained(s, send.request.thread, send.session) then At(s, m, Done(Failed))
    else if running.Some? then
      if send.request.delivery.NewTurn? || send.request.kind.Continuation? then At(s, m, Done(Failed))
      else SteerRunningTurn(s, m, running.value)
    else if send.request.delivery.Steer? && !send.request.kind.Continuation? then At(s, m, Done(Refused))
    else StartNewTurn(s, m, fault)
  }

  /** The start of the turn to steer is known once its own request is answered. */
  function ResumeAwaitingStart(s: Machine, m: Id, turn: nat): Machine
    requires m in s.sends && turn < |s.turns|
  {
    var t := s.turns[turn];
    match t.start
    case Answered(_) =>
      At(s, m, StartKnown(turn, if IsRetained(s, t.thread, t.session) && !t.settled && t.bound then None else Some(Failed)))
    case Rejected(cause) =>
      At(s, m, StartKnown(turn, Some(if cause.Refusal? then Refused else Failed)))
    case _ => s
  }

  function ResumeStartKnown(s: Machine, m: Id, turn: nat, failure: Option<Outcome>, fault: Fault): Machine
    requires m in s.sends && turn < |s.turns|
  {
    if failure.Some? then At(s.(echoes := Cancel(s.echoes, m)), m, Done(failure.value))
    else if !IsRetained(s, s.turns[turn].thread, s.turns[turn].session) then At(s, m, Done(Failed))
    else if !fault.NoFault? then UnlessEchoAccepted(s, m, Inconclusive)
    else At(s, m, Steering)
  }

  function ResumeAnswered(s: Machine, m: Id, turn: nat): Machine
    requires m in s.sends && turn < |s.turns|
  {
    var isContinuation := s.sends[m].request.kind.Continuation?;
    match s.turns[turn].start
    case Answered(endedBadly) =>
      At(s, m, if isContinuation then Done(if endedBadly then Failed else Accepted) else Admitted)
    case Rejected(cause) =>
      if isContinuation then At(s, m, Done(if cause.Refusal? then Refused else Failed))
      else UnlessEchoAccepted(s, m, cause)
    case _ => s
  }

  /** Only a message whose owner is still retained is published. */
  function ResumeAdmitted(s: Machine, m: Id): Machine
    requires m in s.sends
  {
    var send := s.sends[m];
    if !IsRetained(s, send.request.thread, send.session)
    then At(s.(echoes := Cancel(s.echoes, m)), m, Done(AcceptedUnowned))
    else
      var accepted := At(s, m, Done(Accepted));
      if send.request.kind.UserMessage? then accepted.(published := s.published + [BySend(m)]) else accepted
  }

  function Resumed(s: Machine, m: Id, fault: Fault): Machine {
    if m !in s.sends then s
    else
      match s.sends[m].pc
      case Subscribing => ResumeSubscribed(s, m, fault)
      case AwaitingStart(turn) => if turn < |s.turns| then ResumeAwaitingStart(s, m, turn) else s
      case StartKnown(turn, failure) => if turn < |s.turns| then ResumeStartKnown(s, m, turn, failure, fault) else s
      case Steering => s
      case SteerAnswered(cause) => if cause.None? then At(s, m, Admitted) else UnlessEchoAccepted(s, m, cause.value)
      case AwaitingAnswer(turn) => if turn < |s.turns| then ResumeAnswered(s, m, turn) else s
      case Admitted => ResumeAdmitted(s, m)
      case Done(_) => s
  }

  /** A reply joins the running turn if there is one when it begins; other sends choose for themselves. */
  function Begun(s: Machine, m: Id, request: Request): Machine {
    if m in s.sends then s
    else
      var delivery := if request.kind.QuestionReply?
                      then if RunningTurn(s, request.thread).Some? then Steer else NewTurn
                      else request.delivery;
      var known := request.thread in s.sessions;
      s.(sends := s.sends[m := Send(
                            request.(delivery := delivery),
                            if known then s.sessions[request.thread] else 0,
                            if known then Subscribing else Done(Failed))])
  }

  function TurnStarted(s: Machine, turn: nat, answer: Answer): Machine
    requires turn < |s.turns|
  {
    var t := s.turns[turn];
    match answer
    case Ok(status) =>
      var answered := WithTurn(s, turn, t.(start := Answered(status.FailedOrInterrupted?)));
      if !IsRetained(s, t.thread, t.session) then Settle(answered, turn)
      else
        var bound := WithTurn(answered, turn, answered.turns[turn].(bound := true));
        if status.InProgress? then bound else Settle(bound, turn)
    case Error(cause) =>
      var rejected := WithTurn(s, turn, t.(start := Rejected(cause)));
      var accepted := t.message.Some? && t.message.value in s.sends && EchoAccepted(s, t.message.value);
      if cause.Refusal? && !accepted then Settle(rejected, turn) else rejected
  }

  function Echoed(s: Machine, thread: Id, text: string): Machine {
    var m := Matching(s.echoes, thread, text);
    var consumed := s.(echoes := Consume(s.echoes, thread, text));
    if m.Some? && m.value in s.echoes.records && s.echoes.records[m.value].publishes
    then consumed.(published := s.published + [ByEcho(m.value, thread, text)])
    else consumed
  }

  function Next(s: Machine, step: Step): Machine {
    match step
    case Begin(m, request) => Begun(s, m, request)
    case Resume(m, fault) => Resumed(s, m, fault)
    case TurnAnswered(turn, answer) =>
      if turn < |s.turns| && s.turns[turn].start.Sent? then TurnStarted(s, turn, answer) else s
    case SteerAnswer(m, cause) =>
      if m in s.sends && s.sends[m].pc.Steering? then At(s, m, SteerAnswered(cause)) else s
    case NativeEcho(thread, text) => Echoed(s, thread, text)
    case NativeBind(thread) =>
      var running := RunningTurn(s, thread);
      if running.Some? && s.turns[running.value].requested
      then WithTurn(s, running.value, s.turns[running.value].(bound := true)) else s
    case NativeEnd(thread) =>
      if RunningTurn(s, thread).Some? then Settle(s, RunningTurn(s, thread).value) else s
    case Remember(thread) =>
      s.(sessions := s.sessions[thread := s.nextSession], nextSession := s.nextSession + 1)
    case Release(thread) =>
      s.(sessions := s.sessions - {thread}, active := s.active - {thread}, echoes := Clear(s.echoes, thread))
  }

  function Run(s: Machine, steps: seq<Step>): Machine
    decreases |steps|
  {
    if steps == [] then s else Run(Next(s, steps[0]), steps[1..])
  }

  // ---------------------------------------------------------------------------------------------
  // The invariant
  // ---------------------------------------------------------------------------------------------

  function Count(published: seq<Publication>, m: Id): nat {
    if published == [] then 0
    else (if published[0].message == m then 1 else 0) + Count(published[1..], m)
  }

  /** How often a message must have been published, from what its caller was told. */
  function Due(s: Machine, m: Id): nat {
    if m !in s.sends then 0
    else
      match s.sends[m].pc
      case Done(Accepted) => if s.sends[m].request.kind.UserMessage? then 1 else 0
      case Done(Unknown) => if WasEchoed(s.echoes, m) then 1 else 0
      case _ => 0
  }

  ghost predicate SendIsConsistent(s: Machine, m: Id)
    requires m in s.sends
  {
    var send := s.sends[m];
    && (send.pc.Subscribing? ==> m !in s.echoes.records)
    && (m in s.echoes.records ==>
          && s.echoes.records[m].thread == send.request.thread
          && s.echoes.records[m].text == send.request.text
          && (s.echoes.records[m].publishes <==> send.pc == Done(Unknown)))
    && (send.pc == Done(Unknown) ==> m in s.echoes.records && send.request.kind.UserMessage?)
    && (send.pc.StartKnown? && send.pc.failure.Some? ==> send.pc.failure.value in {Refused, Failed})
    && (match send.pc
        case AwaitingStart(turn) => m in s.echoes.records && turn < |s.turns|
        case StartKnown(turn, _) => m in s.echoes.records && turn < |s.turns|
        case AwaitingAnswer(turn) =>
          turn < |s.turns| && (send.request.kind.Continuation? || m in s.echoes.records)
        case Steering => m in s.echoes.records
        case SteerAnswered(_) => m in s.echoes.records
        case _ => true)
  }

  ghost predicate TurnsAreRegistered(s: Machine) {
    forall thread <- s.active ::
      && s.active[thread] < |s.turns|
      && s.turns[s.active[thread]].thread == thread
      && !s.turns[s.active[thread]].settled
  }

  ghost predicate PublicationFits(s: Machine, p: Publication) {
    && p.message in s.sends
    && match p
       case BySend(m) => s.sends[m].pc == Done(Accepted)
       case ByEcho(m, thread, text) =>
         s.sends[m].pc == Done(Unknown) && thread == s.sends[m].request.thread && text == s.sends[m].request.text
  }

  ghost predicate Inv(s: Machine) {
    && Waiting(s.echoes)
    && s.echoes.records.Keys <= s.sends.Keys
    && (forall m <- s.sends :: SendIsConsistent(s, m))
    && (forall m: Id :: Count(s.published, m) == Due(s, m))
    && (forall p <- s.published :: PublicationFits(s, p))
    && TurnsAreRegistered(s)
  }

  lemma CountOfAppended(published: seq<Publication>, p: Publication, m: Id)
    ensures Count(published + [p], m) == Count(published, m) + (if p.message == m then 1 else 0)
  {
    if published != [] {
      assert (published + [p])[1..] == published[1..] + [p];
      CountOfAppended(published[1..], p, m);
    }
  }
}
