/** What every interleaving of the admission protocol keeps. */
module MessageAdmissionProofs {
  import opened Prelude
  import opened MessageEchoes
  import opened MessageAdmission

  /** The state after the send of `m` moved, with the echoes and turns it moved to. */
  function Moved(s: Machine, m: Id, pc: Pc, echoes: Echoes, turns: seq<Turn>, active: map<Id, nat>): Machine
    requires m in s.sends
  {
    At(s.(echoes := echoes, turns := turns, active := active), m, pc)
  }

  ghost predicate OnlyEchoOf(m: Id, before: Echoes, after: Echoes) {
    after.records == before.records
    || (m in after.records && after.records == before.records[m := after.records[m]])
  }

  lemma OneSend(s: Machine, m: Id)
    requires Inv(s) && m in s.sends
    ensures SendIsConsistent(s, m) && Waiting(s.echoes) && TurnsAreRegistered(s)
  {
  }

  /** A send that moves without publishing keeps the invariant if it is consistent where it arrives. */
  lemma MovingKeepsInv(s: Machine, m: Id, pc: Pc, echoes: Echoes, turns: seq<Turn>, active: map<Id, nat>)
    requires Inv(s) && m in s.sends && !s.sends[m].pc.Done?
    requires Waiting(echoes) && OnlyEchoOf(m, s.echoes, echoes) && |s.turns| <= |turns|
    requires TurnsAreRegistered(s.(turns := turns, active := active))
    requires SendIsConsistent(Moved(s, m, pc, echoes, turns, active), m)
    requires Due(Moved(s, m, pc, echoes, turns, active), m) == 0
    ensures Inv(Moved(s, m, pc, echoes, turns, active))
  {
    var after := Moved(s, m, pc, echoes, turns, active);
    hide Waiting;
    forall k <- after.sends ensures SendIsConsistent(after, k) {
      if k != m {
        assert SendIsConsistent(s, k);
      }
    }
    forall k: Id ensures Count(after.published, k) == Due(after, k) {
      assert Count(s.published, k) == Due(s, k);
    }
    forall p <- after.published ensures PublicationFits(after, p) {
      assert PublicationFits(s, p);
    }
  }

  /** The same for a move that leaves the echoes and turns alone. */
  lemma PlainMoveKeepsInv(s: Machine, m: Id, pc: Pc)
    requires Inv(s) && m in s.sends && !s.sends[m].pc.Done?
    requires SendIsConsistent(At(s, m, pc), m) && Due(At(s, m, pc), m) == 0
    ensures Inv(At(s, m, pc))
  {
    OneSend(s, m);
    hide Inv, Waiting;
    assert At(s, m, pc) == Moved(s, m, pc, s.echoes, s.turns, s.active);
    MovingKeepsInv(s, m, pc, s.echoes, s.turns, s.active);
  }

  lemma CancelledMoveKeepsInv(s: Machine, m: Id, outcome: Outcome)
    requires Inv(s) && m in s.sends && !s.sends[m].pc.Done?
    requires outcome in {Refused, Failed, AcceptedUnowned}
    ensures Inv(At(s.(echoes := Cancel(s.echoes, m)), m, Done(outcome)))
  {
    OneSend(s, m);
    CancelKeepsWaiting(s.echoes, m);
    hide Inv, Waiting, Cancel;
    var echoes := Cancel(s.echoes, m);
    assert SendIsConsistent(Moved(s, m, Done(outcome), echoes, s.turns, s.active), m);
    MovingKeepsInv(s, m, Done(outcome), echoes, s.turns, s.active);
  }

  lemma UnlessAcceptedKeepsInv(s: Machine, m: Id, cause: Cause)
    requires Inv(s) && m in s.sends && !s.sends[m].pc.Done? && m in s.echoes.records
    ensures Inv(UnlessEchoAccepted(s, m, cause))
  {
    OneSend(s, m);
    PublishKeepsWaiting(s.echoes, m);
    hide Inv, Waiting, Cancel;
    if EchoAccepted(s, m) {
      PlainMoveKeepsInv(s, m, Admitted);
    } else if cause.Refusal? || !s.sends[m].request.kind.UserMessage? {
      CancelledMoveKeepsInv(s, m, if cause.Refusal? then Refused else Failed);
    } else {
      MovingKeepsInv(s, m, Done(Unknown), PublishWhenEchoed(s.echoes, m), s.turns, s.active);
    }
  }

  /** A newly registered turn takes the place of no running turn. */
  lemma RegisteringKeepsTurns(s: Machine, turn: Turn)
    requires TurnsAreRegistered(s) && !turn.settled
    ensures TurnsAreRegistered(s.(turns := s.turns + [turn], active := s.active[turn.thread := |s.turns|]))
  {
  }

  /** The turn a new send leaves registered, whatever goes wrong in its synchronous part. */
  function NewTurnOf(s: Machine, m: Id, fault: Fault): Turn
    requires m in s.sends
  {
    var send := s.sends[m];
    var message := if send.request.kind.Continuation? then None else Some(m);
    var reached := fault.NotCurrent? || fault.NoFault?;
    Turn(send.request.thread, send.session, message, reached, if fault.NoFault? then Sent else NotSent, false,
         fault.PolicyMissing?)
  }

  function NewEchoesOf(s: Machine, m: Id, fault: Fault): Echoes
    requires m in s.sends
  {
    var request := s.sends[m].request;
    if request.kind.Continuation? || !(fault.NotCurrent? || fault.NoFault?) then s.echoes
    else Expect(s.echoes, m, request.thread, request.text)
  }

  function NewPcOf(s: Machine, fault: Fault): Pc {
    if fault.NoFault? then AwaitingAnswer(|s.turns|) else Done(if fault.PolicyMissing? then Refused else Failed)
  }

  function NewActiveOf(s: Machine, m: Id, fault: Fault): map<Id, nat>
    requires m in s.sends
  {
    var thread := s.sends[m].request.thread;
    if fault.PolicyMissing? then s.active - {thread} else s.active[thread := |s.turns|]
  }

  lemma StartNewTurnMoves(s: Machine, m: Id, fault: Fault)
    requires m in s.sends && !fault.ModelMissing?
    ensures StartNewTurn(s, m, fault)
            == Moved(s, m, NewPcOf(s, fault), NewEchoesOf(s, m, fault),
                     s.turns + [NewTurnOf(s, m, fault)], NewActiveOf(s, m, fault))
  {
    var after := StartNewTurn(s, m, fault);
    assert after.active == NewActiveOf(s, m, fault);
    assert after.turns == s.turns + [NewTurnOf(s, m, fault)];
  }

  lemma NewTurnIsRegistered(s: Machine, m: Id, fault: Fault)
    requires m in s.sends && TurnsAreRegistered(s)
    ensures TurnsAreRegistered(s.(turns := s.turns + [NewTurnOf(s, m, fault)], active := NewActiveOf(s, m, fault)))
  {
    if !fault.PolicyMissing? {
      RegisteringKeepsTurns(s, NewTurnOf(s, m, fault));
    }
  }

  lemma NewTurnIsConsistent(s: Machine, m: Id, fault: Fault, turns: seq<Turn>, active: map<Id, nat>)
    requires m in s.sends && s.sends[m].pc.Subscribing?
    requires SendIsConsistent(s, m) && Waiting(s.echoes) && |s.turns| < |turns|
    ensures var after := Moved(s, m, NewPcOf(s, fault), NewEchoesOf(s, m, fault), turns, active);
            && Waiting(NewEchoesOf(s, m, fault)) && OnlyEchoOf(m, s.echoes, NewEchoesOf(s, m, fault))
            && SendIsConsistent(after, m)
            && Due(after, m) == 0
  {
    hide Waiting, Expect;
    var request := s.sends[m].request;
    ExpectKeepsWaiting(s.echoes, m, request.thread, request.text);
  }

  lemma StartNewTurnKeepsInv(s: Machine, m: Id, fault: Fault)
    requires Inv(s) && m in s.sends && s.sends[m].pc.Subscribing?
    ensures Inv(StartNewTurn(s, m, fault))
  {
    OneSend(s, m);
    hide *;
    if fault.ModelMissing? {
      FailedStart(s, m);
      PlainMoveKeepsInv(s, m, Done(Failed));
    } else {
      StartNewTurnMoves(s, m, fault);
      var turns, active := s.turns + [NewTurnOf(s, m, fault)], NewActiveOf(s, m, fault);
      NewTurnIsRegistered(s, m, fault);
      NewTurnIsConsistent(s, m, fault, turns, active);
      MovingKeepsInv(s, m, NewPcOf(s, fault), NewEchoesOf(s, m, fault), turns, active);
    }
  }

  lemma FailedStart(s: Machine, m: Id)
    requires m in s.sends && s.sends[m].pc.Subscribing? && SendIsConsistent(s, m)
    ensures StartNewTurn(s, m, ModelMissing) == At(s, m, Done(Failed))
    ensures SendIsConsistent(At(s, m, Done(Failed)), m) && Due(At(s, m, Done(Failed)), m) == 0
  {
  }

  lemma SteerRunningTurnKeepsInv(s: Machine, m: Id, turn: nat)
    requires Inv(s) && m in s.sends && s.sends[m].pc.Subscribing? && turn < |s.turns|
    ensures Inv(SteerRunningTurn(s, m, turn))
  {
    OneSend(s, m);
    var request := s.sends[m].request;
    ExpectKeepsWaiting(s.echoes, m, request.thread, request.text);
    hide Inv, Waiting, Expect;
    MovingKeepsInv(s, m, SteerRunningTurn(s, m, turn).sends[m].pc,
                   Expect(s.echoes, m, request.thread, request.text), s.turns, s.active);
  }

  lemma SubscribedKeepsInv(s: Machine, m: Id, fault: Fault)
    requires Inv(s) && m in s.sends && s.sends[m].pc.Subscribing?
    ensures Inv(ResumeSubscribed(s, m, fault))
  {
    hide Inv, Waiting, StartNewTurn, SteerRunningTurn;
    OneSend(s, m);
    var running := RunningTurn(s, s.sends[m].request.thread);
    PlainMoveKeepsInv(s, m, Done(Failed));
    PlainMoveKeepsInv(s, m, Done(Refused));
    StartNewTurnKeepsInv(s, m, fault);
    if running.Some? {
      SteerRunningTurnKeepsInv(s, m, running.value);
    }
  }

  lemma AcceptedKeepsInv(s: Machine, m: Id)
    requires Inv(s) && m in s.sends && s.sends[m].pc.Admitted?
    ensures var accepted := At(s, m, Done(Accepted));
            Inv(if s.sends[m].request.kind.UserMessage?
                then accepted.(published := s.published + [BySend(m)]) else accepted)
  {
    OneSend(s, m);
    if s.sends[m].request.kind.UserMessage? {
      var after := At(s, m, Done(Accepted)).(published := s.published + [BySend(m)]);
      hide Waiting;
      forall k <- after.sends ensures SendIsConsistent(after, k) {
        assert SendIsConsistent(s, k);
      }
      forall k: Id ensures Count(after.published, k) == Due(after, k) {
        assert Count(s.published, k) == Due(s, k);
        CountOfAppended(s.published, BySend(m), k);
      }
      forall p <- after.published ensures PublicationFits(after, p) {
        if p in s.published {
          assert PublicationFits(s, p);
        }
      }
    } else {
      PlainMoveKeepsInv(s, m, Done(Accepted));
    }
  }

  lemma AdmittedKeepsInv(s: Machine, m: Id)
    requires Inv(s) && m in s.sends && s.sends[m].pc.Admitted?
    ensures Inv(ResumeAdmitted(s, m))
  {
    OneSend(s, m);
    AcceptedKeepsInv(s, m);
    CancelledMoveKeepsInv(s, m, AcceptedUnowned);
    hide Inv;
  }

  lemma AwaitingStartKeepsInv(s: Machine, m: Id, turn: nat)
    requires Inv(s) && m in s.sends && s.sends[m].pc == AwaitingStart(turn) && turn < |s.turns|
    ensures Inv(ResumeAwaitingStart(s, m, turn))
  {
    OneSend(s, m);
    hide Inv;
    if s.turns[turn].start.Answered? || s.turns[turn].start.Rejected? {
      PlainMoveKeepsInv(s, m, ResumeAwaitingStart(s, m, turn).sends[m].pc);
    }
  }

  lemma StartKnownKeepsInv(s: Machine, m: Id, turn: nat, failure: Option<Outcome>, fault: Fault)
    requires Inv(s) && m in s.sends && s.sends[m].pc == StartKnown(turn, failure) && turn < |s.turns|
    ensures Inv(ResumeStartKnown(s, m, turn, failure, fault))
  {
    OneSend(s, m);
    hide Inv, Waiting, TurnsAreRegistered, UnlessEchoAccepted, Cancel;
    if failure.Some? {
      CancelledMoveKeepsInv(s, m, failure.value);
    } else if !IsRetained(s, s.turns[turn].thread, s.turns[turn].session) {
      PlainMoveKeepsInv(s, m, Done(Failed));
    } else if !fault.NoFault? {
      UnlessAcceptedKeepsInv(s, m, Inconclusive);
    } else {
      PlainMoveKeepsInv(s, m, Steering);
    }
  }

  /** The answer of a continuation is final; no echo is involved. */
  lemma ContinuationAnsweredKeepsInv(s: Machine, m: Id, turn: nat, outcome: Outcome)
    requires Inv(s) && m in s.sends && s.sends[m].pc == AwaitingAnswer(turn) && s.sends[m].request.kind.Continuation?
    requires outcome in {Accepted, Refused, Failed}
    ensures Inv(At(s, m, Done(outcome)))
  {
    OneSend(s, m);
    hide Inv, Waiting, TurnsAreRegistered;
    PlainMoveKeepsInv(s, m, Done(outcome));
  }

  lemma AdmittingKeepsInv(s: Machine, m: Id)
    requires Inv(s) && m in s.sends && (s.sends[m].pc.AwaitingAnswer? || s.sends[m].pc.SteerAnswered?)
    ensures Inv(At(s, m, Admitted))
  {
    OneSend(s, m);
    hide Inv, Waiting, TurnsAreRegistered;
    PlainMoveKeepsInv(s, m, Admitted);
  }

  lemma AwaitingAnswerExpectsEcho(s: Machine, m: Id, turn: nat)
    requires Inv(s) && m in s.sends && s.sends[m].pc == AwaitingAnswer(turn)
    ensures s.sends[m].request.kind.Continuation? || m in s.echoes.records
  {
    OneSend(s, m);
  }

  lemma AnsweredKeepsInv(s: Machine, m: Id, turn: nat)
    requires Inv(s) && m in s.sends && s.sends[m].pc == AwaitingAnswer(turn) && turn < |s.turns|
    ensures Inv(ResumeAnswered(s, m, turn))
  {
    AwaitingAnswerExpectsEcho(s, m, turn);
    hide Inv, UnlessEchoAccepted;
    if s.sends[m].request.kind.Continuation? {
      ContinuationAnsweredKeepsInv(s, m, turn, Accepted);
      ContinuationAnsweredKeepsInv(s, m, turn, Refused);
      ContinuationAnsweredKeepsInv(s, m, turn, Failed);
    } else {
      AdmittingKeepsInv(s, m);
      if s.turns[turn].start.Rejected? {
        UnlessAcceptedKeepsInv(s, m, s.turns[turn].start.cause);
      }
    }
  }

  lemma ResumeKeepsInv(s: Machine, m: Id, fault: Fault)
    requires Inv(s)
    ensures Inv(Resumed(s, m, fault))
  {
    if m in s.sends {
      OneSend(s, m);
      hide Inv, Waiting, ResumeSubscribed, ResumeAwaitingStart, ResumeStartKnown, ResumeAnswered, ResumeAdmitted,
      UnlessEchoAccepted;
      match s.sends[m].pc
      case Subscribing => SubscribedKeepsInv(s, m, fault);
      case AwaitingStart(turn) => AwaitingStartKeepsInv(s, m, turn);
      case StartKnown(turn, failure) => StartKnownKeepsInv(s, m, turn, failure, fault);
      case Steering =>
      case SteerAnswered(cause) =>
        AdmittingKeepsInv(s, m);
        if cause.Some? {
          UnlessAcceptedKeepsInv(s, m, cause.value);
        }
      case AwaitingAnswer(turn) => AnsweredKeepsInv(s, m, turn);
      case Admitted => AdmittedKeepsInv(s, m);
      case Done(_) =>
    }
  }

  lemma BeginKeepsInv(s: Machine, m: Id, request: Request)
    requires Inv(s)
    ensures Inv(Begun(s, m, request))
  {
    if m !in s.sends {
      var after := Begun(s, m, request);
      forall k <- after.sends ensures SendIsConsistent(after, k) {
        if k != m {
          assert SendIsConsistent(s, k);
        }
      }
      forall k: Id ensures Count(after.published, k) == Due(after, k) {
        assert Count(s.published, k) == Due(s, k);
      }
      forall p <- after.published ensures PublicationFits(after, p) {
        assert PublicationFits(s, p);
      }
    }
  }

  /** The echo of `m` arrives, and publishes the message if its send was left open. */
  lemma EchoOfMessageKeepsInv(s: Machine, echoes: Echoes, m: Id, thread: Id, text: string)
    requires Inv(s) && Waiting(echoes)
    requires m in s.echoes.records && !s.echoes.records[m].echoed
    requires s.echoes.records[m].thread == thread && s.echoes.records[m].text == text
    requires echoes.records == s.echoes.records[m := s.echoes.records[m].(echoed := true)]
    ensures var consumed := s.(echoes := echoes);
            Inv(if s.echoes.records[m].publishes
                then consumed.(published := s.published + [ByEcho(m, thread, text)]) else consumed)
  {
    var consumed := s.(echoes := echoes);
    var after := if s.echoes.records[m].publishes
    then consumed.(published := s.published + [ByEcho(m, thread, text)]) else consumed;
    OneSend(s, m);
    hide Waiting;
    forall k <- after.sends ensures SendIsConsistent(after, k) {
      assert SendIsConsistent(s, k);
    }
    forall k: Id ensures Count(after.published, k) == Due(after, k) {
      assert Count(s.published, k) == Due(s, k);
      CountOfAppended(s.published, ByEcho(m, thread, text), k);
    }
    forall p <- after.published ensures PublicationFits(after, p) {
      if p in s.published {
        assert PublicationFits(s, p);
      }
    }
  }

  lemma EchoKeepsInv(s: Machine, thread: Id, text: string)
    requires Inv(s)
    ensures Inv(Echoed(s, thread, text))
  {
    assert Waiting(s.echoes);
    ConsumeKeepsWaiting(s.echoes, thread, text);
    var m := Matching(s.echoes, thread, text);
    hide Inv, Waiting, Consume, Matching;
    if m.Some? {
      EchoOfMessageKeepsInv(s, Consume(s.echoes, thread, text), m.value, thread, text);
    } else {
      NoEchoKeepsInv(s, Consume(s.echoes, thread, text));
    }
  }

  lemma NoEchoKeepsInv(s: Machine, echoes: Echoes)
    requires Inv(s) && Waiting(echoes) && echoes.records == s.echoes.records
    ensures Inv(s.(echoes := echoes))
  {
    hide Waiting;
    OwnerStepKeepsInv(s, s.(echoes := echoes));
  }

  /** Steps that touch no send, no echo record, and publish nothing. */
  lemma OwnerStepKeepsInv(s: Machine, after: Machine)
    requires Inv(s)
    requires after.sends == s.sends && after.published == s.published
    requires after.echoes.records == s.echoes.records && Waiting(after.echoes)
    requires |s.turns| <= |after.turns| && TurnsAreRegistered(after)
    ensures Inv(after)
  {
    forall k <- after.sends ensures SendIsConsistent(after, k) {
      assert SendIsConsistent(s, k);
    }
    forall k: Id ensures Count(after.published, k) == Due(after, k) {
      assert Count(s.published, k) == Due(s, k);
    }
    forall p <- after.published ensures PublicationFits(after, p) {
      assert PublicationFits(s, p);
    }
  }

  /** Replacing a turn by one of the same thread, settled or not as before, keeps the registry. */
  lemma WithTurnKeepsTurns(s: Machine, turn: nat, value: Turn)
    requires TurnsAreRegistered(s) && turn < |s.turns|
    requires value.thread == s.turns[turn].thread && value.settled == s.turns[turn].settled
    ensures TurnsAreRegistered(WithTurn(s, turn, value))
  {
  }

  lemma SettlingKeepsTurns(s: Machine, turn: nat)
    requires TurnsAreRegistered(s) && turn < |s.turns|
    ensures TurnsAreRegistered(Settle(s, turn))
  {
  }

  lemma TurnAnswerKeepsInv(s: Machine, turn: nat, answer: Answer)
    requires Inv(s) && turn < |s.turns|
    ensures Inv(TurnStarted(s, turn, answer))
  {
    var t := s.turns[turn];
    assert Waiting(s.echoes) && TurnsAreRegistered(s);
    hide Inv, Waiting, TurnsAreRegistered;
    match answer
    case Ok(status) =>
      var started := t.(start := Answered(status.FailedOrInterrupted?));
      var answered := WithTurn(s, turn, started);
      var bound := WithTurn(answered, turn, started.(bound := true));
      WithTurnKeepsTurns(s, turn, started);
      WithTurnKeepsTurns(answered, turn, started.(bound := true));
      SettlingKeepsTurns(answered, turn);
      SettlingKeepsTurns(bound, turn);
      OwnerStepKeepsInv(s, TurnStarted(s, turn, answer));
    case Error(cause) =>
      var rejected := WithTurn(s, turn, t.(start := Rejected(cause)));
      WithTurnKeepsTurns(s, turn, t.(start := Rejected(cause)));
      SettlingKeepsTurns(rejected, turn);
      OwnerStepKeepsInv(s, TurnStarted(s, turn, answer));
  }

  lemma StepKeepsInv(s: Machine, step: Step)
    requires Inv(s)
    ensures Inv(Next(s, step))
  {
    match step
    case Begin(m, request) => BeginKeepsInv(s, m, request);
    case Resume(m, fault) => ResumeKeepsInv(s, m, fault);
    case TurnAnswered(turn, answer) =>
      if turn < |s.turns| {
        TurnAnswerKeepsInv(s, turn, answer);
      }
    case SteerAnswer(m, cause) =>
      if m in s.sends && s.sends[m].pc.Steering? {
        OneSend(s, m);
        PlainMoveKeepsInv(s, m, SteerAnswered(cause));
      }
    case NativeEcho(thread, text) => EchoKeepsInv(s, thread, text);
    case Release(thread) =>
      assert Waiting(Clear(s.echoes, thread));
      OwnerStepKeepsInv(s, Next(s, step));
    case _ => OwnerStepKeepsInv(s, Next(s, step));
  }

  lemma {:induction false} RunKeepsInv(s: Machine, steps: seq<Step>)
    requires Inv(s)
    ensures Inv(Run(s, steps))
    decreases |steps|
  {
    if steps == [] {
    } else {
      StepKeepsInv(s, steps[0]);
      RunKeepsInv(Next(s, steps[0]), steps[1..]);
    }
  }

  // ---------------------------------------------------------------------------------------------
  // What callers and transcripts see
  // ---------------------------------------------------------------------------------------------

  lemma {:induction false} CountedIsPublished(published: seq<Publication>, m: Id)
    requires Count(published, m) > 0
    ensures exists p :: p in published && p.message == m
  {
    if published[0].message == m {
      assert published[0] in published;
    } else {
      CountedIsPublished(published[1..], m);
      var p :| p in published[1..] && p.message == m;
      assert p in published;
    }
  }

  /**
   * In every interleaving: each message is published at most once; one reported accepted with its
   * owner retained exactly once, by its send; one reported refused, failed or unowned never; one
   * reported unknown only by an echo of its own text in its own thread; a reply or a continuation never.
   */
  lemma OutcomeDecidesPublication(steps: seq<Step>, m: Id)
    ensures var s := Run(START, steps);
            && Count(s.published, m) <= 1
            && (m !in s.sends ==> Count(s.published, m) == 0)
            && (m in s.sends ==>
                  var send := s.sends[m];
                  && (!send.request.kind.UserMessage? || !send.pc.Done? ==> Count(s.published, m) == 0)
                  && (send.pc == Done(Accepted) && send.request.kind.UserMessage? ==>
                        Count(s.published, m) == 1 && BySend(m) in s.published)
                  && (send.pc in {Done(Refused), Done(Failed), Done(AcceptedUnowned)} ==> Count(s.published, m) == 0)
                  && (send.pc == Done(Unknown) && Count(s.published, m) > 0 ==>
                        ByEcho(m, send.request.thread, send.request.text) in s.published))
  {
    RunKeepsInv(START, steps);
    var s := Run(START, steps);
    hide Run;
    assert Count(s.published, m) == Due(s, m);
    if m in s.sends {
      assert SendIsConsistent(s, m);
      if Count(s.published, m) > 0 {
        CountedIsPublished(s.published, m);
        var p :| p in s.published && p.message == m;
        assert PublicationFits(s, p);
      }
    }
  }

  /** What a caller was told is never taken back, and nothing published is withdrawn. */
  lemma OutcomeIsFinal(s: Machine, step: Step, m: Id)
    requires m in s.sends && s.sends[m].pc.Done?
    ensures m in Next(s, step).sends && Next(s, step).sends[m] == s.sends[m]
    ensures s.published <= Next(s, step).published
  {
    hide Cancel, Expect, Consume, Matching, Resumed, TurnStarted, Settle;
    match step
    case Resume(k, fault) => ResumingKeepsDone(s, k, fault, m);
    case TurnAnswered(turn, answer) =>
      if turn < |s.turns| {
        AnsweringKeepsSends(s, turn, answer);
      }
    case NativeEnd(thread) =>
      if RunningTurn(s, thread).Some? {
        SettlingKeepsSends(s, RunningTurn(s, thread).value);
      }
    case _ =>
  }

  /** A resumed send changes no other send. */
  lemma ResumingKeepsDone(s: Machine, k: Id, fault: Fault, m: Id)
    requires m in s.sends && s.sends[m].pc.Done?
    ensures m in Resumed(s, k, fault).sends && Resumed(s, k, fault).sends[m] == s.sends[m]
    ensures s.published <= Resumed(s, k, fault).published
  {
    hide Cancel, Expect, ResumeSubscribed, UnlessEchoAccepted;
    if k in s.sends && k != m {
      SubscribedKeepsOthers(s, k, fault, m);
      forall cause
        ensures var after := UnlessEchoAccepted(s, k, cause);
                m in after.sends && after.sends[m] == s.sends[m] && after.published == s.published
      {
        UnlessAcceptedKeepsOthers(s, k, cause, m);
      }
    }
  }

  lemma UnlessAcceptedKeepsOthers(s: Machine, k: Id, cause: Cause, m: Id)
    requires m in s.sends && k in s.sends && k != m
    ensures m in UnlessEchoAccepted(s, k, cause).sends && UnlessEchoAccepted(s, k, cause).sends[m] == s.sends[m]
    ensures UnlessEchoAccepted(s, k, cause).published == s.published
  {
    hide Cancel;
  }

  lemma SubscribedKeepsOthers(s: Machine, k: Id, fault: Fault, m: Id)
    requires m in s.sends && k in s.sends && k != m
    ensures m in ResumeSubscribed(s, k, fault).sends && ResumeSubscribed(s, k, fault).sends[m] == s.sends[m]
    ensures ResumeSubscribed(s, k, fault).published == s.published
  {
    hide Expect;
  }

  lemma AnsweringKeepsSends(s: Machine, turn: nat, answer: Answer)
    requires turn < |s.turns|
    ensures TurnStarted(s, turn, answer).sends == s.sends && TurnStarted(s, turn, answer).published == s.published
  {
  }

  lemma SettlingKeepsSends(s: Machine, turn: nat)
    requires turn < |s.turns|
    ensures Settle(s, turn).sends == s.sends && Settle(s, turn).published == s.published
  {
  }

  /**
   * A message is published in exactly two kinds of step: when its admitted send resumes with its
   * owner retained, or when its echo arrives after it was reported unknown.
   */
  lemma PublishedOnlyBySendOrLaterEcho(s: Machine, step: Step, m: Id)
    requires Inv(s) && Count(Next(s, step).published, m) > Count(s.published, m)
    ensures m in s.sends
    ensures var send := s.sends[m];
            || (step.Resume? && step.resumed == m && send.pc.Admitted?
                && IsRetained(s, send.request.thread, send.session))
            || (step == NativeEcho(send.request.thread, send.request.text) && send.pc == Done(Unknown))
  {
    if step.NativeEcho? {
      EchoPublishesUnknown(s, step.echoThread, step.text, m);
    } else {
      hide Inv, Cancel, Expect, ResumeSubscribed, UnlessEchoAccepted, TurnStarted, Settle;
      assert Next(s, step).published != s.published;
      if step.Resume? && step.resumed in s.sends {
        ResumingPublishesItself(s, step.resumed, step.fault);
        CountOfAppended(s.published, BySend(step.resumed), m);
      }
    }
  }

  lemma EchoPublishesUnknown(s: Machine, thread: Id, text: string, m: Id)
    requires Inv(s) && Count(Echoed(s, thread, text).published, m) > Count(s.published, m)
    ensures m in s.sends && s.sends[m].pc == Done(Unknown)
    ensures s.sends[m].request.thread == thread && s.sends[m].request.text == text
  {
    ConsumeKeepsWaiting(s.echoes, thread, text);
    var k := Matching(s.echoes, thread, text);
    hide Waiting, Matching, Consume;
    if k.Some? {
      assert k.value in s.sends && SendIsConsistent(s, k.value);
      CountOfAppended(s.published, ByEcho(k.value, thread, text), m);
    }
  }

  lemma ResumingPublishesItself(s: Machine, k: Id, fault: Fault)
    requires k in s.sends && Resumed(s, k, fault).published != s.published
    ensures Resumed(s, k, fault).published == s.published + [BySend(k)]
    ensures s.sends[k].pc.Admitted? && IsRetained(s, s.sends[k].request.thread, s.sends[k].session)
  {
    hide Cancel, Expect;
  }

  /** The first waiting echo of a message reported unknown publishes it. */
  lemma MatchingEchoPublishesUnknown(s: Machine, m: Id)
    requires Inv(s) && m in s.sends && s.sends[m].pc == Done(Unknown)
    requires var request := s.sends[m].request; Matching(s.echoes, request.thread, request.text) == Some(m)
    ensures var request := s.sends[m].request;
            Count(s.published, m) == 0
            && Count(Next(s, NativeEcho(request.thread, request.text)).published, m) == 1
  {
    var request := s.sends[m].request;
    hide Inv, Matching, Count, Echoed, Next;
    StepOfEcho(s, request.thread, request.text);
    WaitingUnknownIsUnpublished(s, m);
    WaitedEchoIsPublished(s, m, request.thread, request.text);
    CountOfAppended(s.published, ByEcho(m, request.thread, request.text), m);
  }

  lemma StepOfEcho(s: Machine, thread: Id, text: string)
    ensures Next(s, NativeEcho(thread, text)) == Echoed(s, thread, text)
  {
    hide Echoed, Begun, Resumed, TurnStarted, Settle, Clear, RunningTurn;
  }

  lemma WaitedEchoIsPublished(s: Machine, m: Id, thread: Id, text: string)
    requires Matching(s.echoes, thread, text) == Some(m)
    requires m in s.echoes.records && s.echoes.records[m].publishes
    ensures Echoed(s, thread, text).published == s.published + [ByEcho(m, thread, text)]
  {
    hide Consume, Matching;
  }

  lemma WaitingUnknownIsUnpublished(s: Machine, m: Id)
    requires Inv(s) && m in s.sends && s.sends[m].pc == Done(Unknown)
    requires Matching(s.echoes, s.sends[m].request.thread, s.sends[m].request.text) == Some(m)
    ensures Count(s.published, m) == 0 && m in s.echoes.records && s.echoes.records[m].publishes
  {
    assert SendIsConsistent(s, m) && Count(s.published, m) == Due(s, m) && Waiting(s.echoes);
    hide Inv, Waiting, Consume, Matching, Count;
    ConsumeKeepsWaiting(s.echoes, s.sends[m].request.thread, s.sends[m].request.text);
  }

  /** In every interleaving, each thread has at most one registered turn, and it is unsettled. */
  lemma RegisteredTurnsAreUnsettled(steps: seq<Step>)
    ensures TurnsAreRegistered(Run(START, steps))
  {
    RunKeepsInv(START, steps);
  }

  /**
   * A registered turn gives way only to its own answer, to a native end in its thread, or to the
   * release of its thread; above all never to the settling of another turn.
   */
  lemma OnlyItsOwnEndUnregistersTurn(s: Machine, step: Step, thread: Id)
    requires Inv(s) && thread in s.active
    ensures Lookup(Next(s, step).active, thread) == Some(s.active[thread])
            || (step.TurnAnswered? && step.turn == s.active[thread])
            || step == NativeEnd(thread)
            || step == Release(thread)
  {
    assert TurnsAreRegistered(s);
    hide Inv, Cancel, Expect, Consume, Matching, UnlessEchoAccepted, ResumeAdmitted;
    if step.Resume? && step.resumed in s.sends {
      ResumingKeepsRegistered(s, step.resumed, step.fault, thread);
    }
  }

  lemma ResumingKeepsRegistered(s: Machine, m: Id, fault: Fault, thread: Id)
    requires TurnsAreRegistered(s) && thread in s.active && m in s.sends
    ensures Lookup(Resumed(s, m, fault).active, thread) == Some(s.active[thread])
  {
    hide Cancel, Expect;
  }

  // ---------------------------------------------------------------------------------------------
  // Turns that were never requested
  // ---------------------------------------------------------------------------------------------

  /** The thread has a registered, unsettled turn whose request was never sent, and never will be. */
  predicate IsStranded(s: Machine, thread: Id) {
    && RunningTurn(s, thread).Some?
    && s.turns[s.active[thread]].start.NotSent?
  }

  /** A send that starts a turn meets a missing client, or a caller that is no longer current. */
  predicate Strands(s: Machine, step: Step, thread: Id) {
    && step.Resume? && (step.fault.ClientMissing? || step.fault.NotCurrent?)
    && step.resumed in s.sends && s.sends[step.resumed].pc.Subscribing?
    && var send := s.sends[step.resumed];
    && send.request.thread == thread && IsRetained(s, thread, send.session)
    && RunningTurn(s, thread).None?
    && (send.request.delivery.NewTurn? || send.request.kind.Continuation?)
  }

  lemma StartingStrandsIff(s: Machine, m: Id, fault: Fault, thread: Id)
    requires m in s.sends && TurnsAreRegistered(s) && RunningTurn(s, s.sends[m].request.thread).None?
    ensures var after := StartNewTurn(s, m, fault);
            && (IsStranded(after, thread) <==>
                if thread == s.sends[m].request.thread then fault.ClientMissing? || fault.NotCurrent?
                else IsStranded(s, thread))
            && (fault.ClientMissing? || fault.NotCurrent? ==> after.sends[m].pc == Done(Failed))
  {
    hide Expect;
    if !fault.ModelMissing? {
      StartNewTurnMoves(s, m, fault);
    }
  }

  lemma UnlessAcceptedKeepsTurns(s: Machine, m: Id, cause: Cause)
    requires m in s.sends
    ensures var after := UnlessEchoAccepted(s, m, cause); after.turns == s.turns && after.active == s.active
  {
    hide Cancel;
  }

  /** Only a send that becomes subscribed registers a turn. */
  lemma OtherSendsLeaveTurns(s: Machine, m: Id, fault: Fault)
    requires m in s.sends && !s.sends[m].pc.Subscribing?
    ensures var after := Resumed(s, m, fault); after.turns == s.turns && after.active == s.active
  {
    hide Cancel, Expect, UnlessEchoAccepted, ResumeSubscribed;
    forall cause
      ensures var after := UnlessEchoAccepted(s, m, cause); after.turns == s.turns && after.active == s.active
    {
      UnlessAcceptedKeepsTurns(s, m, cause);
    }
  }

  lemma SubscribedStrandsIff(s: Machine, m: Id, fault: Fault, thread: Id)
    requires TurnsAreRegistered(s) && m in s.sends && s.sends[m].pc.Subscribing?
    ensures IsStranded(ResumeSubscribed(s, m, fault), thread)
            <==> Strands(s, Resume(m, fault), thread) || IsStranded(s, thread)
  {
    hide Expect, StartNewTurn, TurnsAreRegistered;
    if RunningTurn(s, s.sends[m].request.thread).None? {
      StartingStrandsIff(s, m, fault, thread);
    }
  }

  lemma ResumingStrandsIff(s: Machine, m: Id, fault: Fault, thread: Id)
    requires TurnsAreRegistered(s) && m in s.sends
    ensures IsStranded(Resumed(s, m, fault), thread)
            <==> Strands(s, Resume(m, fault), thread) || IsStranded(s, thread)
  {
    if s.sends[m].pc.Subscribing? {
      SubscribedStrandsIff(s, m, fault, thread);
      hide TurnsAreRegistered, ResumeSubscribed, Strands, IsStranded;
    } else {
      OtherSendsLeaveTurns(s, m, fault);
      hide Resumed, TurnsAreRegistered;
    }
  }

  lemma AnsweringStrandsNothing(s: Machine, turn: nat, answer: Answer, thread: Id)
    requires TurnsAreRegistered(s) && turn < |s.turns| && s.turns[turn].start.Sent?
    ensures IsStranded(TurnStarted(s, turn, answer), thread) <==> IsStranded(s, thread)
  {
  }

  /**
   * A thread has a stranded turn after a step exactly when the step strands it, or it had one before
   * and the step is neither a native end in the thread nor the release of the thread.
   */
  lemma StepStrandsIff(s: Machine, step: Step, thread: Id)
    requires Inv(s)
    ensures IsStranded(Next(s, step), thread)
            <==> Strands(s, step, thread)
                 || (IsStranded(s, thread) && step != NativeEnd(thread) && step != Release(thread))
  {
    assert TurnsAreRegistered(s);
    hide Inv, Cancel, Expect, Consume, Matching, Resumed, TurnStarted;
    match step
    case Resume(m, fault) =>
      if m in s.sends {
        ResumingStrandsIff(s, m, fault, thread);
      } else {
        assert Resumed(s, m, fault) == s by { UnknownSendResumes(s, m, fault); }
      }
    case TurnAnswered(turn, answer) =>
      if turn < |s.turns| && s.turns[turn].start.Sent? {
        AnsweringStrandsNothing(s, turn, answer, thread);
      }
    case _ =>
  }

  lemma UnknownSendResumes(s: Machine, m: Id, fault: Fault)
    requires m !in s.sends
    ensures Resumed(s, m, fault) == s
  {
  }

  /** A stranded turn stays until a native end in its thread or the release of its thread. */
  lemma {:induction false} StrandedUntilEndOrRelease(s: Machine, steps: seq<Step>, thread: Id)
    requires Inv(s) && IsStranded(s, thread)
    requires forall step <- steps :: step != NativeEnd(thread) && step != Release(thread)
    ensures IsStranded(Run(s, steps), thread)
    ensures Run(s, steps).active[thread] == s.active[thread]
    decreases |steps|
  {
    if steps == [] {
    } else {
      assert steps[0] in steps && forall step <- steps[1..] :: step in steps;
      StepKeepsInv(s, steps[0]);
      StepStrandsIff(s, steps[0], thread);
      StrandedTurnIsInert(s, steps[0], thread);
      hide Inv, Next, IsStranded, Strands;
      StrandedUntilEndOrRelease(Next(s, steps[0]), steps[1..], thread);
    }
  }

  lemma StrandedTurnIsInert(s: Machine, step: Step, thread: Id)
    requires Inv(s) && IsStranded(s, thread) && step != NativeEnd(thread) && step != Release(thread)
    ensures thread in Next(s, step).active && Next(s, step).active[thread] == s.active[thread]
  {
    OnlyItsOwnEndUnregistersTurn(s, step, thread);
    hide Inv, Begun, Resumed, Echoed, TurnStarted, Settle, Clear;
  }

  /** Its own answer never comes; and until it is gone, no further turn starts in its thread. */
  lemma StrandedTurnBlocksTurns(s: Machine, thread: Id, answer: Answer, m: Id, fault: Fault)
    requires IsStranded(s, thread)
    ensures Next(s, TurnAnswered(s.active[thread], answer)) == s
    ensures m in s.sends && s.sends[m].pc.Subscribing? && s.sends[m].request.thread == thread
            && (s.sends[m].request.delivery.NewTurn? || s.sends[m].request.kind.Continuation?)
            ==> Next(s, Resume(m, fault)) == At(s, m, Done(Failed))
  {
  }

  /** One send with the text "a" to the session of thread 1, which reaches its synchronous part. */
  function SendTo(fault: Fault): seq<Step> {
    [Remember(1), Begin(0, Request(1, "a", UserMessage, NewTurn)), Resume(0, fault)]
  }

  /** Three steps from the start, a thread has a turn that no native answer will ever settle. */
  lemma MissingClientStrandsTurn(fault: Fault)
    requires fault.ClientMissing? || fault.NotCurrent?
    ensures var s := Run(START, SendTo(fault));
            && IsStranded(s, 1) && 0 in s.sends && s.sends[0].pc == Done(Failed)
            && forall answer :: Next(s, TurnAnswered(s.active[1], answer)) == s
  {
    var steps := SendTo(fault);
    var s1 := Next(START, steps[0]);
    var s2 := Next(s1, steps[1]);
    var s3 := Next(s2, steps[2]);
    assert steps[1..][1..][1..] == [];
    RunOfThree(START, steps);
    assert s2.sends[0].pc.Subscribing? && RunningTurn(s2, 1).None?;
    assert s3 == StartNewTurn(s2, 0, fault);
    StartingStrandsIff(s2, 0, fault, 1);
    forall answer ensures Next(s3, TurnAnswered(s3.active[1], answer)) == s3 {
      StrandedTurnBlocksTurns(s3, 1, answer, 0, NoFault);
    }
  }

  lemma RunOfThree(s: Machine, steps: seq<Step>)
    requires |steps| == 3
    ensures Run(s, steps) == Next(Next(Next(s, steps[0]), steps[1]), steps[2])
  {
    hide Next;
    assert steps[1..][1..][1..] == [];
    assert Run(Next(s, steps[0]), steps[1..]) == Run(Next(Next(s, steps[0]), steps[1]), steps[1..][1..]);
  }

  // ---------------------------------------------------------------------------------------------
  // A forgotten echo
  // ---------------------------------------------------------------------------------------------

  function Message(text: string): Request {
    Request(1, text, UserMessage, NewTurn)
  }

  /** Thread 1 is released and retained again between two messages, and then the first one is refused. */
  const UNTIL_REFUSAL := [
    Remember(1), Begin(0, Message("a")), Resume(0, NoFault), Release(1),
    Remember(1), Begin(1, Message("b")), Resume(1, NoFault), TurnAnswered(0, Error(Refusal))]

  const FIRST_SENT := Machine(
    map[1 := 0], 1, [Turn(1, 0, Some(0), true, Sent, false, false)], map[1 := 0],
    Expect(NO_ECHOES, 0, 1, "a"), map[0 := Send(Message("a"), 0, AwaitingAnswer(0))], [])

  /** Both messages await their answers; the first waits in the queue that was cleared. */
  function BothSent(echoes: Echoes): Machine {
    Machine(
      map[1 := 1], 2,
      [Turn(1, 0, Some(0), true, Sent, false, false), Turn(1, 1, Some(1), true, Sent, false, false)],
      map[1 := 1], echoes,
      map[0 := Send(Message("a"), 0, AwaitingAnswer(0)), 1 := Send(Message("b"), 1, AwaitingAnswer(1))], [])
  }

  function FirstRefused(echoes: Echoes): Machine {
    BothSent(echoes).(
      turns := [Turn(1, 0, Some(0), true, Rejected(Refusal), false, true), Turn(1, 1, Some(1), true, Sent, false, false)])
  }

  lemma FirstSent()
    ensures Next(Next(Next(START, UNTIL_REFUSAL[0]), UNTIL_REFUSAL[1]), UNTIL_REFUSAL[2]) == FIRST_SENT
  {
    hide Expect;
    var s1 := Next(START, UNTIL_REFUSAL[0]);
    var s2 := Next(s1, UNTIL_REFUSAL[1]);
    assert s2 == START.(sessions := map[1 := 0], nextSession := 1,
                        sends := map[0 := Send(Message("a"), 0, Subscribing)]);
    StartNewTurnMoves(s2, 0, NoFault);
  }

  lemma SecondSent()
    ensures Next(Next(Next(Next(FIRST_SENT, UNTIL_REFUSAL[3]), UNTIL_REFUSAL[4]), UNTIL_REFUSAL[5]), UNTIL_REFUSAL[6])
            == BothSent(AFTER_CLEAR)
  {
    hide Expect, Clear;
    var s := FIRST_SENT;
    var s4 := Next(Next(s, UNTIL_REFUSAL[3]), UNTIL_REFUSAL[4]);
    var s5 := Next(s4, UNTIL_REFUSAL[5]);
    assert s5 == s.(sessions := map[1 := 1], nextSession := 2, active := map[], echoes := Clear(s.echoes, 1),
                    sends := s.sends[1 := Send(Message("b"), 1, Subscribing)]);
    StartNewTurnMoves(s5, 1, NoFault);
  }

  lemma RefusingFirst(echoes: Echoes)
    requires !WasEchoed(echoes, 0)
    ensures Next(BothSent(echoes), TurnAnswered(0, Error(Refusal))) == FirstRefused(echoes)
  {
    hide WasEchoed;
    var s := BothSent(echoes);
    assert !EchoAccepted(s, 0);
    assert TurnStarted(s, 0, Error(Refusal)) == FirstRefused(echoes);
  }

  lemma {:induction false} RunOfPrefix(s: Machine, front: seq<Step>, rest: seq<Step>)
    ensures Run(s, front + rest) == Run(Run(s, front), rest)
    decreases |front|
  {
    hide Next;
    if front == [] {
      assert front + rest == rest;
    } else {
      assert (front + rest)[1..] == front[1..] + rest;
      RunOfPrefix(Next(s, front[0]), front[1..], rest);
    }
  }

  lemma RunOfTwo(s: Machine, steps: seq<Step>)
    requires |steps| == 2
    ensures Run(s, steps) == Next(Next(s, steps[0]), steps[1])
  {
    hide Next;
    assert steps[1..][1..] == [];
    assert Run(s, steps) == Run(Next(s, steps[0]), steps[1..]);
  }

  lemma ReachesRefusal()
    ensures Run(START, UNTIL_REFUSAL) == FirstRefused(AFTER_CLEAR)
  {
    CancelCanForgetNewQueue();
    FirstSent();
    SecondSent();
    hide Next, BothSent, FirstRefused, WasEchoed, CancelForgets, Waiting, Matching, Cancel;
    RefusingFirst(AFTER_CLEAR);
    var front, middle, last := UNTIL_REFUSAL[..3], UNTIL_REFUSAL[3..6], UNTIL_REFUSAL[6..];
    assert UNTIL_REFUSAL == front + (middle + last);
    RunOfPrefix(START, front, middle + last);
    RunOfThree(START, front);
    RunOfPrefix(FIRST_SENT, middle, last);
    RunOfThree(FIRST_SENT, middle);
    RunOfTwo(Run(FIRST_SENT, middle), last);
  }

  lemma RefusedResumes(echoes: Echoes)
    requires !WasEchoed(echoes, 0)
    ensures var after := Next(FirstRefused(echoes), Resume(0, NoFault));
            && 0 in after.sends && after.sends[0].pc == Done(Refused)
            && 1 in after.sends && after.sends[1].pc.AwaitingAnswer?
            && after.echoes == Cancel(echoes, 0)
  {
    hide Cancel, WasEchoed;
    assert !EchoAccepted(FirstRefused(echoes), 0);
  }

  /**
   * When the send of the first message resumes, it cancels the last echo of the old queue, and the
   * thread forgets the new queue: the second message still awaits its answer, but its own echo no
   * longer finds it.
   */
  lemma RefusalForgetsLaterEcho()
    ensures var s := Run(START, UNTIL_REFUSAL);
            && Matching(s.echoes, 1, "b") == Some(1)
            && var after := Next(s, Resume(0, NoFault));
            && 0 in after.sends && after.sends[0].pc == Done(Refused)
            && 1 in after.sends && after.sends[1].pc.AwaitingAnswer?
            && Matching(after.echoes, 1, "b").None?
  {
    CancelCanForgetNewQueue();
    ReachesRefusal();
    hide Run, Next, Expect, Clear, Cancel, Matching, Waiting, WasEchoed, CancelForgets;
    RefusedResumes(AFTER_CLEAR);
  }
}
