/** The registered turns and the sends, as the code between two awaits changes them. */
module TurnLifecycles {
  import opened Prelude
  import opened MessageEchoes
  import opened EchoBooks
  import opened MessageAdmission
  import opened MessageAdmissionProofs

  class TurnLifecycle {
    const echoes: EchoBook
    var sessions: map<Id, Id>
    var nextSession: Id
    var turns: seq<Turn>
    var active: map<Id, nat>
    var sends: map<Id, Send>
    var published: seq<Publication>

    ghost function Value(): Machine
      reads this, echoes
    {
      Machine(sessions, nextSession, turns, active, echoes.Value(), sends, published)
    }

    ghost predicate Valid()
      reads this, echoes
    {
      Inv(Value())
    }

    constructor ()
      ensures Valid() && Value() == START && fresh(echoes)
    {
      echoes := new EchoBook();
      sessions, nextSession, turns, active, sends, published := map[], 0, [], map[], map[], [];
    }

    /** Registers a turn for the thread, in place of any turn registered before. */
    method RegisterActiveTurn(thread: Id, session: Id, message: Option<Id>) returns (turn: nat)
      modifies this`turns, this`active
      ensures Value() == Register(old(Value()), thread, session, message)
      ensures turn == |old(turns)|
    {
      turn := |turns|;
      turns := turns + [Turn(thread, session, message, false, NotSent, false, false)];
      active := active[thread := turn];
    }

    /** Settling a stale turn leaves the turn that is registered now. */
    method MarkTurnSettled(turn: nat)
      requires turn < |turns|
      modifies this`turns, this`active
      ensures Value() == Settle(old(Value()), turn)
      ensures Lookup(old(active), turns[turn].thread) != Some(turn) ==> active == old(active)
    {
      turns := turns[turn := turns[turn].(settled := true)];
      var thread := turns[turn].thread;
      if thread in active && active[thread] == turn {
        active := active - {thread};
      }
    }

    method SetPc(m: Id, pc: Pc)
      requires m in sends
      modifies this`sends
      ensures Value() == At(old(Value()), m, pc)
    {
      sends := sends[m := sends[m].(pc := pc)];
    }

    /**
     * Up to the request. A missing model leaves nothing behind and a missing policy a settled turn; a
     * missing client, or a caller that is no longer current, throws past the settling and leaves a
     * registered turn whose request was never sent.
     */
    method StartTurn(m: Id, fault: Fault)
      requires Valid() && m in sends && sends[m].pc.Subscribing?
      requires RunningTurn(Value(), sends[m].request.thread).None?
      modifies this, echoes
      ensures Value() == StartNewTurn(old(Value()), m, fault)
      ensures Valid()
      ensures LeavesBehind(old(Value()), Value(), m, fault)
      ensures sends == old(sends)[m := old(sends)[m].(pc := sends[m].pc)] && published == old(published)
    {
      StartNewTurnKeepsInv(Value(), m, fault);
      StartLeavesBehind(Value(), m, fault);
      OneSend(Value(), m);
      hide Inv, Waiting, Expect, LeavesBehind;
      var send := sends[m];
      if fault.ModelMissing? {
        SetPc(m, Done(Failed));
        return;
      }
      var isContinuation := send.request.kind.Continuation?;
      var turn := RegisterActiveTurn(send.request.thread, send.session, if isContinuation then None else Some(m));
      if fault.ClientMissing? {
        SetPc(m, Done(Failed));
        return;
      }
      if fault.PolicyMissing? {
        MarkTurnSettled(turn);
        SetPc(m, Done(Refused));
        return;
      }
      if !isContinuation {
        echoes.ExpectUserMessageEcho(m, send.request.thread, send.request.text);
      }
      turns := turns[turn := turns[turn].(requested := true)];
      if fault.NotCurrent? {
        SetPc(m, Done(Failed));
        return;
      }
      turns := turns[turn := turns[turn].(start := Sent)];
      SetPc(m, AwaitingAnswer(turn));
    }

    /** A steer expects its echo before it waits for the start of the running turn. */
    method SteerTurn(m: Id, turn: nat)
      requires Valid() && m in sends && sends[m].pc.Subscribing? && turn < |turns|
      modifies this`sends, echoes
      ensures Value() == SteerRunningTurn(old(Value()), m, turn)
      ensures Valid()
      ensures var thread := sends[m].request.thread;
              QueueFor(echoes.Value(), thread) == QueueFor(old(echoes.Value()), thread) + [m]
      ensures !WasEchoed(echoes.Value(), m) && !sends[m].pc.Done?
      ensures sends[m].pc.StartKnown? && sends[m].pc.failure.None? <==> turns[turn].bound
    {
      SteerRunningTurnKeepsInv(Value(), m, turn);
      OneSend(Value(), m);
      JoinsItsQueue(echoes.Value(), m, sends[m].request.thread, sends[m].request.text);
      hide Inv, Waiting, Expect, QueueFor;
      echoes.ExpectUserMessageEcho(m, sends[m].request.thread, sends[m].request.text);
      if turns[turn].bound {
        SetPc(m, StartKnown(turn, None));
      } else if turns[turn].start.NotSent? {
        SetPc(m, StartKnown(turn, Some(Failed)));
      } else {
        SetPc(m, AwaitingStart(turn));
      }
    }

    /**
     * The native answer, or the rejection, of the request that started a turn. An answer binds the turn
     * while its session is retained; the turn settles when the session is gone, when the turn is over,
     * or when a conclusive rejection meets no echo that proves acceptance.
     */
    method AnswerTurnStart(turn: nat, answer: Answer)
      requires Valid() && turn < |turns| && turns[turn].start.Sent?
      modifies this`turns, this`active
      ensures Value() == TurnStarted(old(Value()), turn, answer)
      ensures Valid()
      ensures Settles(old(Value()), Value(), turn, AnswerSettles(old(Value()), turn, answer))
      ensures turns[turn].bound <==> old(turns)[turn].bound || (answer.Ok? && IsRetained(Value(), turns[turn].thread, turns[turn].session))
    {
      TurnAnswerKeepsInv(Value(), turn, answer);
      AnswerSettlesIff(Value(), turn, answer);
      hide Inv, Settles, AnswerSettles, TurnStarted;
      match answer
      case Ok(status) => BindStartedTurn(turn, status);
      case Error(cause) => RejectTurnStart(turn, cause);
    }

    method BindStartedTurn(turn: nat, status: TurnStatus)
      requires turn < |turns|
      modifies this`turns, this`active
      ensures Value() == TurnStarted(old(Value()), turn, Ok(status))
    {
      var t := turns[turn];
      turns := turns[turn := t.(start := Answered(status.FailedOrInterrupted?))];
      if Lookup(sessions, t.thread) != Some(t.session) {
        MarkTurnSettled(turn);
        return;
      }
      turns := turns[turn := turns[turn].(bound := true)];
      if !status.InProgress? {
        MarkTurnSettled(turn);
      }
    }

    method RejectTurnStart(turn: nat, cause: Cause)
      requires turn < |turns|
      modifies this`turns, this`active
      ensures Value() == TurnStarted(old(Value()), turn, Error(cause))
    {
      var t := turns[turn];
      turns := turns[turn := t.(start := Rejected(cause))];
      var accepted := t.message.Some? && t.message.value in sends && sends[t.message.value].request.kind.UserMessage?
                      && t.message.value in echoes.records && echoes.records[t.message.value].echoed;
      if cause.Refusal? && !accepted {
        MarkTurnSettled(turn);
      }
    }

    /** Returns whether the failed request was accepted after all, as its echo proves. */
    method ThrowUnlessEchoAccepted(m: Id, cause: Cause) returns (accepted: bool)
      requires Valid() && m in sends && m in echoes.records && !sends[m].pc.Done?
      modifies this`sends, echoes
      ensures Value() == UnlessEchoAccepted(old(Value()), m, cause)
      ensures Valid()
      ensures accepted == EchoAccepted(old(Value()), m)
      ensures sends[m].pc == Done(Unknown) <==> !accepted && cause.Inconclusive? && sends[m].request.kind.UserMessage?
      ensures !accepted <==> sends[m].pc.Done?
    {
      UnlessAcceptedKeepsInv(Value(), m, cause);
      OneSend(Value(), m);
      hide Inv, Waiting, Cancel;
      var isMessage := sends[m].request.kind.UserMessage?;
      accepted := isMessage && echoes.records[m].echoed;
      if accepted {
        SetPc(m, Admitted);
      } else if cause.Refusal? || !isMessage {
        echoes.CancelEcho(m);
        SetPc(m, Done(if cause.Refusal? then Refused else Failed));
      } else {
        echoes.PublishWhenEchoed(m);
        SetPc(m, Done(Unknown));
      }
    }

    /** An admitted message is published by its send, unless its owner was released or replaced. */
    method FinishAdmitted(m: Id)
      requires Valid() && m in sends && sends[m].pc.Admitted?
      modifies this`sends, this`published, echoes
      ensures Value() == ResumeAdmitted(old(Value()), m)
      ensures Valid()
      ensures var send := sends[m];
              published == if IsRetained(Value(), send.request.thread, send.session) && send.request.kind.UserMessage?
                           then old(published) + [BySend(m)] else old(published)
      ensures sends[m].pc == Done(Accepted)
              <==> IsRetained(Value(), sends[m].request.thread, sends[m].session)
    {
      AdmittedKeepsInv(Value(), m);
      OneSend(Value(), m);
      CancelKeepsWaiting(echoes.Value(), m);
      hide Inv, Waiting, Cancel;
      var send := sends[m];
      if Lookup(sessions, send.request.thread) != Some(send.session) {
        if m in echoes.records {
          echoes.CancelEcho(m);
        } else {
          CancelUnknown(echoes.Value(), m);
        }
        SetPc(m, Done(AcceptedUnowned));
        return;
      }
      SetPc(m, Done(Accepted));
      if send.request.kind.UserMessage? {
        published := published + [BySend(m)];
      }
    }

    /** A native user message consumes the echo that waits for its text, and publishes a message of unknown outcome. */
    method CompleteUserMessage(thread: Id, text: string) returns (wasEcho: bool)
      requires Valid()
      modifies this`published, echoes
      ensures Value() == Echoed(old(Value()), thread, text)
      ensures Valid()
      ensures wasEcho == Matching(old(echoes.Value()), thread, text).Some?
      ensures var m := Matching(old(echoes.Value()), thread, text);
              if m.Some? && m.value in sends && sends[m.value].pc == Done(Unknown)
              then Count(old(published), m.value) == 0 && published == old(published) + [ByEcho(m.value, thread, text)]
              else published == old(published)
    {
      ghost var before := echoes.Value();
      EchoKeepsInv(Value(), thread, text);
      EchoPublishesOnce(Value(), thread, text);
      assert Waiting(before);
      ConsumeKeepsWaiting(before, thread, text);
      hide Inv, Waiting, Consume, Matching, Count;
      var message := echoes.ConsumeSyntheticUserMessage(thread, text);
      wasEcho := message.Some?;
      if wasEcho && message.value in echoes.records && echoes.records[message.value].publishes {
        published := published + [ByEcho(message.value, thread, text)];
      }
    }

    /** Releasing a thread forgets its session, its registered turn and its waiting echoes. */
    method ReleaseThread(thread: Id)
      requires Valid()
      modifies this`sessions, this`active, echoes
      ensures Valid() && Value() == Next(old(Value()), Release(thread))
    {
      StepKeepsInv(Value(), Release(thread));
      sessions := sessions - {thread};
      active := active - {thread};
      hide Inv;
      echoes.ClearThread(thread);
    }
  }

  /** What starting a turn leaves in the registry and in the queue of the thread. */
  ghost predicate LeavesBehind(before: Machine, after: Machine, m: Id, fault: Fault)
    requires m in before.sends && m in after.sends
  {
    var thread := before.sends[m].request.thread;
    && (if fault.ModelMissing? then after.turns == before.turns
        else |after.turns| == |before.turns| + 1 && before.turns <= after.turns
             && after.turns[|before.turns|].thread == thread
             && (after.turns[|before.turns|].settled <==> fault.PolicyMissing?))
    && (RunningTurn(after, thread)
        == if fault.ModelMissing? || fault.PolicyMissing? then None else Some(|before.turns|))
    && (IsStranded(after, thread) <==> fault.ClientMissing? || fault.NotCurrent?)
    && (after.sends[m].pc.Done? <==> !fault.NoFault?)
    && (m in QueueFor(after.echoes, thread) <==>
        !before.sends[m].request.kind.Continuation? && (fault.NoFault? || fault.NotCurrent?))
  }

  lemma StartLeavesBehind(s: Machine, m: Id, fault: Fault)
    requires Inv(s) && m in s.sends && s.sends[m].pc.Subscribing?
    requires RunningTurn(s, s.sends[m].request.thread).None?
    ensures LeavesBehind(s, StartNewTurn(s, m, fault), m, fault)
  {
    var thread, text := s.sends[m].request.thread, s.sends[m].request.text;
    OneSend(s, m);
    SubscribingWaitsNowhere(s, m);
    JoinsItsQueue(s.echoes, m, thread, text);
    hide Inv, Waiting, Expect, QueueFor;
    StartingStrandsIff(s, m, fault, thread);
    hide IsStranded;
    if !fault.ModelMissing? {
      StartNewTurnMoves(s, m, fault);
    }
  }

  lemma SubscribingWaitsNowhere(s: Machine, m: Id)
    requires Inv(s) && m in s.sends && s.sends[m].pc.Subscribing?
    ensures m !in s.echoes.records && m !in QueueFor(s.echoes, s.sends[m].request.thread)
  {
    OneSend(s, m);
    hide Inv;
  }

  lemma JoinsItsQueue(e: Echoes, m: Id, thread: Id, text: string)
    requires Waiting(e)
    ensures QueueFor(Expect(e, m, thread, text), thread) == QueueFor(e, thread) + [m]
  {
  }

  /** The answer to a turn start settles the turn. */
  predicate AnswerSettles(s: Machine, turn: nat, answer: Answer)
    requires turn < |s.turns|
  {
    var t := s.turns[turn];
    match answer
    case Ok(status) => !IsRetained(s, t.thread, t.session) || !status.InProgress?
    case Error(cause) =>
      cause.Refusal? && !(t.message.Some? && t.message.value in s.sends && EchoAccepted(s, t.message.value))
  }

  /** A turn may have settled: only then it leaves the registry, and no other turn does. */
  ghost predicate Settles(before: Machine, after: Machine, turn: nat, settles: bool)
    requires turn < |before.turns|
  {
    && |after.turns| == |before.turns|
    && (forall other: nat | other < |before.turns| && other != turn :: after.turns[other] == before.turns[other])
    && (after.turns[turn].settled <==> before.turns[turn].settled || settles)
    && forall thread: Id ::
         Lookup(after.active, thread)
         == if settles && Lookup(before.active, thread) == Some(turn) then None else Lookup(before.active, thread)
  }

  lemma AnswerSettlesIff(s: Machine, turn: nat, answer: Answer)
    requires Inv(s) && turn < |s.turns|
    ensures Settles(s, TurnStarted(s, turn, answer), turn, AnswerSettles(s, turn, answer))
    ensures var t := TurnStarted(s, turn, answer).turns[turn];
            && t.thread == s.turns[turn].thread && t.session == s.turns[turn].session
            && (t.bound <==> s.turns[turn].bound || (answer.Ok? && IsRetained(s, t.thread, t.session)))
  {
    assert TurnsAreRegistered(s);
    hide Inv;
  }

  /** An echo publishes a message only when its send was left open, and it was not published before. */
  lemma EchoPublishesOnce(s: Machine, thread: Id, text: string)
    requires Inv(s)
    ensures var m := Matching(s.echoes, thread, text);
            m.Some? ==>
              && m.value in s.sends && m.value in s.echoes.records
              && (s.echoes.records[m.value].publishes <==> s.sends[m.value].pc == Done(Unknown))
              && (s.sends[m.value].pc == Done(Unknown) ==> Count(s.published, m.value) == 0)
  {
    var m := Matching(s.echoes, thread, text);
    assert Waiting(s.echoes);
    ConsumeKeepsWaiting(s.echoes, thread, text);
    hide Matching, Waiting, Count;
    if m.Some? && m.value in s.echoes.records {
      assert m.value in s.sends && SendIsConsistent(s, m.value) && Count(s.published, m.value) == Due(s, m.value);
    }
  }

  lemma CancelUnknown(e: Echoes, m: Id)
    requires m !in e.records
    ensures Cancel(e, m) == e
  {
  }
}
