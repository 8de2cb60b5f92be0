/** The background questions of a session, changed in place by events, replies and history reads. */
module BackgroundQuestionStates {
  import opened Prelude
  import opened Utf16
  import DisplayParts
  import opened AsyncQuestions

  /** The reply to one question of a request. */
  datatype Reply = Reply(request: Id, index: nat, question: Text, answer: Text)

  datatype ClaimResult = NotPending | InFlight | WrongNumber | Blank | Claimed(replies: seq<Reply>)

  class BackgroundQuestions {
    var pending: Pending
    var handled: set<Id>
    var claims: set<Id>

    ghost function Value(): Questions
      reads this
    {
      Questions(pending, handled, claims)
    }

    ghost predicate Valid()
      reads this
    {
      Inv(Value())
    }

    constructor ()
      ensures Value() == FRESH && Valid()
    {
      pending, handled, claims := [], {}, {};
    }

    method Add(question: Question)
      requires Valid()
      modifies this`pending
      ensures Valid() && Value() == Added(old(Value()), question)
    {
      AddedKeepsInv(Value(), question);
      hide Inv, With;
      if question.id !in handled {
        pending := With(pending, question);
      }
    }

    method Resolve(ids: seq<Id>)
      requires Valid()
      modifies this
      ensures Valid() && Value() == Resolved(old(Value()), IdSet(ids))
    {
      ghost var s := Value();
      ResolvedKeepsInv(s, IdSet(ids));
      ResolvedNone(s);
      assert IdSet(ids[..0]) == {};
      hide Inv, Without;
      var i := 0;
      while i < |ids|
        invariant i <= |ids| && Value() == Resolved(s, IdSet(ids[..i]))
      {
        ResolvedOneMore(s, IdSet(ids[..i]), ids[i]);
        assert IdSet(ids[..i + 1]) == IdSet(ids[..i]) + {ids[i]};
        handled := handled + {ids[i]};
        pending := Without(pending, {ids[i]});
        claims := claims - {ids[i]};
        i := i + 1;
      }
      assert ids[..|ids|] == ids;
    }

    /** Processes canonical events as they arrive. */
    method ProcessEvents(events: seq<Event>)
      requires Value() == FRESH
      modifies this
      ensures Valid() && Value() == Live(FRESH, events)
    {
      LiveKeepsInv([]);
      assert events[..0] == [];
      var i := 0;
      while i < |events|
        invariant i <= |events| && Valid() && Value() == Live(FRESH, events[..i])
      {
        assert events[..i + 1][..i] == events[..i];
        ghost var s := Value();
        var event := events[i];
        if event.AssistantMessage? && event.question.Some? {
          Add(event.question.value);
        }
        if event.UserMessage? || (event.Tool? && event.resolved.Some?) {
          Resolve(if event.resolved.Some? then event.resolved.value else IdsOf(pending));
        }
        assert Value() == Observed(s, event);
        i := i + 1;
      }
      assert events[..|events|] == events;
    }

    /** Rebuilds the questions from a history; returns whether the pending ones changed. */
    method LoadHistory(messages: seq<Message>) returns (changed: bool)
      requires Valid()
      modifies this
      ensures Valid() && Value() == Loaded(old(Value()), messages)
      ensures changed == (pending != old(pending))
    {
      ghost var s := Value();
      var before := pending;
      var open, closed := ReplayMessages(messages);
      ghost var resolved := Resolved(s, IdSet(closed));
      Resolve(closed);
      assert open[..0] == [];
      hide Inv, Replayed;
      var i := 0;
      while i < |open|
        invariant i <= |open| && Valid() && Value() == AddedAll(resolved, open[..i])
      {
        assert open[..i + 1][..i] == open[..i];
        Add(open[i]);
        i := i + 1;
      }
      assert open[..|open|] == open;
      changed := pending != before;
    }

    /** Claims a pending request and returns its replies; without an answer to each question nothing is claimed. */
    method Claim(id: Id, answers: seq<seq<Text>>) returns (result: ClaimResult)
      requires Valid()
      modifies this`claims
      ensures Valid() && Value() == Step(old(Value()), Operation.Claim(id, answers))
      ensures result.Claimed? <==> MayClaim(old(Value()), id, answers)
      ensures result.NotPending? <==> !Holds(pending, id)
      ensures result.InFlight? <==> Holds(pending, id) && id in old(claims)
      ensures result.WrongNumber? ==> |answers| != |PendingQuestion(pending, id).value.texts|
      ensures result.Blank? ==> |answers| == |PendingQuestion(pending, id).value.texts|
                                && exists answer <- answers :: !IsAnswered(answer)
      ensures result.Claimed? ==> AreReplies(result.replies, PendingQuestion(pending, id).value, answers)
    {
      StepKeepsInv(Value(), Operation.Claim(id, answers));
      var question := PendingQuestion(pending, id);
      if question.None? {
        return NotPending;
      }
      if id in claims {
        return InFlight;
      }
      if |answers| != |question.value.texts| {
        return WrongNumber;
      }
      hide Inv;
      var replies := [];
      for i := 0 to |answers|
        invariant AreReplies(replies, question.value, answers[..i])
        invariant forall answer <- answers[..i] :: IsAnswered(answer)
      {
        assert answers[..i + 1] == answers[..i] + [answers[i]];
        var answer := if answers[i] == [] then [] else DisplayParts.Trim(answers[i][0]);
        if answer == [] {
          assert !IsAnswered(answers[i]);
          return Blank;
        }
        replies := replies + [Reply(id, i, question.value.texts[i], answer)];
      }
      assert answers[..|answers|] == answers;
      claims := claims + {id};
      result := Claimed(replies);
    }

    method ReleaseClaim(id: Id)
      requires Valid()
      modifies this`claims
      ensures Valid() && Value() == Step(old(Value()), Release(id))
    {
      claims := claims - {id};
    }
  }

  /** One reply for each answer, in order, with its question and the answer that was not blank. */
  ghost predicate AreReplies(replies: seq<Reply>, question: Question, answers: seq<seq<Text>>) {
    && |replies| == |answers| <= |question.texts|
    && forall i | 0 <= i < |answers| ::
         && IsAnswered(answers[i])
         && replies[i] == Reply(question.id, i, question.texts[i], DisplayParts.Trim(answers[i][0]))
  }

  lemma ResolvedNone(s: Questions)
    ensures Resolved(s, {}) == s
  {
    WithoutNothing(s.pending, {});
  }

  lemma {:induction false} WithoutTwice(pending: Pending, a: set<Id>, b: set<Id>)
    ensures Without(Without(pending, a), b) == Without(pending, a + b)
    decreases |pending|
  {
    if pending == [] {
    } else {
      WithoutTwice(pending[1..], a, b);
      if pending[0].id !in a {
        assert Without(pending, a)[1..] == Without(pending[1..], a);
      } else {
        assert Without(pending, a) == Without(pending[1..], a);
      }
    }
  }

  lemma ResolvedOneMore(s: Questions, ids: set<Id>, id: Id)
    ensures Resolved(Resolved(s, ids), {id}) == Resolved(s, ids + {id})
  {
    WithoutTwice(s.pending, ids, {id});
    assert s.handled + ids + {id} == s.handled + (ids + {id});
    assert s.claims - ids - {id} == s.claims - (ids + {id});
  }

  /** Replays the question and resolution records of a history. */
  method ReplayMessages(messages: seq<Message>) returns (open: Pending, closed: seq<Id>)
    ensures Replayed(messages) == Replay(open, IdSet(closed))
  {
    open, closed := [], [];
    assert messages[..0] == [] && IdSet([]) == {};
    var i := 0;
    while i < |messages|
      invariant i <= |messages| && Replayed(messages[..i]) == Replay(open, IdSet(closed))
    {
      assert messages[..i + 1][..i] == messages[..i];
      hide With, Without;
      var message := messages[i];
      if message.role == Assistant && message.question.Some? && !message.question.value.blocking {
        if message.question.value.id !in closed {
          open := With(open, message.question.value);
        }
      } else if message.role == User {
        var ids := if message.resolved.Some? then message.resolved.value else IdsOf(open);
        assert IdSet(closed + ids) == IdSet(closed) + IdSet(ids);
        closed := closed + ids;
        open := Without(open, IdSet(ids));
      }
      i := i + 1;
    }
    assert messages[..|messages|] == messages;
  }

  /** Projects canonical events to history messages, adding parts to earlier messages in place. */
  method ProjectToHistory(events: seq<Event>) returns (messages: seq<Message>)
    ensures messages == History(events)
    ensures NeverBlocks(events) ==> Loaded(FRESH, messages) == Live(FRESH, events).(claims := {})
  {
    if NeverBlocks(events) {
      ReplayEqualsLive(events);
    }
    messages := [];
    assert events[..0] == [];
    hide Live, Loaded;
    var i := 0;
    while i < |events|
      invariant i <= |events| && messages == History(events[..i])
    {
      assert events[..i + 1][..i] == events[..i];
      match events[i] {
        case UserMessage(id, resolved) =>
          messages := messages + [Message(id, false, User, None, resolved, 0)];
        case AssistantMessage(id, question) =>
          messages := messages + [Message(id, false, Assistant, question, None, 0)];
        case StreamPart(id) =>
          var at := MessageAt(messages, id);
          if at < |messages| && messages[at].role == Assistant {
            messages := messages[at := messages[at].(parts := messages[at].parts + 1)];
          } else {
            messages := messages + [Message(id, false, Assistant, None, None, 1)];
          }
        case Tool(id, resolved) =>
          if resolved.Some? {
            messages := messages + [Message(id, true, User, None, resolved, 0)];
          }
          messages := messages + [Message(id, false, Assistant, None, None, 1)];
        case Compacted(id) =>
          messages := messages + [Message(id, false, System, None, None, 0)];
        case OtherEvent =>
      }
      i := i + 1;
    }
    assert events[..|events|] == events;
  }
}
