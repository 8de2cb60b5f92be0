/** Which steps keep every pending request marked as handled, and what follows from the marks. */
module ServerRequestsProofs {
  import opened Prelude
  import opened RequestKeys
  import SubagentLinks
  import P = PendingInput
  import opened PendingInputProofs
  import opened ServerRequests

  type Keys = set<P.NativeKey>

  // ---------------------------------------------------------------------------------------------
  // Handled keys
  // ---------------------------------------------------------------------------------------------

  function HandledAt(s: Server, key: P.NativeKey): set<string> {
    Handled(s, Place(key.0, key.1))
  }

  ghost predicate KeysCovered(s: Server, keys: Keys) {
    forall key <- keys :: key.2 != "" ==> key.2 in HandledAt(s, key)
  }

  lemma AttachedFacts(s: Server, place: Place, turnBook: Option<nat>)
    requires BooksFit(s)
    ensures BooksFit(Attached(s, place, turnBook)) && place in Attached(s, place, turnBook).bookOf
    ensures forall p: Place :: Handled(s, p) <= Handled(Attached(s, place, turnBook), p)
  {
  }

  lemma MarkedFacts(s: Server, book: nat, key: string)
    requires BooksFit(s) && book < |s.books|
    ensures BooksFit(Marked(s, book, key))
    ensures forall p: Place :: Handled(s, p) <= Handled(Marked(s, book, key), p)
    ensures key != "" ==> forall p <- s.bookOf | s.bookOf[p] == book :: key in Handled(Marked(s, book, key), p)
  {
  }

  predicate Holds(s: Server, place: Place, book: nat) {
    place in s.bookOf && s.bookOf[place] == book
  }

  lemma UnmarkedFacts(s: Server, book: nat, key: string)
    requires BooksFit(s) && book < |s.books|
    ensures BooksFit(Unmarked(s, book, key))
    ensures forall p: Place :: Handled(Unmarked(s, book, key), p)
              == if key != "" && Holds(s, p, book) then Handled(s, p) - {key} else Handled(s, p)
  {
  }

  lemma ForgottenFacts(s: Server, place: Place, key: string)
    requires BooksFit(s)
    ensures BooksFit(Forgotten(s, place, key))
    ensures forall p: Place :: Handled(Forgotten(s, place, key), p)
              == if p == place then Handled(s, p) - {key} else Handled(s, p)
  {
  }

  // ---------------------------------------------------------------------------------------------
  // Native keys
  // ---------------------------------------------------------------------------------------------

  lemma KeysArePending(t: P.Table)
    requires P.Inv(t)
    ensures forall key: P.NativeKey :: P.NativeEntry(t, key).Some? <==> key in t.byNative
    ensures forall key <- t.byNative :: P.NativeEntry(t, key).value.id == t.byNative[key]
  {
    hide P.OwnersAgree, P.MirrorsAgree;
  }

  lemma CoveredByKeys(s: Server, t: P.Table)
    requires P.Inv(t)
    ensures CoveredIn(s, t) <==> KeysCovered(s, t.byNative.Keys)
  {
    hide P.OwnersAgree, P.MirrorsAgree, RequestKey, Handled;
    if CoveredIn(s, t) {
      forall key | key in t.byNative.Keys && key.2 != "" ensures key.2 in HandledAt(s, key) {
        assert P.NativeKeyOf(t.entries[t.byNative[key]]) == key;
      }
    }
    if KeysCovered(s, t.byNative.Keys) {
      forall id | id in t.entries && RequestKey(t.entries[id].native) != ""
        ensures RequestKey(t.entries[id].native) in Handled(s, PlaceOf(t.entries[id]))
      {
        assert P.NativeKeyOf(t.entries[id]) in t.byNative.Keys;
      }
    }
  }

  lemma KeysAfterResolved(t: P.Table, id: Id, runtime: Option<Id>)
    requires P.Inv(t)
    ensures P.Resolved(t, id, runtime).byNative.Keys
         == if P.Direct(t, id, runtime).Some? then t.byNative.Keys - {P.NativeKeyOf(t.entries[id])} else t.byNative.Keys
  {
    hide P.OwnersAgree, P.MirrorsAgree, RequestKey;
  }

  lemma KeysAfterClears(t: P.Table, session: Id, runtime: Option<Id>, cleared: Id)
    requires P.Inv(t)
    ensures P.ClearedSession(t, session, runtime).byNative.Keys
         == set key | key in t.byNative.Keys && !Concerned(Place(key.0, key.1), session, runtime)
    ensures P.ClearedRuntime(t, cleared).byNative.Keys == set key | key in t.byNative.Keys && key.0 != cleared
  {
    hide P.OwnersAgree, P.MirrorsAgree, RequestKey, P.WithoutIds;
  }

  lemma {:induction false} KeysAfterRoute(t: P.Table, ids: seq<Id>, route: SubagentLinks.Route)
    ensures P.ApplyTo(t, ids, route).table.byNative == t.byNative
    decreases |ids|
  {
    if ids == [] {
    } else {
      KeysAfterRoute(t, ids[..|ids| - 1], route);
    }
  }

  // ---------------------------------------------------------------------------------------------
  // Shape
  // ---------------------------------------------------------------------------------------------

  lemma AskedTables(s: Server, a: Arrival, kind: Kind, book: nat)
    requires P.Inv(s.approvals) && P.Inv(s.questions)
    ensures P.Inv(Asked(s, a, kind, book).approvals) && P.Inv(Asked(s, a, kind, book).questions)
  {
    var t, key := TableOf(s, kind), RequestKey(a.native);
    AddedKeepsInv(t, RegistrationOf(a));
    ResolvedKeepsInv(P.Added(t, RegistrationOf(a)), t.next, Some(a.place.runtime));
    hide P.Inv, P.Added, P.Resolved, P.IsNew, RequestKey, Marked, Unmarked;
    MarkedTables(s, book, key);
    var undone := P.Resolved(P.Added(t, RegistrationOf(a)), t.next, Some(a.place.runtime));
    MarkedTables(WithTable(Marked(s, book, key), kind, undone), book, key);
  }

  lemma ArrivedIsWellFormed(s: Server, a: Arrival)
    requires WellFormed(s)
    ensures WellFormed(Arrived(s, a))
  {
    hide P.Inv, P.Added, P.Resolved, P.IsNew, RequestKey, BooksFit, Attached, Marked, Unmarked;
    AttachedFacts(s, a.place, a.turnBook);
    var attached := Attached(s, a.place, a.turnBook);
    AttachedTables(s, a.place, a.turnBook);
    BookInRange(attached, a.place);
    var book := attached.bookOf[a.place];
    MarkedFacts(attached, book, RequestKey(a.native));
    MarkedTables(attached, book, RequestKey(a.native));
    if a.treatment.Ask? {
      AskedTables(attached, a, a.treatment.kind, book);
      AskedBooks(attached, a, a.treatment.kind, book);
    } else {
      AnsweringFits(attached, a.place, book, RequestKey(a.native));
    }
    hide Asked;
  }

  lemma AttachedTables(s: Server, place: Place, turnBook: Option<nat>)
    ensures var s' := Attached(s, place, turnBook); s' == s.(books := s'.books, bookOf := s'.bookOf)
  {
  }

  lemma MarkedTables(s: Server, book: nat, key: string)
    ensures Marked(s, book, key) == s.(books := Marked(s, book, key).books)
    ensures Unmarked(s, book, key) == s.(books := Unmarked(s, book, key).books)
    ensures |Marked(s, book, key).books| == |s.books| == |Unmarked(s, book, key).books|
  {
  }

  lemma BookInRange(s: Server, place: Place)
    requires BooksFit(s) && place in s.bookOf
    ensures s.bookOf[place] < |s.books|
  {
  }

  lemma FitDependsOnBooks(s: Server, s': Server)
    requires BooksFit(s) && s'.books == s.books && s'.bookOf == s.bookOf && s'.answers <= s.answers
    ensures BooksFit(s') && forall p: Place :: Handled(s', p) == Handled(s, p)
  {
  }

  lemma AnsweringFits(s: Server, place: Place, book: nat, key: string)
    requires BooksFit(s) && book < |s.books|
    ensures BooksFit(Answering(Marked(s, book, key), Answer(place, book, key)))
  {
  }

  lemma AskedBooks(s: Server, a: Arrival, kind: Kind, book: nat)
    requires BooksFit(s) && book < |s.books|
    ensures BooksFit(Asked(s, a, kind, book))
  {
    var key := RequestKey(a.native);
    MarkedFacts(s, book, key);
    MarkedTables(s, book, key);
    var marked := Marked(s, book, key);
    var t := TableOf(s, kind);
    var added := P.Added(t, RegistrationOf(a));
    FitDependsOnBooks(marked, WithTable(marked, kind, added));
    var undone := WithTable(marked, kind, P.Resolved(added, t.next, Some(a.place.runtime)));
    FitDependsOnBooks(marked, undone);
    UnmarkedFacts(undone, book, key);
    hide P.Added, P.Resolved, P.IsNew, RequestKey, BooksFit, Marked, Unmarked;
  }

  lemma NextIsWellFormed(s: Server, step: Step)
    requires WellFormed(s)
    ensures WellFormed(Next(s, step))
  {
    hide P.Inv, BooksFit, Arrived, Forgotten, Unmarked, LookupNative, P.Resolved, P.Claimed, P.MayClaim, P.RequireForSession;
    hide P.Released, P.Bound, P.ClearedSession, P.ClearedRuntime;
    match step
    case Arrive(a) => ArrivedIsWellFormed(s, a);
    case EndAnswer(answer, _) =>
      if answer in s.answers {
        var ended := AnswerEnded(s, answer, true);
        FitDependsOnBooks(s, ended);
        AnswerInRange(s, answer);
        UnmarkedFacts(ended, answer.book, answer.key);
        MarkedTables(ended, answer.book, answer.key);
      }
    case StartReply(kind, id, session, runtime) =>
      OtherIsWellFormed(s, step);
    case FailReply(reply, releases) =>
      OtherIsWellFormed(s, step);
    case CompleteReply(reply) =>
      ResolvedKeepsInv(TableOf(s, reply.kind), reply.entry.id, Some(reply.entry.runtime));
      var t := P.Resolved(TableOf(s, reply.kind), reply.entry.id, Some(reply.entry.runtime));
      var resolved := WithTable(s.(replies := s.replies - {reply}), reply.kind, t);
      FitDependsOnBooks(s, resolved);
      ForgottenFacts(resolved, PlaceOf(reply.entry), RequestKey(reply.entry.native));
      ForgottenTables(resolved, PlaceOf(reply.entry), RequestKey(reply.entry.native));
    case ResolveNatively(place, native, emits) =>
      var found := LookupNative(s, PlaceKey(place, native));
      if found.IsPending? {
        ResolvedKeepsInv(TableOf(s, found.kind), found.entry.id, Some(found.entry.runtime));
        var t := P.Resolved(TableOf(s, found.kind), found.entry.id, Some(found.entry.runtime));
        var resolved := WithTable(s, found.kind, t);
        FitDependsOnBooks(s, resolved);
        ForgottenFacts(resolved, PlaceOf(found.entry), RequestKey(native));
        ForgottenTables(resolved, PlaceOf(found.entry), RequestKey(native));
      }
    case LearnRoute(route) =>
      OtherIsWellFormed(s, step);
    case BindActiveTurn(session, turn) =>
      OtherIsWellFormed(s, step);
    case ReleaseSession(session, runtime) =>
      ClearedSessionKeepsInv(s.approvals, session, runtime);
      ClearedSessionKeepsInv(s.questions, session, runtime);
      FewerBooks(s, Next(s, step));
    case ReleaseRuntime(runtime) =>
      StepKeepsInv(s.approvals, P.ClearRuntime(runtime));
      StepKeepsInv(s.questions, P.ClearRuntime(runtime));
      FewerBooks(s, Next(s, step));
  }

  predicate IsOther(step: Step) {
    step.StartReply? || step.FailReply? || step.LearnRoute? || step.BindActiveTurn?
  }

  lemma OtherIsWellFormed(s: Server, step: Step)
    requires WellFormed(s) && IsOther(step)
    ensures WellFormed(Next(s, step))
  {
    hide P.Inv, BooksFit, P.Claimed, P.MayClaim, P.RequireForSession, P.Released, P.Bound, P.Applied;
    match step
    case StartReply(kind, id, session, runtime) =>
      ClaimedKeepsInv(TableOf(s, kind), id, session, runtime);
      FitDependsOnBooks(s, Next(s, step));
    case FailReply(reply, releases) =>
      StepKeepsInv(TableOf(s, reply.kind), P.Release(reply.entry.id, Some(reply.entry.runtime)));
      FitDependsOnBooks(s, Next(s, step));
    case LearnRoute(route) =>
      StepKeepsInv(s.approvals, P.ApplyRoute(route));
      StepKeepsInv(s.questions, P.ApplyRoute(route));
      FitDependsOnBooks(s, Next(s, step));
    case BindActiveTurn(session, turn) =>
      BoundKeepsInv(s.approvals, session, turn);
      BoundKeepsInv(s.questions, session, turn);
      FitDependsOnBooks(s, Next(s, step));
    case _ =>
  }

  lemma AnswerInRange(s: Server, answer: Answer)
    requires BooksFit(s) && answer in s.answers
    ensures answer.book < |s.books|
  {
  }

  lemma ForgottenTables(s: Server, place: Place, key: string)
    ensures var s' := Forgotten(s, place, key); s' == s.(books := s'.books, bookOf := s'.bookOf)
  {
  }

  lemma FewerBooks(s: Server, s': Server)
    requires BooksFit(s) && s'.books == s.books && s'.answers == s.answers
    requires forall p <- s'.bookOf :: p in s.bookOf && s'.bookOf[p] == s.bookOf[p]
    ensures BooksFit(s')
    ensures forall p: Place :: Handled(s', p) == if p in s'.bookOf then Handled(s, p) else {}
  {
  }

  // ---------------------------------------------------------------------------------------------
  // Arriving requests
  // ---------------------------------------------------------------------------------------------

  ghost predicate AllCovered(s: Server, approvals: Keys, questions: Keys) {
    KeysCovered(s, approvals) && KeysCovered(s, questions)
  }

  lemma CoveredIsAllCovered(s: Server)
    requires WellFormed(s)
    ensures Covered(s) <==> AllCovered(s, s.approvals.byNative.Keys, s.questions.byNative.Keys)
  {
    CoveredByKeys(s, s.approvals);
    CoveredByKeys(s, s.questions);
  }

  lemma MoreHandled(s: Server, s': Server, keys: Keys)
    requires KeysCovered(s, keys) && forall p: Place :: Handled(s, p) <= Handled(s', p)
    ensures KeysCovered(s', keys)
  {
    hide Handled;
  }

  /**
   * A failed announcement restores the handled keys and every index of the pending input; only the
   * occurrence id is used up.
   */
  lemma FailedAnnouncementRestores(s: Server, a: Arrival)
    requires WellFormed(s) && a.treatment.Ask? && a.admissible && !a.emits
    requires !IsHandled(Attached(s, a.place, a.turnBook), a)
    requires P.IsNew(TableOf(s, a.treatment.kind), RegistrationOf(a))
    ensures var t := TableOf(s, a.treatment.kind);
            Arrived(s, a) == WithTable(Attached(s, a.place, a.turnBook), a.treatment.kind, t.(next := t.next + 1))
  {
    hide P.Inv, P.Added, P.Resolved, P.IsNew, RequestKey, BooksFit, Attached;
    AttachedFacts(s, a.place, a.turnBook);
    AttachedTables(s, a.place, a.turnBook);
    var attached := Attached(s, a.place, a.turnBook);
    BookInRange(attached, a.place);
    var t := TableOf(s, a.treatment.kind);
    ResolveUndoesAdd(t, RegistrationOf(a));
    var book, key := attached.bookOf[a.place], RequestKey(a.native);
    assert key != "" ==> attached.books[book].keys + {key} - {key} == attached.books[book].keys;
    assert Unmarked(Marked(attached, book, key), book, key).books == attached.books;
  }

  lemma AskedKeepsCoverage(s: Server, a: Arrival, kind: Kind, book: nat)
    requires WellFormed(s) && Covered(s) && Holds(s, a.place, book) && !IsHandled(s, a)
    ensures Covered(Asked(s, a, kind, book))
  {
    hide P.Inv, BooksFit, CoveredIn, Marked, Unmarked, KeysCovered, P.IsNew, RequestKey, Handled;
    var t, key := TableOf(s, kind), RequestKey(a.native);
    var after := Asked(s, a, kind, book);
    AskedTables(s, a, kind, book);
    BookInRange(s, a.place);
    AskedBooks(s, a, kind, book);
    CoveredIsAllCovered(s);
    CoveredIsAllCovered(after);
    MarkedFacts(s, book, key);
    MarkedTables(s, book, key);
    var marked := Marked(s, book, key);
    MoreHandled(s, marked, s.approvals.byNative.Keys);
    MoreHandled(s, marked, s.questions.byNative.Keys);
    if P.IsNew(t, RegistrationOf(a)) {
      if a.emits {
        OneMoreCovered(marked, t.byNative.Keys, P.InputKey(RegistrationOf(a)));
        SameHandled(marked, after, s.approvals.byNative.Keys);
        SameHandled(marked, after, s.questions.byNative.Keys);
        SameHandled(marked, after, t.byNative.Keys + {P.InputKey(RegistrationOf(a))});
        assert P.Added(t, RegistrationOf(a)).byNative.Keys == t.byNative.Keys + {P.InputKey(RegistrationOf(a))};
      } else {
        ResolveUndoesAdd(t, RegistrationOf(a));
        UnmarkUndoesMark(s, book, key, a.place);
        UnmarkedElsewhere(marked, book, key, kind, P.Resolved(P.Added(t, RegistrationOf(a)), t.next, Some(a.place.runtime)));
        SameHandled(s, after, s.approvals.byNative.Keys);
        SameHandled(s, after, s.questions.byNative.Keys);
      }
    }
  }

  lemma SameHandled(s: Server, s': Server, keys: Keys)
    requires KeysCovered(s, keys) && s'.books == s.books && s'.bookOf == s.bookOf
    ensures KeysCovered(s', keys)
  {
  }

  lemma OneMoreCovered(s: Server, keys: Keys, key: P.NativeKey)
    requires KeysCovered(s, keys) && (key.2 != "" ==> key.2 in HandledAt(s, key))
    ensures KeysCovered(s, keys + {key})
  {
  }

  lemma UnmarkUndoesMark(s: Server, book: nat, key: string, place: Place)
    requires BooksFit(s) && Holds(s, place, book) && (key == "" || key !in Handled(s, place))
    ensures Unmarked(Marked(s, book, key), book, key) == s
  {
    if key != "" {
      assert s.books[book].keys + {key} - {key} == s.books[book].keys;
    }
  }

  lemma UnmarkedElsewhere(s: Server, book: nat, key: string, kind: Kind, t: P.Table)
    ensures Unmarked(WithTable(s, kind, t), book, key) == WithTable(Unmarked(s, book, key), kind, t)
  {
  }

  lemma ArrivedKeepsCoverage(s: Server, a: Arrival)
    requires WellFormed(s) && Covered(s)
    ensures Covered(Arrived(s, a))
  {
    hide P.Inv, BooksFit, CoveredIn, Marked, Attached, Asked, KeysCovered, RequestKey, Handled;
    AttachedFacts(s, a.place, a.turnBook);
    AttachedTables(s, a.place, a.turnBook);
    var attached := Attached(s, a.place, a.turnBook);
    CoveredIsAllCovered(s);
    CoveredIsAllCovered(attached);
    MoreHandled(s, attached, s.approvals.byNative.Keys);
    MoreHandled(s, attached, s.questions.byNative.Keys);
    BookInRange(attached, a.place);
    var book, key := attached.bookOf[a.place], RequestKey(a.native);
    if !IsHandled(attached, a) && a.admissible {
      if a.treatment.Ask? {
        AskedKeepsCoverage(attached, a, a.treatment.kind, book);
      } else {
        var after := Arrived(s, a);
        MarkedFacts(attached, book, key);
        MarkedTables(attached, book, key);
        ArrivedIsWellFormed(s, a);
        CoveredIsAllCovered(after);
        MoreHandled(attached, Marked(attached, book, key), s.approvals.byNative.Keys);
        MoreHandled(attached, Marked(attached, book, key), s.questions.byNative.Keys);
        SameHandled(Marked(attached, book, key), after, s.approvals.byNative.Keys);
        SameHandled(Marked(attached, book, key), after, s.questions.byNative.Keys);
      }
    }
  }

  // ---------------------------------------------------------------------------------------------
  // Forgetting
  // ---------------------------------------------------------------------------------------------

  lemma CoveredAfterForgetting(s: Server, keys: Keys, key: P.NativeKey)
    requires BooksFit(s) && KeysCovered(s, keys - {key})
    ensures KeysCovered(Forgotten(s, Place(key.0, key.1), key.2), keys) <==> key.2 == "" || key !in keys
    ensures KeysCovered(Forgotten(s, Place(key.0, key.1), key.2), keys - {key})
  {
    ForgottenFacts(s, Place(key.0, key.1), key.2);
    hide Forgotten, Handled, BooksFit;
    var after := Forgotten(s, Place(key.0, key.1), key.2);
    forall k | k in keys - {key} && k.2 != "" ensures k.2 in HandledAt(after, k) {
      assert k == (k.0, k.1, k.2) && key == (key.0, key.1, key.2);
    }
    assert key.2 !in HandledAt(after, key);
    if key.2 == "" || key !in keys {
      forall k | k in keys && k.2 != "" ensures k.2 in HandledAt(after, k) {
      }
    }
  }

  lemma CoveredAfterUnmarking(s: Server, keys: Keys, book: nat, key: string)
    requires BooksFit(s) && book < |s.books| && KeysCovered(s, keys)
    ensures var place := s.books[book].place;
            KeysCovered(Unmarked(s, book, key), keys)
            <==> key == "" || !Holds(s, place, book) || (place.runtime, place.thread, key) !in keys
  {
    UnmarkedFacts(s, book, key);
    var place := s.books[book].place;
    assert forall p: Place | Holds(s, p, book) :: p == place;
    hide Unmarked, Handled, BooksFit, Holds;
    var after := Unmarked(s, book, key);
    assert KeysCovered(after, keys) && (place.runtime, place.thread, key) in keys && key != ""
           ==> key in HandledAt(after, (place.runtime, place.thread, key));
    forall k | k in keys && k.2 != ""
      ensures k.2 in HandledAt(after, k) || (k == (place.runtime, place.thread, key) && key != "" && Holds(s, place, book))
    {
      assert k == (k.0, k.1, k.2);
    }
  }

  /** The end of an automatic answer, even a failure, unmarks no pending request. */
  lemma EndingAnswerKeepsCoverage(s: Server, answer: Answer, succeeds: bool)
    requires WellFormed(s) && Covered(s) && Serialized(s)
    ensures Covered(Next(s, EndAnswer(answer, succeeds)))
  {
    hide P.Inv, BooksFit, CoveredIn, Unmarked, KeysCovered, Handled, AnswerFits;
    var after := Next(s, EndAnswer(answer, succeeds));
    NextIsWellFormed(s, EndAnswer(answer, succeeds));
    CoveredIsAllCovered(s);
    CoveredIsAllCovered(after);
    if answer in s.answers {
      var ended := AnswerEnded(s, answer, true);
      AnswerInRange(s, answer);
      FitDependsOnBooks(s, ended);
      SameHandled(s, ended, s.approvals.byNative.Keys);
      SameHandled(s, ended, s.questions.byNative.Keys);
      MarkedTables(ended, answer.book, answer.key);
      CoveredAfterUnmarking(ended, s.approvals.byNative.Keys, answer.book, answer.key);
      CoveredAfterUnmarking(ended, s.questions.byNative.Keys, answer.book, answer.key);
      AnswerCoversNothing(s, answer);
    }
  }

  /** Nobody uses the set that an answer holds, or nothing is pending under its key. */
  lemma AnswerCoversNothing(s: Server, answer: Answer)
    requires Serialized(s) && BooksFit(s) && answer in s.answers
    ensures answer.book < |s.books| && s.books[answer.book].place == answer.place
    ensures answer.key == "" || !Holds(s, answer.place, answer.book)
            || !IsPendingKey(s, (answer.place.runtime, answer.place.thread, answer.key))
  {
    assert AnswerFits(s, answer);
  }

  lemma KeysWithout(t: P.Table, id: Id, key: P.NativeKey)
    requires P.Inv(t)
    ensures var keys := P.Resolved(t, id, Some(key.0)).byNative.Keys;
            && keys <= t.byNative.Keys
            && (key in keys <==> key in t.byNative && t.byNative[key] != id)
  {
    KeysAfterResolved(t, id, Some(key.0));
    hide P.OwnersAgree, P.MirrorsAgree, RequestKey;
  }

  lemma FewerKeys(s: Server, keys: Keys, fewer: Keys)
    requires KeysCovered(s, keys) && fewer <= keys
    ensures KeysCovered(s, fewer)
  {
  }

  /** The occurrence is resolved and its key forgotten, in a state that is covered. */
  function Finished(s: Server, kind: Kind, id: Id, key: P.NativeKey): Server {
    Forgotten(WithTable(s, kind, P.Resolved(TableOf(s, kind), id, Some(key.0))), Place(key.0, key.1), key.2)
  }

  lemma FinishingUncoversIff(s: Server, kind: Kind, id: Id, key: P.NativeKey)
    requires WellFormed(s) && Covered(s)
    ensures WellFormed(Finished(s, kind, id, key))
    ensures Covered(Finished(s, kind, id, key)) <==> key.2 == "" || !HasOther(s, kind, id, key)
  {
    hide P.Inv, BooksFit, CoveredIn, Forgotten, KeysCovered, P.NativeEntry, P.Resolved, Handled;
    var t := P.Resolved(TableOf(s, kind), id, Some(key.0));
    var resolved := WithTable(s, kind, t);
    var after := Finished(s, kind, id, key);
    ResolvedKeepsInv(TableOf(s, kind), id, Some(key.0));
    FitDependsOnBooks(s, resolved);
    ForgottenFacts(resolved, Place(key.0, key.1), key.2);
    ForgottenTables(resolved, Place(key.0, key.1), key.2);
    CoveredIsAllCovered(s);
    CoveredIsAllCovered(after);
    KeysArePending(s.approvals);
    KeysArePending(s.questions);
    KeysWithout(TableOf(s, kind), id, key);
    SameHandled(s, resolved, s.approvals.byNative.Keys);
    SameHandled(s, resolved, s.questions.byNative.Keys);
    ForgettingIn(resolved, s.approvals.byNative.Keys, after.approvals.byNative.Keys, key);
    ForgettingIn(resolved, s.questions.byNative.Keys, after.questions.byNative.Keys, key);
  }

  lemma ForgettingIn(s: Server, before: Keys, keys: Keys, key: P.NativeKey)
    requires BooksFit(s) && KeysCovered(s, before) && keys <= before
    ensures KeysCovered(Forgotten(s, Place(key.0, key.1), key.2), keys) <==> key.2 == "" || key !in keys
  {
    FewerKeys(s, before, keys - {key});
    CoveredAfterForgetting(s, keys, key);
  }

  lemma CompletingReplyUncoversIff(s: Server, reply: Reply)
    requires WellFormed(s) && Covered(s) && reply in s.replies
    ensures Covered(ReplyCompleted(s, reply)) <==> !Uncovers(s, CompleteReply(reply))
  {
    hide WellFormed, CoveredIn, Forgotten, P.Resolved, P.NativeEntry, RequestKey;
    var s' := s.(replies := s.replies - {reply});
    SameButReplies(s, s');
    FinishingUncoversIff(s', reply.kind, reply.entry.id, P.NativeKeyOf(reply.entry));
  }

  lemma SameButReplies(s: Server, s': Server)
    requires WellFormed(s) && Covered(s) && s' == s.(replies := s'.replies)
    ensures WellFormed(s') && Covered(s')
  {
    hide P.Inv;
  }

  lemma ResolvingNativelyKeepsCoverage(s: Server, place: Place, native: RequestId, emits: bool)
    requires WellFormed(s) && Covered(s)
    ensures Covered(NativelyResolved(s, place, native, emits))
  {
    var found := LookupNative(s, PlaceKey(place, native));
    if found.IsPending? {
      var key := PlaceKey(place, native);
      FoundByKey(s, key);
      ResolvingKeepsCoverage(s, found.kind, found.entry.id, key.0);
      hide WellFormed, CoveredIn, Forgotten, P.Resolved, RequestKey, P.NativeEntry;
      FinishingUncoversIff(s, found.kind, found.entry.id, key);
    }
  }

  lemma FoundByKey(s: Server, key: P.NativeKey)
    requires WellFormed(s) && LookupNative(s, key).IsPending?
    ensures var found := LookupNative(s, key);
            P.NativeKeyOf(found.entry) == key && !HasOther(s, found.kind, found.entry.id, key)
  {
    KeysArePending(s.approvals);
    KeysArePending(s.questions);
    hide P.OwnersAgree, P.MirrorsAgree, RequestKey;
  }

  lemma ResolvingKeepsCoverage(s: Server, kind: Kind, id: Id, runtime: Id)
    requires WellFormed(s) && Covered(s)
    ensures Covered(WithTable(s, kind, P.Resolved(TableOf(s, kind), id, Some(runtime))))
  {
    hide P.Inv;
  }

  // ---------------------------------------------------------------------------------------------
  // Runs
  // ---------------------------------------------------------------------------------------------

  /** What a step that forgets nothing must do: keep the handled keys of the keys it leaves. */
  lemma CoverageCarriesOver(s: Server, s': Server)
    requires WellFormed(s) && Covered(s) && WellFormed(s')
    requires s'.approvals.byNative.Keys <= s.approvals.byNative.Keys
    requires s'.questions.byNative.Keys <= s.questions.byNative.Keys
    requires forall key: P.NativeKey | key in s'.approvals.byNative || key in s'.questions.byNative ::
               HandledAt(s', key) == HandledAt(s, key)
    ensures Covered(s')
  {
    CoveredIsAllCovered(s);
    CoveredIsAllCovered(s');
    hide P.Inv, BooksFit, CoveredIn, HandledAt;
  }

  lemma ReleasesKeepCoverage(s: Server, session: Id, runtime: Option<Id>, released: Id)
    requires WellFormed(s) && Covered(s)
    ensures Covered(SessionCleared(s, session, runtime)) && Covered(RuntimeCleared(s, released))
  {
    hide P.Inv, BooksFit, CoveredIn, P.ClearedSession, P.ClearedRuntime;
    KeysAfterClears(s.approvals, session, runtime, released);
    KeysAfterClears(s.questions, session, runtime, released);
    NextIsWellFormed(s, ReleaseSession(session, runtime));
    NextIsWellFormed(s, ReleaseRuntime(released));
    FewerBooks(s, SessionCleared(s, session, runtime));
    FewerBooks(s, RuntimeCleared(s, released));
    CoverageCarriesOver(s, SessionCleared(s, session, runtime));
    CoverageCarriesOver(s, RuntimeCleared(s, released));
  }

  lemma KeepsNatives(t: P.Table, id: Id, session: Id, runtime: Option<Id>, turn: P.Turn, route: SubagentLinks.Route)
    ensures P.Claimed(t, id, session, runtime).byNative == t.byNative
    ensures P.Released(t, id, runtime).byNative == t.byNative
    ensures P.Bound(t, session, turn).byNative == t.byNative
    ensures P.Applied(t, route).table.byNative == t.byNative
  {
    KeysAfterRoute(t, P.At(t.owned, route.child), route);
    hide P.MayClaim, P.ApplyTo, P.At, P.IdsOfSession;
  }

  lemma OtherStepsKeepKeys(s: Server, step: Step)
    requires IsOther(step)
    ensures var after := Next(s, step);
            && after.approvals.byNative == s.approvals.byNative && after.questions.byNative == s.questions.byNative
            && after.books == s.books && after.bookOf == s.bookOf
  {
    hide P.MayClaim, P.RequireForSession, P.Claimed, P.Released, P.Bound, P.Applied;
    var anyTurn, anyRoute := P.Turn(0, 0, 0), SubagentLinks.Route(0, 0, 0, SubagentLinks.CorrelationKey(0, 0));
    match step
    case StartReply(kind, id, session, runtime) =>
      KeepsNatives(TableOf(s, kind), id, session, runtime, anyTurn, anyRoute);
    case FailReply(reply, releases) =>
      KeepsNatives(TableOf(s, reply.kind), reply.entry.id, 0, Some(reply.entry.runtime), anyTurn, anyRoute);
    case LearnRoute(route) =>
      KeepsNatives(s.approvals, 0, 0, None, anyTurn, route);
      KeepsNatives(s.questions, 0, 0, None, anyTurn, route);
    case BindActiveTurn(session, turn) =>
      KeepsNatives(s.approvals, 0, session, None, turn, anyRoute);
      KeepsNatives(s.questions, 0, session, None, turn, anyRoute);
    case _ =>
  }

  lemma OtherStepsKeepCoverage(s: Server, step: Step)
    requires WellFormed(s) && Covered(s) && IsOther(step)
    ensures Covered(Next(s, step))
  {
    hide P.Inv, BooksFit, CoveredIn, Next, IsOther;
    NextIsWellFormed(s, step);
    OtherStepsKeepKeys(s, step);
    CoverageCarriesOver(s, Next(s, step));
  }

  // ---------------------------------------------------------------------------------------------
  // One automatic answer at a time
  // ---------------------------------------------------------------------------------------------

  ghost predicate SamePlaces(s: Server, s': Server) {
    && |s.books| <= |s'.books|
    && forall b: nat | b < |s.books| :: s'.books[b].place == s.books[b].place
  }

  /** What a step must do that neither starts nor ends an automatic answer, and releases no runtime. */
  lemma SerializedCarriesOver(s: Server, s': Server)
    requires Serialized(s) && SamePlaces(s, s')
    requires s'.busy == s.busy && s'.answers == s.answers && s'.firstBook == s.firstBook
    requires forall p <- s'.bookOf :: FirstBook(s, p.runtime) <= s'.bookOf[p]
    requires forall key: P.NativeKey | IsPendingKey(s', key) :: IsPendingKey(s, key) || key.0 !in s.busy
    ensures Serialized(s')
  {
    hide IsPendingKey;
    forall answer <- s'.answers ensures AnswerFits(s', answer) {
      assert AnswerFits(s, answer);
    }
  }

  lemma AttachedIsSerialized(s: Server, place: Place, turnBook: Option<nat>)
    requires Serialized(s)
    ensures Serialized(Attached(s, place, turnBook))
  {
    var after := Attached(s, place, turnBook);
    AttachedTables(s, place, turnBook);
    assert SamePlaces(s, after);
    assert forall p <- after.bookOf :: FirstBook(s, p.runtime) <= after.bookOf[p];
    hide Attached, Serialized;
    SerializedCarriesOver(s, after);
  }

  lemma MarksKeepPlaces(s: Server, book: nat, key: string, place: Place)
    ensures SamePlaces(s, Marked(s, book, key)) && SamePlaces(s, Unmarked(s, book, key))
    ensures SamePlaces(s, Forgotten(s, place, key))
  {
  }

  lemma AskedKeepsBooks(s: Server, a: Arrival, kind: Kind, book: nat)
    ensures var after := Asked(s, a, kind, book);
            && SamePlaces(s, after) && after.bookOf == s.bookOf
            && after.busy == s.busy && after.answers == s.answers && after.firstBook == s.firstBook
  {
    var key := RequestKey(a.native);
    MarkedTables(s, book, key);
    MarksKeepPlaces(s, book, key, a.place);
    var undone := WithTable(Marked(s, book, key), kind,
                            P.Resolved(P.Added(TableOf(s, kind), RegistrationOf(a)), TableOf(s, kind).next, Some(a.place.runtime)));
    MarkedTables(undone, book, key);
    MarksKeepPlaces(undone, book, key, a.place);
    hide Marked, Unmarked, P.Added, P.Resolved, P.IsNew, RequestKey;
  }

  lemma AskedIsSerialized(s: Server, a: Arrival, kind: Kind, book: nat)
    requires WellFormed(s) && Serialized(s) && a.place.runtime !in s.busy
    ensures Serialized(Asked(s, a, kind, book))
  {
    var after := Asked(s, a, kind, book);
    AskedKeepsBooks(s, a, kind, book);
    TableIsWellFormed(s, kind);
    KeysAfterAsking(s, a, kind, book, Approval);
    KeysAfterAsking(s, a, kind, book, Question);
    hide P.Inv, BooksFit, Asked, AnswerFits, RequestKey, P.IsNew, SamePlaces, FirstBook;
    forall key: P.NativeKey | IsPendingKey(after, key) ensures IsPendingKey(s, key) || key.0 !in s.busy {
      assert key in KeysOf(after, Approval) || key in KeysOf(after, Question);
    }
    assert forall p <- after.bookOf :: FirstBook(s, p.runtime) <= after.bookOf[p];
    hide Serialized;
    SerializedCarriesOver(s, after);
  }

  lemma AnsweringIsSerialized(s: Server, place: Place, key: string)
    requires BooksFit(s) && Serialized(s) && place in s.bookOf && place.runtime !in s.busy
    requires key != "" ==> !IsPendingKey(s, (place.runtime, place.thread, key))
    ensures Serialized(Answering(Marked(s, s.bookOf[place], key), Answer(place, s.bookOf[place], key)))
  {
    var book := s.bookOf[place];
    BookInRange(s, place);
    MarkedTables(s, book, key);
    MarksKeepPlaces(s, book, key, place);
    var started := Answer(place, book, key);
    var after := Answering(Marked(s, book, key), started);
    hide Marked, IsPendingKey;
    forall answer <- after.answers ensures AnswerFits(after, answer) {
      if answer != started {
        assert AnswerFits(s, answer);
        assert IsPendingKey(after, (answer.place.runtime, answer.place.thread, answer.key))
          == IsPendingKey(s, (answer.place.runtime, answer.place.thread, answer.key)) by {
          SamePending(s, after, (answer.place.runtime, answer.place.thread, answer.key));
        }
      } else {
        SamePending(s, after, (place.runtime, place.thread, key));
      }
    }
  }

  lemma SamePending(s: Server, s': Server, key: P.NativeKey)
    requires s'.approvals == s.approvals && s'.questions == s.questions
    ensures IsPendingKey(s', key) == IsPendingKey(s, key)
  {
  }

  lemma ArrivedIsSerialized(s: Server, a: Arrival)
    requires WellFormed(s) && Covered(s) && Serialized(s) && a.place.runtime !in s.busy
    ensures Serialized(Arrived(s, a))
  {
    hide P.Inv, BooksFit, CoveredIn, Attached, Asked, Serialized, RequestKey, Handled, Marked, IsPendingKey;
    AttachedFacts(s, a.place, a.turnBook);
    AttachedTables(s, a.place, a.turnBook);
    AttachedIsSerialized(s, a.place, a.turnBook);
    var attached := Attached(s, a.place, a.turnBook);
    if !IsHandled(attached, a) && a.admissible {
      if a.treatment.Ask? {
        AskedIsSerialized(attached, a, a.treatment.kind, attached.bookOf[a.place]);
      } else {
        if RequestKey(a.native) != "" {
          EmptyKeyIff(a.native);
          UnhandledIsNotPending(s, a);
          SamePending(s, attached, PlaceKey(a.place, a.native));
          NotPendingKey(s, PlaceKey(a.place, a.native));
        }
        AnsweringIsSerialized(attached, a.place, RequestKey(a.native));
      }
    }
  }

  lemma NotPendingKey(s: Server, key: P.NativeKey)
    requires key !in s.approvals.byNative && key !in s.questions.byNative
    ensures !IsPendingKey(s, key)
  {
  }

  lemma EndedIsSerialized(s: Server, answer: Answer, succeeds: bool)
    requires Serialized(s) && answer in s.answers
    ensures Serialized(AnswerEnded(s, answer, succeeds))
  {
    var after := AnswerEnded(s, answer, succeeds);
    var ended := AnswerEnded(s, answer, true);
    MarkedTables(ended, answer.book, answer.key);
    MarksKeepPlaces(ended, answer.book, answer.key, answer.place);
    hide Unmarked, IsPendingKey;
    forall other <- after.answers ensures AnswerFits(after, other) {
      assert AnswerFits(s, other) && other != answer;
      SamePending(s, after, (other.place.runtime, other.place.thread, other.key));
    }
  }

  lemma ReleasingAddsNoKey(s: Server, runtime: Id)
    requires WellFormed(s)
    ensures forall key: P.NativeKey | IsPendingKey(RuntimeCleared(s, runtime), key) :: IsPendingKey(s, key)
  {
    KeysAfterClears(s.approvals, 0, None, runtime);
    KeysAfterClears(s.questions, 0, None, runtime);
    hide P.Inv, P.ClearedRuntime, BooksFit, P.ClearedSession;
    var after := RuntimeCleared(s, runtime);
    assert after.approvals.byNative.Keys <= s.approvals.byNative.Keys;
    assert after.questions.byNative.Keys <= s.questions.byNative.Keys;
  }

  lemma ReleasedIsSerialized(s: Server, runtime: Id)
    requires WellFormed(s) && Serialized(s)
    ensures Serialized(RuntimeCleared(s, runtime))
  {
    var after := RuntimeCleared(s, runtime);
    ReleasingAddsNoKey(s, runtime);
    hide WellFormed, P.ClearedRuntime, IsPendingKey;
    forall answer <- after.answers ensures AnswerFits(after, answer) {
      assert AnswerFits(s, answer);
    }
    hide AnswerFits;
  }

  /** The events and answers are as they were, and no thread has another set of handled keys. */
  ghost predicate SameAnswers(s: Server, s': Server) {
    && SamePlaces(s, s')
    && s'.busy == s.busy && s'.answers == s.answers && s'.firstBook == s.firstBook
    && forall p <- s'.bookOf :: p in s.bookOf && s'.bookOf[p] == s.bookOf[p]
  }

  lemma ForgottenKeepsAnswers(s: Server, replies: set<Reply>, kind: Kind, t: P.Table, place: Place, key: string)
    ensures SameAnswers(s, Forgotten(WithTable(s.(replies := replies), kind, t), place, key))
    ensures SameAnswers(s, WithTable(s.(replies := replies), kind, t))
  {
  }

  lemma ForgettingKeepsAnswers(s: Server, step: Step)
    requires step.CompleteReply? || step.ResolveNatively? || step.ReleaseSession? || IsOther(step)
    ensures SameAnswers(s, Next(s, step))
  {
    match step
    case CompleteReply(reply) =>
      hide Forgotten, WithTable, P.Resolved, RequestKey, SameAnswers;
      var t := P.Resolved(TableOf(s, reply.kind), reply.entry.id, Some(reply.entry.runtime));
      ForgottenKeepsAnswers(s, s.replies - {reply}, reply.kind, t, PlaceOf(reply.entry), RequestKey(reply.entry.native));
      NothingChanged(s);
    case ResolveNatively(place, native, emits) =>
      hide Forgotten, WithTable, P.Resolved, RequestKey, LookupNative, SameAnswers;
      var found := LookupNative(s, PlaceKey(place, native));
      if found.IsPending? {
        var t := P.Resolved(TableOf(s, found.kind), found.entry.id, Some(found.entry.runtime));
        ForgottenKeepsAnswers(s, s.replies, found.kind, t, PlaceOf(found.entry), RequestKey(native));
      }
      NothingChanged(s);
    case ReleaseSession(_, _) =>
      hide P.ClearedSession;
    case _ =>
      hide Next;
      OtherStepsKeepKeys(s, step);
      OtherStepsKeepAnswers(s, step);
  }

  lemma NothingChanged(s: Server)
    ensures SameAnswers(s, s) && s.(replies := s.replies) == s
  {
  }

  lemma OtherStepsKeepAnswers(s: Server, step: Step)
    requires IsOther(step)
    ensures Next(s, step).busy == s.busy && Next(s, step).answers == s.answers && Next(s, step).firstBook == s.firstBook
  {
    hide P.MayClaim, P.Applied, P.Bound, P.Released, P.Claimed;
  }

  lemma NextIsSerialized(s: Server, step: Step)
    requires WellFormed(s) && Covered(s) && Serialized(s)
    ensures Serialized(Next(s, step))
  {
    hide WellFormed, Covered, Arrived, AnswerEnded, RuntimeCleared, SessionCleared, NativelyResolved, ReplyCompleted, RouteLearned;
    match step
    case Arrive(a) =>
      hide Serialized;
      if a.place.runtime !in s.busy {
        ArrivedIsSerialized(s, a);
      }
    case EndAnswer(answer, succeeds) =>
      hide Serialized;
      if answer in s.answers {
        EndedIsSerialized(s, answer, succeeds);
      }
    case ReleaseRuntime(runtime) =>
      hide Serialized;
      ReleasedIsSerialized(s, runtime);
    case _ =>
      NoKeyIsAdded(s, step);
      ForgettingKeepsAnswers(s, step);
      hide Next, AnswerFits, SamePlaces, FirstBook;
      SerializedCarriesOver(s, Next(s, step));
  }

  // ---------------------------------------------------------------------------------------------
  // Coverage over runs
  // ---------------------------------------------------------------------------------------------

  /** A step leaves a pending request unmarked exactly when it is one of those that `Uncovers` names. */
  lemma StepKeepsCoverageIff(s: Server, step: Step)
    requires WellFormed(s) && Covered(s) && Serialized(s)
    ensures WellFormed(Next(s, step)) && Serialized(Next(s, step))
    ensures Covered(Next(s, step)) <==> !Uncovers(s, step)
  {
    NextIsWellFormed(s, step);
    NextIsSerialized(s, step);
    hide P.Inv, BooksFit, CoveredIn, HasOther, P.NativeEntry, Arrived, SessionCleared, RuntimeCleared, NativelyResolved;
    hide ReplyCompleted, Serialized;
    match step
    case Arrive(a) => ArrivedKeepsCoverage(s, a);
    case EndAnswer(answer, succeeds) => EndingAnswerKeepsCoverage(s, answer, succeeds);
    case CompleteReply(reply) => if reply in s.replies { CompletingReplyUncoversIff(s, reply); }
    case ResolveNatively(place, native, emits) => ResolvingNativelyKeepsCoverage(s, place, native, emits);
    case ReleaseSession(session, runtime) => ReleasesKeepCoverage(s, session, runtime, 0);
    case ReleaseRuntime(runtime) => ReleasesKeepCoverage(s, 0, None, runtime);
    case _ =>
      assert IsOther(step);
      OtherStepsKeepCoverage(s, step);
  }

  /**
   * Throughout a run every pending request with a non-empty native key is marked as handled, if and
   * only if no step uncovers one.
   */
  lemma {:induction false} RunIsCoveredIff(s: Server, steps: seq<Step>)
    requires WellFormed(s) && Covered(s) && Serialized(s)
    ensures AlwaysCovered(s, steps) <==> NeverUncovers(s, steps)
    ensures NeverUncovers(s, steps) ==>
              WellFormed(Run(s, steps)) && Covered(Run(s, steps)) && Serialized(Run(s, steps))
    decreases |steps|
  {
    if steps == [] {
    } else {
      StepKeepsCoverageIff(s, steps[0]);
      hide WellFormed, Covered, Serialized, Next, Uncovers;
      if !Uncovers(s, steps[0]) {
        RunIsCoveredIff(Next(s, steps[0]), steps[1..]);
      } else {
        assert !Covered(Next(s, steps[0]));
      }
    }
  }

  lemma {:induction false} RunWithoutForgetting(s: Server, steps: seq<Step>)
    requires forall step <- steps :: !step.CompleteReply?
    ensures NeverUncovers(s, steps)
    decreases |steps|
  {
    if steps == [] {
    } else {
      RunWithoutForgetting(Next(s, steps[0]), steps[1..]);
    }
  }

  lemma UnambiguousIffDisjoint(s: Server)
    requires WellFormed(s)
    ensures Unambiguous(s) <==> s.approvals.byNative.Keys !! s.questions.byNative.Keys
  {
    KeysArePending(s.approvals);
    KeysArePending(s.questions);
    hide P.Inv, BooksFit, P.NativeEntry;
    if Unambiguous(s) {
      forall key: P.NativeKey ensures !(key in s.approvals.byNative && key in s.questions.byNative) {
        assert !LookupNative(s, key).IsAmbiguous?;
      }
    }
  }

  /** The arriving request is registered and announced. */
  ghost predicate Registers(s: Server, a: Arrival, kind: Kind) {
    && a.treatment == Ask(kind) && a.admissible && a.emits
    && !IsHandled(Attached(s, a.place, a.turnBook), a)
    && P.IsNew(TableOf(s, kind), RegistrationOf(a))
  }

  function KeysOf(s: Server, kind: Kind): Keys {
    TableOf(s, kind).byNative.Keys
  }

  lemma KeysAfterAsking(s: Server, a: Arrival, asked: Kind, book: nat, kind: Kind)
    requires P.Inv(TableOf(s, asked))
    ensures KeysOf(Asked(s, a, asked, book), kind)
         == if kind == asked && a.emits && P.IsNew(TableOf(s, asked), RegistrationOf(a))
            then KeysOf(s, kind) + {PlaceKey(a.place, a.native)} else KeysOf(s, kind)
  {
    hide P.Inv, P.Added, P.Resolved, RequestKey, P.IsNew;
    var t := TableOf(s, asked);
    if P.IsNew(t, RegistrationOf(a)) {
      ResolveUndoesAdd(t, RegistrationOf(a));
      KeysAfterAdded(t, RegistrationOf(a));
    }
  }

  lemma KeysAfterAdded(t: P.Table, input: P.Registration)
    requires P.IsNew(t, input)
    ensures P.Added(t, input).byNative.Keys == t.byNative.Keys + {P.InputKey(input)}
  {
    hide P.IsNew, P.WithId, RequestKey;
  }

  lemma KeysAfterArriving(s: Server, a: Arrival, kind: Kind)
    requires WellFormed(s)
    ensures KeysOf(Arrived(s, a), kind)
         == if Registers(s, a, kind) then KeysOf(s, kind) + {PlaceKey(a.place, a.native)} else KeysOf(s, kind)
  {
    AttachedTables(s, a.place, a.turnBook);
    var attached := Attached(s, a.place, a.turnBook);
    if a.treatment.Ask? {
      TableIsWellFormed(s, a.treatment.kind);
      hide WellFormed, Attached, Asked, RequestKey, P.IsNew, P.Inv;
      if a.place in attached.bookOf {
        KeysAfterAsking(attached, a, a.treatment.kind, attached.bookOf[a.place], kind);
      }
    }
  }

  lemma TableIsWellFormed(s: Server, kind: Kind)
    requires WellFormed(s)
    ensures P.Inv(TableOf(s, kind))
  {
    hide P.Inv;
  }

  lemma UnhandledIsNotPending(s: Server, a: Arrival)
    requires WellFormed(s) && Covered(s) && a.native != Text("") && !IsHandled(Attached(s, a.place, a.turnBook), a)
    ensures PlaceKey(a.place, a.native) !in s.approvals.byNative && PlaceKey(a.place, a.native) !in s.questions.byNative
  {
    EmptyKeyIff(a.native);
    hide P.Inv, CoveredIn, RequestKey;
    CoveredIsAllCovered(s);
    AttachedFacts(s, a.place, a.turnBook);
    assert Handled(s, a.place) <= Handled(Attached(s, a.place, a.turnBook), a.place);
    hide BooksFit, Attached, Handled;
    assert PlaceKey(a.place, a.native) !in s.approvals.byNative.Keys;
    assert PlaceKey(a.place, a.native) !in s.questions.byNative.Keys;
  }

  /** The arriving request is registered while one of the other kind is pending under its native key. */
  ghost predicate Collides(s: Server, step: Step) {
    && step.Arrive? && step.arrival.place.runtime !in s.busy && step.arrival.treatment.Ask?
    && Registers(s, step.arrival, step.arrival.treatment.kind)
    && var key := PlaceKey(step.arrival.place, step.arrival.native);
    && key in KeysOf(s, if step.arrival.treatment.kind == Approval then Question else Approval)
  }

  /** A request that collides finds its non-empty key unmarked: it meets a pending request that has lost its mark. */
  lemma CollisionMeetsUnmarked(s: Server, step: Step)
    requires WellFormed(s) && Collides(s, step) && HasNativeId(step)
    ensures !Covered(s) && RequestKey(step.arrival.native) !in Handled(s, step.arrival.place)
  {
    var a := step.arrival;
    EmptyKeyIff(a.native);
    AttachedFacts(s, a.place, a.turnBook);
    assert Handled(s, a.place) <= Handled(Attached(s, a.place, a.turnBook), a.place);
    hide P.Inv, RequestKey, P.IsNew, Attached, Handled, Covered;
    if Covered(s) {
      UnhandledIsNotPending(s, a);
    }
  }

  lemma ArrivingCollidesIff(s: Server, a: Arrival)
    requires WellFormed(s) && a.place.runtime !in s.busy
    requires KeysOf(s, Approval) !! KeysOf(s, Question)
    ensures KeysOf(Arrived(s, a), Approval) !! KeysOf(Arrived(s, a), Question) <==> !Collides(s, Arrive(a))
  {
    hide WellFormed, Arrived;
    KeysAfterArriving(s, a, Approval);
    KeysAfterArriving(s, a, Question);
    hide IsHandled, P.IsNew, PlaceKey;
  }

  /** A step makes the native lookup ambiguous exactly when it registers a request that collides. */
  lemma StepStaysUnambiguousIff(s: Server, step: Step)
    requires WellFormed(s) && Unambiguous(s)
    ensures WellFormed(Next(s, step))
    ensures Unambiguous(Next(s, step)) <==> !Collides(s, step)
  {
    hide P.Inv, BooksFit, Unambiguous, Registers;
    NextIsWellFormed(s, step);
    UnambiguousIffDisjoint(s);
    UnambiguousIffDisjoint(Next(s, step));
    if step.Arrive? {
      if step.arrival.place.runtime !in s.busy {
        hide Arrived, Collides;
        ArrivingCollidesIff(s, step.arrival);
      }
    } else {
      hide Next;
      NoKeyIsAdded(s, step);
    }
  }

  /** In a covered state, only a request with the empty id can collide. */
  lemma CoveredRequestsNeverCollide(s: Server, step: Step)
    requires WellFormed(s) && Covered(s) && HasNativeId(step)
    ensures !Collides(s, step)
  {
    hide WellFormed, Covered, RequestKey, P.IsNew;
    if step.Arrive? && !IsHandled(Attached(s, step.arrival.place, step.arrival.turnBook), step.arrival) {
      UnhandledIsNotPending(s, step.arrival);
    }
  }

  ghost predicate FewerNatives(s: Server, s': Server) {
    && s'.approvals.byNative.Keys <= s.approvals.byNative.Keys
    && s'.questions.byNative.Keys <= s.questions.byNative.Keys
  }

  /** Resolving an occurrence, and forgetting a key or not, adds no native key. */
  lemma FinishingAddsNoKey(s: Server, replies: set<Reply>, kind: Kind, id: Id, runtime: Id, place: Place, key: string)
    requires WellFormed(s)
    ensures var resolved := WithTable(s.(replies := replies), kind, P.Resolved(TableOf(s, kind), id, Some(runtime)));
            FewerNatives(s, resolved) && FewerNatives(s, Forgotten(resolved, place, key))
  {
    KeysAfterResolved(TableOf(s, kind), id, Some(runtime));
    var resolved := WithTable(s.(replies := replies), kind, P.Resolved(TableOf(s, kind), id, Some(runtime)));
    ForgottenTables(resolved, place, key);
    hide P.Inv, BooksFit, P.Resolved, Forgotten;
  }

  lemma ClearsAddNoKey(s: Server, session: Id, runtime: Option<Id>, released: Id)
    requires WellFormed(s)
    ensures FewerNatives(s, SessionCleared(s, session, runtime)) && FewerNatives(s, RuntimeCleared(s, released))
  {
    KeysAfterClears(s.approvals, session, runtime, released);
    KeysAfterClears(s.questions, session, runtime, released);
    hide P.Inv, BooksFit, P.ClearedSession, P.ClearedRuntime;
  }

  lemma NoKeyIsAdded(s: Server, step: Step)
    requires WellFormed(s) && !step.Arrive?
    ensures FewerNatives(s, Next(s, step))
  {
    hide WellFormed, P.Resolved, LookupNative, SessionCleared, RuntimeCleared, WithTable, Forgotten, RequestKey, IsOther;
    match step
    case CompleteReply(reply) =>
      FinishingAddsNoKey(s, s.replies - {reply}, reply.kind, reply.entry.id, reply.entry.runtime,
                         PlaceOf(reply.entry), RequestKey(reply.entry.native));
    case ResolveNatively(place, native, emits) =>
      var found := LookupNative(s, PlaceKey(place, native));
      assert s.(replies := s.replies) == s;
      if found.IsPending? {
        FinishingAddsNoKey(s, s.replies, found.kind, found.entry.id, found.entry.runtime,
                           PlaceOf(found.entry), RequestKey(native));
      }
    case ReleaseSession(session, runtime) =>
      ClearsAddNoKey(s, session, runtime, 0);
    case ReleaseRuntime(runtime) =>
      ClearsAddNoKey(s, 0, None, runtime);
    case EndAnswer(answer, _) =>
      MarkedTables(AnswerEnded(s, answer, true), answer.book, answer.key);
      hide Unmarked;
    case _ =>
      OtherAddsNoKey(s, step);
      hide Next;
  }

  lemma OtherAddsNoKey(s: Server, step: Step)
    requires step.StartReply? || step.FailReply? || step.LearnRoute? || step.BindActiveTurn?
    ensures FewerNatives(s, Next(s, step))
  {
    OtherStepsKeepKeys(s, step);
    hide Next;
  }

  ghost predicate AlwaysUnambiguous(s: Server, steps: seq<Step>)
    decreases |steps|
  {
    Unambiguous(s) && (steps == [] || AlwaysUnambiguous(Next(s, steps[0]), steps[1..]))
  }

  ghost predicate NeverCollides(s: Server, steps: seq<Step>)
    decreases |steps|
  {
    steps == [] || (!Collides(s, steps[0]) && NeverCollides(Next(s, steps[0]), steps[1..]))
  }

  /** No native request is ever both a pending approval and a pending question, if and only if none collides. */
  lemma {:induction false} RunIsUnambiguousIff(s: Server, steps: seq<Step>)
    requires WellFormed(s) && Unambiguous(s)
    ensures AlwaysUnambiguous(s, steps) <==> NeverCollides(s, steps)
    decreases |steps|
  {
    if steps == [] {
    } else {
      StepStaysUnambiguousIff(s, steps[0]);
      hide WellFormed, Unambiguous, Collides, Next;
      if !Collides(s, steps[0]) {
        RunIsUnambiguousIff(Next(s, steps[0]), steps[1..]);
      } else {
        assert !Unambiguous(Next(s, steps[0]));
      }
    }
  }

  /** In a run that uncovers nothing, with non-empty native ids, no request collides. */
  lemma {:induction false} CoveredRunIsUnambiguous(s: Server, steps: seq<Step>)
    requires WellFormed(s) && Covered(s) && Serialized(s) && NeverUncovers(s, steps)
    requires forall step <- steps :: HasNativeId(step)
    ensures NeverCollides(s, steps)
    decreases |steps|
  {
    if steps == [] {
    } else {
      StepKeepsCoverageIff(s, steps[0]);
      CoveredRequestsNeverCollide(s, steps[0]);
      hide WellFormed, Covered, Serialized, Next, Uncovers, Collides, HasNativeId;
      CoveredRunIsUnambiguous(Next(s, steps[0]), steps[1..]);
    }
  }

  /** Then the native lookup is never ambiguous, at the end of the run or before. */
  lemma RunIsUnambiguous(s: Server, steps: seq<Step>)
    requires WellFormed(s) && Covered(s) && Serialized(s) && Unambiguous(s) && NeverUncovers(s, steps)
    requires forall step <- steps :: HasNativeId(step)
    ensures AlwaysUnambiguous(s, steps)
  {
    CoveredRunIsUnambiguous(s, steps);
    RunIsUnambiguousIff(s, steps);
  }

  // ---------------------------------------------------------------------------------------------
  // A request is asked once
  // ---------------------------------------------------------------------------------------------

  /** A registered request is pending as it arrived, and marked. */
  lemma AnnouncedRequestIsPending(s: Server, a: Arrival, kind: Kind)
    requires WellFormed(s) && Registers(s, a, kind)
    ensures var after, key := Arrived(s, a), PlaceKey(a.place, a.native);
            && P.NativeEntry(TableOf(after, kind), key)
               == Some(P.Entry(TableOf(s, kind).next, a.place.runtime, a.place.thread, a.native, a.route))
            && (key.2 != "" ==> key.2 in Handled(after, a.place))
  {
    hide P.Inv, P.IsNew, RequestKey, BooksFit, Attached, P.WithId;
    AttachedFacts(s, a.place, a.turnBook);
    AttachedTables(s, a.place, a.turnBook);
    var attached := Attached(s, a.place, a.turnBook);
    BookInRange(attached, a.place);
    MarkedFacts(attached, attached.bookOf[a.place], RequestKey(a.native));
  }

  /** While it is marked, further deliveries of the request change nothing, whatever they ask. */
  lemma RepeatedDeliveryIsIgnored(s: Server, a: Arrival, kind: Kind, again: Arrival)
    requires WellFormed(s) && Registers(s, a, kind)
    requires again.place == a.place && again.native == a.native && a.native != Text("")
    ensures Arrived(Arrived(s, a), again) == Arrived(s, a)
  {
    hide WellFormed, Registers, P.NativeEntry, RequestKey;
    EmptyKeyIff(a.native);
    AnnouncedRequestIsPending(s, a, kind);
  }

  /** A delivered reply that uncovers nothing frees the native id for a new request. */
  lemma CompletedReplyFreesTheId(s: Server, reply: Reply)
    requires WellFormed(s) && Covered(s) && reply in s.replies && !Uncovers(s, CompleteReply(reply))
    requires RequestKey(reply.entry.native) != ""
    ensures var after := ReplyCompleted(s, reply);
            && RequestKey(reply.entry.native) !in Handled(after, PlaceOf(reply.entry))
            && LookupNative(after, P.NativeKeyOf(reply.entry)).NotPending?
  {
    hide WellFormed, Covered, ReplyCompleted, RequestKey, P.NativeEntry, Handled, LookupNative, Uncovers;
    var after := ReplyCompleted(s, reply);
    CompletingReplyUncoversIff(s, reply);
    CompletedIsWellFormed(s, reply);
    ReplyForgets(s, reply);
    UnhandledKeyIsFree(after, P.NativeKeyOf(reply.entry));
  }

  lemma CompletedIsWellFormed(s: Server, reply: Reply)
    requires WellFormed(s) && reply in s.replies
    ensures WellFormed(ReplyCompleted(s, reply))
  {
    hide WellFormed, ReplyCompleted;
    NextIsWellFormed(s, CompleteReply(reply));
  }

  lemma UnhandledKeyIsFree(s: Server, key: P.NativeKey)
    requires WellFormed(s) && Covered(s) && key.2 != "" && key.2 !in Handled(s, Place(key.0, key.1))
    ensures LookupNative(s, key).NotPending?
  {
    KeysArePending(s.approvals);
    KeysArePending(s.questions);
    CoveredIsAllCovered(s);
    hide WellFormed, CoveredIn, P.NativeEntry, Handled;
    assert key.2 !in HandledAt(s, key);
    assert key !in s.approvals.byNative.Keys && key !in s.questions.byNative.Keys;
  }

  lemma ReplyForgets(s: Server, reply: Reply)
    requires WellFormed(s)
    ensures RequestKey(reply.entry.native) !in Handled(ReplyCompleted(s, reply), PlaceOf(reply.entry))
  {
    var s' := s.(replies := s.replies - {reply});
    var resolved := WithTable(s', reply.kind, P.Resolved(TableOf(s, reply.kind), reply.entry.id, Some(reply.entry.runtime)));
    FitDependsOnBooks(s, resolved);
    ForgottenFacts(resolved, PlaceOf(reply.entry), RequestKey(reply.entry.native));
    hide P.Inv, BooksFit, P.Resolved, Forgotten, RequestKey, Handled;
  }

  // ---------------------------------------------------------------------------------------------
  // Runs that the conditions above shut out
  // ---------------------------------------------------------------------------------------------

  const THREAD := Place(0, 1)

  function Asking(native: RequestId, kind: Kind): Step {
    Arrive(Arrival(THREAD, native, Ask(kind), None, None, true, true))
  }

  function OneApproval(id: Id, claims: set<Id>): P.Table {
    P.Table(
      map[id := P.Entry(id, 0, 1, Number(5), None)], map[(0, 1, "5") := id], map[1 := [id]], map[], map[], claims, id + 1)
  }

  lemma KeyOfFive()
    ensures RequestKey(Number(5)) == "5"
  {
    assert Digits(5) == [Digit(5)] && Digit(5) == '5';
  }

  lemma ArrivingApproval(s: Server, id: Id)
    requires s.approvals == P.NO_PENDING.(next := id) && s.bookOf == map[] && s.busy == map[]
    ensures Next(s, Asking(Number(5), Approval))
         == s.(approvals := OneApproval(id, {}), books := s.books + [Book(THREAD, {"5"})], bookOf := map[THREAD := |s.books|])
  {
    KeyOfFive();
    var a := Asking(Number(5), Approval).arrival;
    var attached := Attached(s, THREAD, None);
    assert attached.books[|s.books|] == Book(THREAD, {});
    assert !IsHandled(attached, a);
    assert P.At(s.approvals.owned, 1) + [id] == [id];
    assert P.Added(s.approvals, RegistrationOf(a)) == OneApproval(id, {});
    assert attached.books == s.books + [Book(THREAD, {})] && {} + {"5"} == {"5"};
    assert Marked(attached, |s.books|, "5").books == s.books + [Book(THREAD, {"5"})];
  }

  const LATE_REPLY := Reply(Approval, P.Entry(0, 0, 1, Number(5), None))

  const UNTIL_REUSE := [
    Asking(Number(5), Approval), StartReply(Approval, 0, 1, None),
    ResolveNatively(THREAD, Number(5), true), Asking(Number(5), Approval)]

  /** The native id was used again while the reply to its first use is in flight. */
  const REUSED := Server(
    OneApproval(1, {}), P.NO_PENDING, [Book(THREAD, {}), Book(THREAD, {"5"})], map[THREAD := 1], {LATE_REPLY}, {}, map[], map[])

  lemma ReachesReuse()
    ensures Run(IDLE, UNTIL_REUSE) == REUSED
  {
    KeyOfFive();
    ArrivingApproval(IDLE, 0);
    var s1 := Next(IDLE, UNTIL_REUSE[0]);
    StartingReply(s1);
    var s2 := Next(s1, UNTIL_REUSE[1]);
    assert s2 == Server(OneApproval(0, {0}), P.NO_PENDING, [Book(THREAD, {"5"})], map[THREAD := 0], {LATE_REPLY}, {}, map[], map[]);
    ResolvingOnlyApproval(s2);
    var s3 := Next(s2, UNTIL_REUSE[2]);
    ArrivingApproval(s3, 1);
    assert Next(s3, UNTIL_REUSE[3]) == REUSED;
    hide Next;
    RunOfFour(IDLE, UNTIL_REUSE);
  }

  lemma RunOfFour(s: Server, steps: seq<Step>)
    requires |steps| == 4
    ensures Run(s, steps) == Next(Next(Next(Next(s, steps[0]), steps[1]), steps[2]), steps[3])
  {
    hide Next;
    RunOfTwo(Next(Next(s, steps[0]), steps[1]), steps[1..][1..]);
    assert Run(Next(s, steps[0]), steps[1..]) == Run(Next(Next(s, steps[0]), steps[1]), steps[1..][1..]);
  }

  lemma RunOfTwo(s: Server, steps: seq<Step>)
    requires |steps| == 2
    ensures Run(s, steps) == Next(Next(s, steps[0]), steps[1])
  {
    hide Next;
    assert Run(Next(s, steps[0]), steps[1..]) == Run(Next(Next(s, steps[0]), steps[1]), []);
  }

  lemma ResolvingOnlyApproval(s: Server)
    requires s == Server(OneApproval(0, {0}), P.NO_PENDING, [Book(THREAD, {"5"})], map[THREAD := 0], {LATE_REPLY}, {}, map[], map[])
    ensures Next(s, ResolveNatively(THREAD, Number(5), true))
         == Server(P.NO_PENDING.(next := 1), P.NO_PENDING, [Book(THREAD, {})], map[], {LATE_REPLY}, {}, map[], map[])
  {
    KeyOfFive();
    assert LookupNative(s, (0, 1, "5")) == IsPending(Approval, LATE_REPLY.entry);
    ResolvingTheOnlyApproval(0, {0});
    assert {"5"} - {"5"} == {};
    assert map[THREAD := 0] - {THREAD} == map[];
  }

  /**
   * A reply completes late: its request was resolved natively meanwhile and the native id was used
   * again. The new request stays pending without its mark, and a question with the same native id
   * then makes the native lookup ambiguous.
   */
  lemma LateReplyLeavesRequestUnmarked()
    ensures var s := Run(IDLE, UNTIL_REUSE);
            && Covered(s)
            && !Covered(Next(s, CompleteReply(LATE_REPLY)))
            && LookupNative(Run(s, [CompleteReply(LATE_REPLY), Asking(Number(5), Question)]), (0, 1, "5")).IsAmbiguous?
  {
    ReachesReuse();
    ReuseIsCovered();
    var s := Next(REUSED, CompleteReply(LATE_REPLY));
    AskingAgain(s);
    hide Next, WellFormed, Covered;
    RunOfTwo(REUSED, [CompleteReply(LATE_REPLY), Asking(Number(5), Question)]);
  }

  lemma IdleIsCovered()
    ensures WellFormed(IDLE) && Covered(IDLE) && Serialized(IDLE)
  {
  }

  lemma ReuseIsCovered()
    ensures Covered(REUSED) && !Covered(Next(REUSED, CompleteReply(LATE_REPLY)))
  {
    ReachesReuse();
    KeyOfFive();
    IdleIsCovered();
    RunWithoutForgetting(IDLE, UNTIL_REUSE);
    hide WellFormed, Covered, Serialized, Run, NeverUncovers;
    RunIsCoveredIff(IDLE, UNTIL_REUSE);
    assert Uncovers(REUSED, CompleteReply(LATE_REPLY));
    hide Next;
    StepKeepsCoverageIff(REUSED, CompleteReply(LATE_REPLY));
  }

  lemma AskingAgain(s: Server)
    requires s == Next(REUSED, CompleteReply(LATE_REPLY))
    ensures LookupNative(Next(s, Asking(Number(5), Question)), (0, 1, "5")).IsAmbiguous?
  {
    KeyOfFive();
    assert s.approvals == OneApproval(1, {}) && s.questions == P.NO_PENDING;
    assert s.books == [Book(THREAD, {}), Book(THREAD, {})] && s.bookOf == map[];
    assert !IsHandled(Attached(s, THREAD, None), Asking(Number(5), Question).arrival);
  }

  lemma StartingReply(s: Server)
    requires s.approvals == OneApproval(0, {})
    ensures P.RequireForSession(s.approvals, 0, 1, None) == P.Found(P.Entry(0, 0, 1, Number(5), None))
  {
    assert P.At(s.approvals.mirrored, 1) == [];
    assert P.IdsOfSession(s.approvals, 1) == [0];
    assert P.Matches(s.approvals.entries, [0], 0, None) == [P.Entry(0, 0, 1, Number(5), None)];
  }

  lemma ResolvingTheOnlyApproval(id: Id, claims: set<Id>)
    requires claims <= {id}
    ensures P.Resolved(OneApproval(id, claims), id, Some(0)) == P.NO_PENDING.(next := id + 1)
  {
    var t := OneApproval(id, claims);
    assert P.Dropped([id], {id}) == [];
    assert P.WithoutEntries(t, {id}).owned == map[];
    assert P.WithoutEntries(t, {id}).entries == map[];
    assert P.WithoutEntries(t, {id}).claims == {};
  }

  /** A request with the empty id is never marked, so it can be pending as an approval and a question. */
  lemma EmptyIdIsAskedTwice()
    ensures LookupNative(Run(IDLE, [Asking(Text(""), Approval), Asking(Text(""), Question)]), (0, 1, "")).IsAmbiguous?
  {
    EmptyKeyIff(Text(""));
    var s1 := Next(IDLE, Asking(Text(""), Approval));
    assert !IsHandled(Attached(IDLE, THREAD, None), Asking(Text(""), Approval).arrival);
    assert P.NativeEntry(s1.approvals, (0, 1, "")).Some?;
    var s2 := Next(s1, Asking(Text(""), Question));
    assert !IsHandled(Attached(s1, THREAD, None), Asking(Text(""), Question).arrival);
    assert P.NativeEntry(s2.questions, (0, 1, "")).Some? && P.NativeEntry(s2.approvals, (0, 1, "")).Some?;
    var steps := [Asking(Text(""), Approval), Asking(Text(""), Question)];
    assert steps[1..][1..] == [];
    assert Run(IDLE, steps) == s2;
  }
}
