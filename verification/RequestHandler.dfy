/** The handling of native server requests, on the pending-input tables and the sets of handled keys. */
module RequestHandlers {
  import opened Prelude
  import opened RequestKeys
  import SubagentLinks
  import P = PendingInput
  import PendingInputProofs
  import opened PendingTables
  import opened ServerRequests
  import opened ServerRequestsProofs

  class RequestHandler {
    const approvals: PendingTable
    const questions: PendingTable
    var books: seq<Book>
    var bookOf: map<Place, nat>
    var replies: set<Reply>
    var answers: set<Answer>
    var busy: map<Id, Answer>
    var firstBook: map<Id, nat>

    ghost function Value(): Server
      reads this, approvals, questions
    {
      Server(approvals.Value(), questions.Value(), books, bookOf, replies, answers, busy, firstBook)
    }

    ghost predicate Valid()
      reads this, approvals, questions
    {
      approvals != questions && WellFormed(Value())
    }

    constructor ()
      ensures Valid() && Value() == IDLE && fresh(approvals) && fresh(questions)
    {
      approvals := new PendingTable();
      questions := new PendingTable();
      books, bookOf, replies, answers, busy, firstBook := [], map[], {}, {}, map[], map[];
    }

    /** The set of handled keys of the thread, created or taken from the running turn when missing. */
    method AttachBook(place: Place, turnBook: Option<nat>) returns (book: nat)
      requires Valid()
      modifies this`books, this`bookOf
      ensures Valid() && Value() == Attached(old(Value()), place, turnBook)
      ensures place in bookOf && bookOf[place] == book && book < |books|
    {
      AttachedFacts(Value(), place, turnBook);
      AttachedTables(Value(), place, turnBook);
      if place in bookOf {
        book := bookOf[place];
      } else {
        var first := if place.runtime in firstBook then firstBook[place.runtime] else 0;
        if turnBook.Some? && first <= turnBook.value < |books| && books[turnBook.value].place == place {
          book := turnBook.value;
        } else {
          book := |books|;
          books := books + [Book(place, {})];
        }
        bookOf := bookOf[place := book];
      }
    }

    method MarkHandled(book: nat, key: string)
      requires book < |books|
      modifies this`books
      ensures Value() == Marked(old(Value()), book, key)
    {
      if key != "" {
        books := books[book := books[book].(keys := books[book].keys + {key})];
      }
    }

    method UnmarkHandled(book: nat, key: string)
      requires book < |books|
      modifies this`books
      ensures Value() == Unmarked(old(Value()), book, key)
    {
      if key != "" {
        books := books[book := books[book].(keys := books[book].keys - {key})];
      }
    }

    /** Returns whether the request now waits for the user. */
    method ProcessServerRequest(a: Arrival) returns (waits: bool)
      requires Valid()
      modifies this, approvals, questions
      ensures Valid() && Value() == Arrived(old(Value()), a)
      ensures waits == WaitsForUser(old(Value()), a)
    {
      hide WellFormed, Attached, Marked, Unmarked, Asked, Answering, P.Added, P.Resolved, P.IsNew, RequestKey;
      ArrivedIsWellFormed(Value(), a);
      var book := AttachBook(a.place, a.turnBook);
      var key := RequestKey(a.native);
      if (key != "" && key in books[book].keys) || !a.admissible {
        return false;
      }
      match a.treatment
      case AnswerItself =>
        MarkHandled(book, key);
        StartAnswer(Answer(a.place, book, key));
        waits := false;
      case Ask(kind) =>
        waits := RunWhileHandled(a, kind, book);
    }

    /** The events of the runtime wait for the answer. */
    method StartAnswer(answer: Answer)
      modifies this`answers, this`busy
      ensures Value() == Answering(old(Value()), answer)
    {
      answers := answers + {answer};
      busy := busy[answer.place.runtime := answer];
    }

    /** A failed answer takes back its mark, which never is the mark of a pending request. */
    method EndAnswer(answer: Answer, succeeds: bool)
      requires Valid() && answer in answers
      modifies this`books, this`answers, this`busy
      ensures Value() == AnswerEnded(old(Value()), answer, succeeds)
      ensures Valid()
      ensures old(Covered(Value()) && Serialized(Value())) ==> Covered(Value()) && Serialized(Value())
    {
      EndingFacts(Value(), answer, succeeds);
      hide WellFormed, Covered, Serialized, Unmarked;
      answers := answers - {answer};
      if answer.place.runtime in busy && busy[answer.place.runtime] == answer {
        busy := busy - {answer.place.runtime};
      }
      if !succeeds {
        UnmarkHandled(answer.book, answer.key);
      }
    }

    /** Marks, registers and announces; a failed announcement is rolled back. */
    method RunWhileHandled(a: Arrival, kind: Kind, book: nat) returns (waits: bool)
      requires Valid() && book < |books|
      modifies this`books, approvals, questions
      ensures Valid() && Value() == Asked(old(Value()), a, kind, book)
      ensures waits == (a.emits || !P.IsNew(TableOf(old(Value()), kind), RegistrationOf(a)))
    {
      AskedTables(Value(), a, kind, book);
      AskedBooks(Value(), a, kind, book);
      MarkedTables(Value(), book, RequestKey(a.native));
      var table := if kind == Approval then approvals else questions;
      var key := RequestKey(a.native);
      hide P.Inv, BooksFit, P.Added, P.Resolved, P.IsNew, RequestKey, Marked, Unmarked;
      MarkHandled(book, key);
      var id, isNew := table.Add(RegistrationOf(a));
      waits := a.emits || !isNew;
      if isNew && !a.emits {
        var _ := table.Resolve(id, Some(a.place.runtime));
        UnmarkHandled(book, key);
      }
    }

    method ForgetHandledServerRequest(place: Place, native: RequestId)
      requires Valid()
      modifies this`books, this`bookOf
      ensures Valid() && Value() == Forgotten(old(Value()), place, RequestKey(native))
    {
      ForgottenFacts(Value(), place, RequestKey(native));
      ForgottenTables(Value(), place, RequestKey(native));
      if place in bookOf {
        var book := bookOf[place];
        books := books[book := books[book].(keys := books[book].keys - {RequestKey(native)})];
        if books[book].keys == {} {
          bookOf := bookOf - {place};
        }
      }
    }

    /** A native resolution; false when nothing is pending under the native id, or when that is ambiguous. */
    method ResolvePendingServerRequest(place: Place, native: RequestId, emits: bool) returns (resolved: bool)
      requires Valid()
      modifies this`books, this`bookOf, approvals, questions
      ensures Valid() && Value() == NativelyResolved(old(Value()), place, native, emits)
      ensures resolved == LookupNative(old(Value()), PlaceKey(place, native)).IsPending?
    {
      hide P.Inv, BooksFit, Forgotten, P.Resolved, P.NativeEntry, RequestKey;
      NextIsWellFormed(Value(), ResolveNatively(place, native, emits));
      ResolvedIsWellFormed(Value(), place, native);
      var key := PlaceKey(place, native);
      var approval := P.NativeEntry(approvals.Value(), key);
      var question := P.NativeEntry(questions.Value(), key);
      if approval.Some? == question.Some? {
        return false;
      }
      var entry := if approval.Some? then approval.value else question.value;
      if approval.Some? {
        var _ := approvals.Resolve(entry.id, Some(entry.runtime));
      } else {
        var _ := questions.Resolve(entry.id, Some(entry.runtime));
      }
      if emits {
        ForgetHandledServerRequest(PlaceOf(entry), native);
      }
      resolved := true;
    }

    method StartReply(kind: Kind, id: Id, session: Id, runtime: Option<Id>) returns (started: bool)
      requires Valid()
      modifies this`replies, approvals, questions
      ensures Valid() && Value() == ReplyStarted(old(Value()), kind, id, session, runtime)
      ensures started == P.MayClaim(TableOf(old(Value()), kind), id, session, runtime)
    {
      StartedIsWellFormed(Value(), kind, id, session, runtime);
      assert P.Inv(approvals.Value()) && P.Inv(questions.Value());
      ClaimedEntry(TableOf(Value(), kind), id, session, runtime);
      hide WellFormed, P.Inv, P.RequireForSession, P.MayClaim, P.Claimed;
      var table := if kind == Approval then approvals else questions;
      var found, claimed := table.ClaimForSession(id, session, runtime);
      started := claimed;
      if claimed {
        replies := replies + {Reply(kind, found.entry)};
      }
    }

    /** A delivered reply resolves its occurrence and forgets its native key. */
    method CompleteReply(reply: Reply)
      requires Valid() && reply in replies
      modifies this`books, this`bookOf, this`replies, approvals, questions
      ensures Valid() && Value() == ReplyCompleted(old(Value()), reply)
    {
      ghost var s := Value();
      SettledIsWellFormed(s, reply);
      var table := if reply.kind == Approval then approvals else questions;
      hide WellFormed, Forgotten, P.Resolved, RequestKey;
      var _ := table.Resolve(reply.entry.id, Some(reply.entry.runtime));
      replies := replies - {reply};
      ForgetHandledServerRequest(PlaceOf(reply.entry), reply.entry.native);
    }

    method ReleaseSession(session: Id, runtime: Option<Id>)
      requires Valid()
      modifies this`bookOf, approvals, questions
      ensures Valid() && Value() == SessionCleared(old(Value()), session, runtime)
    {
      ReleaseIsWellFormed(Value(), session, runtime, 0);
      assert P.Inv(approvals.Value()) && P.Inv(questions.Value());
      hide WellFormed, P.Inv, P.ClearedSession;
      approvals.ClearSession(session, runtime);
      questions.ClearSession(session, runtime);
      bookOf := map p | p in bookOf && !Concerned(p, session, runtime) :: bookOf[p];
    }

    /** The pending input and the handled keys of the runtime are gone, and no answer holds up its events. */
    method ReleaseRuntime(runtime: Id)
      requires Valid()
      modifies this`bookOf, this`busy, this`firstBook, approvals, questions
      ensures Valid() && Value() == RuntimeCleared(old(Value()), runtime)
    {
      ReleaseIsWellFormed(Value(), 0, None, runtime);
      assert P.Inv(approvals.Value()) && P.Inv(questions.Value());
      hide WellFormed, P.Inv, P.ClearedRuntime;
      approvals.ClearRuntime(runtime);
      questions.ClearRuntime(runtime);
      ClearRuntimeEvents(runtime);
    }

    method ClearRuntimeEvents(runtime: Id)
      modifies this`bookOf, this`busy, this`firstBook
      ensures Value() == EventsCleared(old(Value()), runtime)
    {
      bookOf := map p | p in bookOf && p.runtime != runtime :: bookOf[p];
      busy := busy - {runtime};
      firstBook := firstBook[runtime := |books|];
    }
  }

  /** A request that is admitted, not handled before and announced waits for the user. */
  ghost predicate WaitsForUser(s: Server, a: Arrival) {
    var attached := Attached(s, a.place, a.turnBook);
    && !IsHandled(attached, a) && a.admissible && a.treatment.Ask?
    && (a.emits || !P.IsNew(TableOf(attached, a.treatment.kind), RegistrationOf(a)))
  }

  lemma EndingFacts(s: Server, answer: Answer, succeeds: bool)
    requires WellFormed(s) && answer in s.answers
    ensures WellFormed(AnswerEnded(s, answer, succeeds)) && answer.book < |s.books|
    ensures Covered(s) && Serialized(s) ==>
              Covered(AnswerEnded(s, answer, succeeds)) && Serialized(AnswerEnded(s, answer, succeeds))
  {
    NextIsWellFormed(s, EndAnswer(answer, succeeds));
    AnswerInRange(s, answer);
    hide WellFormed, Covered, Serialized, AnswerEnded;
    if Covered(s) && Serialized(s) {
      StepKeepsCoverageIff(s, EndAnswer(answer, succeeds));
    }
  }

  lemma ReleaseIsWellFormed(s: Server, session: Id, runtime: Option<Id>, released: Id)
    requires WellFormed(s)
    ensures WellFormed(SessionCleared(s, session, runtime)) && WellFormed(RuntimeCleared(s, released))
  {
    hide WellFormed, SessionCleared, RuntimeCleared;
    NextIsWellFormed(s, ReleaseSession(session, runtime));
    NextIsWellFormed(s, ReleaseRuntime(released));
  }

  lemma ClaimedEntry(t: P.Table, id: Id, session: Id, runtime: Option<Id>)
    requires P.Inv(t)
    ensures P.MayClaim(t, id, session, runtime) ==>
              id in t.entries && P.RequireForSession(t, id, session, runtime) == P.Found(t.entries[id])
    ensures P.Claimed(t, id, session, runtime).entries == t.entries
    ensures !P.MayClaim(t, id, session, runtime) ==> P.Claimed(t, id, session, runtime) == t
  {
    PendingInputProofs.SessionLookupIsDirect(t, id, session, runtime);
    hide P.Inv, P.RequireForSession;
  }

  lemma StartedIsWellFormed(s: Server, kind: Kind, id: Id, session: Id, runtime: Option<Id>)
    requires WellFormed(s)
    ensures WellFormed(ReplyStarted(s, kind, id, session, runtime))
  {
    hide WellFormed, ReplyStarted;
    NextIsWellFormed(s, StartReply(kind, id, session, runtime));
  }

  lemma ResolvedIsWellFormed(s: Server, place: Place, native: RequestId)
    requires WellFormed(s)
    ensures var found := LookupNative(s, PlaceKey(place, native));
            found.IsPending? ==>
              WellFormed(WithTable(s, found.kind, P.Resolved(TableOf(s, found.kind), found.entry.id, Some(found.entry.runtime))))
  {
    hide P.Inv, P.Resolved, LookupNative, RequestKey;
    var found := LookupNative(s, PlaceKey(place, native));
    if found.IsPending? {
      PendingInputProofs.ResolvedKeepsInv(TableOf(s, found.kind), found.entry.id, Some(found.entry.runtime));
    }
  }

  lemma SettledIsWellFormed(s: Server, reply: Reply)
    requires WellFormed(s)
    ensures var t := P.Resolved(TableOf(s, reply.kind), reply.entry.id, Some(reply.entry.runtime));
            WellFormed(WithTable(s, reply.kind, t)) && WellFormed(WithTable(s, reply.kind, t).(replies := s.replies - {reply}))
  {
    PendingInputProofs.ResolvedKeepsInv(TableOf(s, reply.kind), reply.entry.id, Some(reply.entry.runtime));
    hide P.Inv, P.Resolved;
  }
}
