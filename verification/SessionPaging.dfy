/**
 * Pages of session metadata: two server listings (active and archived threads), each read page by
 * page, are merged by time into pages of at most 100 sessions. A page token holds both streams as
 * they were left; reading it back is the identity.
 */
module SessionPaging {
  import opened Prelude

  datatype Source = Cli | VsCode | Exec | AppServer | Unknown | Custom | Subagent

  datatype Thread = Thread(id: Id, parent: Option<Id>, source: Source, updatedAt: int)

  datatype Session = Session(id: Id, updatedAt: int)

  predicate IsRoot(thread: Thread) {
    thread.parent.None? && !thread.source.Subagent?
  }

  /** Times are seconds at the server and milliseconds here. */
  function Metadata(thread: Thread): Session {
    Session(thread.id, thread.updatedAt * 1000)
  }

  function Roots(threads: seq<Thread>): seq<Session> {
    if threads == [] then []
    else (if IsRoot(threads[0]) then [Metadata(threads[0])] else []) + Roots(threads[1..])
  }

  /** `First` asks for the first page; `End` is the cursor of a finished stream. */
  datatype Cursor = First | At(cursor: Id) | End

  datatype Page = Page(threads: seq<Thread>, next: Cursor)

  type Server = map<Cursor, Page>

  datatype Stream = Stream(cursor: Cursor, rows: seq<Session>)

  const UNREAD := Stream(First, [])

  /** The pages that the server still has for a cursor; they end. */
  ghost predicate Serves(server: Server, cursor: Cursor, pages: seq<Page>)
    decreases |pages|
  {
    if cursor.End? then pages == []
    else
      && pages != []
      && cursor in server && server[cursor] == pages[0]
      && !pages[0].next.First?
      && Serves(server, pages[0].next, pages[1..])
  }

  function RowsOf(pages: seq<Page>): seq<Session>
    decreases |pages|
  {
    if pages == [] then [] else Roots(pages[0].threads) + RowsOf(pages[1..])
  }

  /** Everything that a stream will still deliver. */
  function Remaining(stream: Stream, pages: seq<Page>): seq<Session> {
    stream.rows + RowsOf(pages)
  }

  // ---------------------------------------------------------------------------------------------
  // The merge
  // ---------------------------------------------------------------------------------------------

  /** How the collation of the locale ranks ids; ids that collate equally have one rank. */
  type Collation = Id -> int

  /** `a` sorts strictly before `b`: it is newer, or as old with the smaller id. */
  predicate Precedes(collation: Collation, a: Session, b: Session) {
    a.updatedAt > b.updatedAt || (a.updatedAt == b.updatedAt && collation(a.id) < collation(b.id))
  }

  /** The two-way merge; on ties the first stream goes first. */
  function Merge(collation: Collation, a: seq<Session>, b: seq<Session>): seq<Session>
    decreases |a| + |b|
  {
    if a == [] then b
    else if b == [] then a
    else if Precedes(collation, b[0], a[0]) then [b[0]] + Merge(collation, a, b[1..])
    else [a[0]] + Merge(collation, a[1..], b)
  }

  lemma {:induction false} MergeLosesNothing(collation: Collation, a: seq<Session>, b: seq<Session>)
    ensures multiset(Merge(collation, a, b)) == multiset(a) + multiset(b)
    decreases |a| + |b|
  {
    if a != [] && b != [] {
      if Precedes(collation, b[0], a[0]) {
        MergeLosesNothing(collation, a, b[1..]);
        assert b == [b[0]] + b[1..];
      } else {
        MergeLosesNothing(collation, a[1..], b);
        assert a == [a[0]] + a[1..];
      }
    }
  }

  /** Newest first, then by id. */
  ghost predicate Ordered(collation: Collation, rows: seq<Session>) {
    forall i, j | 0 <= i < j < |rows| :: !Precedes(collation, rows[j], rows[i])
  }

  lemma {:induction false} MergeIsOrdered(collation: Collation, a: seq<Session>, b: seq<Session>)
    requires Ordered(collation, a) && Ordered(collation, b)
    ensures Ordered(collation, Merge(collation, a, b))
    decreases |a| + |b|
  {
    if a != [] && b != [] {
      var fromB := Precedes(collation, b[0], a[0]);
      var first := if fromB then b[0] else a[0];
      var restA, restB := if fromB then a else a[1..], if fromB then b[1..] else b;
      MergeIsOrdered(collation, restA, restB);
      MergeLosesNothing(collation, restA, restB);
      var rest := Merge(collation, restA, restB);
      forall k | 0 <= k < |rest| ensures !Precedes(collation, rest[k], first) {
        assert rest[k] in multiset(rest);
        assert rest[k] in multiset(restA) || rest[k] in multiset(restB);
        assert rest[k] in restA || rest[k] in restB;
        assert rest[k] in a || rest[k] in b;
      }
      assert Merge(collation, a, b) == [first] + rest;
    }
  }

  lemma {:induction false} MergePreservesStreamOrder(collation: Collation, a: seq<Session>, b: seq<Session>, inA: set<Session>)
    requires forall row <- a :: row in inA
    requires forall row <- b :: row !in inA
    ensures Selected(Merge(collation, a, b), inA, true) == a
    ensures Selected(Merge(collation, a, b), inA, false) == b
    decreases |a| + |b|
  {
    if a == [] {
      SelectsAll(b, inA, false);
    } else if b == [] {
      SelectsAll(a, inA, true);
    } else if Precedes(collation, b[0], a[0]) {
      assert forall row <- b[1..] :: row in b;
      MergePreservesStreamOrder(collation, a, b[1..], inA);
    } else {
      assert forall row <- a[1..] :: row in a;
      MergePreservesStreamOrder(collation, a[1..], b, inA);
    }
  }

  function Selected(rows: seq<Session>, inA: set<Session>, wanted: bool): seq<Session> {
    if rows == [] then []
    else (if (rows[0] in inA) == wanted then [rows[0]] else []) + Selected(rows[1..], inA, wanted)
  }

  lemma {:induction false} SelectsAll(rows: seq<Session>, inA: set<Session>, wanted: bool)
    requires forall row <- rows :: (row in inA) == wanted
    ensures Selected(rows, inA, wanted) == rows && Selected(rows, inA, !wanted) == []
  {
    if rows == [] {
    } else {
      assert rows[0] in rows && forall row <- rows[1..] :: row in rows;
      SelectsAll(rows[1..], inA, wanted);
    }
  }

  // ---------------------------------------------------------------------------------------------
  // One page
  // ---------------------------------------------------------------------------------------------

  const PAGE_ROWS := 100

  /** The sessions of a page by id: a repeated id keeps its place and takes the later row. */
  function WithRow(sessions: seq<Session>, row: Session): seq<Session>
    decreases |sessions|
  {
    if sessions == [] then [row]
    else if sessions[0].id == row.id then [row] + sessions[1..]
    else [sessions[0]] + WithRow(sessions[1..], row)
  }

  function Collected(rows: seq<Session>): seq<Session>
    decreases |rows|
  {
    if rows == [] then [] else WithRow(Collected(rows[..|rows| - 1]), rows[|rows| - 1])
  }

  ghost predicate DistinctIds(rows: seq<Session>) {
    forall i, j | 0 <= i < j < |rows| :: rows[i].id != rows[j].id
  }

  lemma {:induction false} NewIdIsAppended(sessions: seq<Session>, row: Session)
    requires forall s <- sessions :: s.id != row.id
    ensures WithRow(sessions, row) == sessions + [row]
  {
    if sessions == [] {
    } else {
      assert sessions[0] in sessions && forall s <- sessions[1..] :: s in sessions;
      NewIdIsAppended(sessions[1..], row);
    }
  }

  lemma {:induction false} DistinctRowsAreKept(rows: seq<Session>)
    requires DistinctIds(rows)
    ensures Collected(rows) == rows
  {
    if rows == [] {
    } else {
      var front := rows[..|rows| - 1];
      DistinctRowsAreKept(front);
      NewIdIsAppended(front, rows[|rows| - 1]);
      assert rows == front + [rows[|rows| - 1]];
    }
  }

  predicate IsFinished(stream: Stream) {
    stream.rows == [] && stream.cursor.End?
  }

  /** A pair of streams as left by a page; `None` when both are finished. */
  type Token = Option<(Stream, Stream)>

  function TokenOf(a: Stream, b: Stream): Token {
    if IsFinished(a) && IsFinished(b) then None else Some((a, b))
  }

  lemma {:induction false} ServedPagesAreDetermined(server: Server, cursor: Cursor, p: seq<Page>, q: seq<Page>)
    requires Serves(server, cursor, p) && Serves(server, cursor, q)
    ensures p == q
    decreases |p|
  {
    if cursor.End? {
    } else {
      ServedPagesAreDetermined(server, p[0].next, p[1..], q[1..]);
      assert p == [p[0]] + p[1..] && q == [q[0]] + q[1..];
    }
  }

  /** A server whose pages end never repeats the cursor it was asked with. */
  lemma NoCursorRepeats(server: Server, cursor: Cursor, pages: seq<Page>)
    requires Serves(server, cursor, pages) && pages != []
    ensures pages[0].next != cursor
  {
    if pages[0].next == cursor {
      ServedPagesAreDetermined(server, cursor, pages, pages[1..]);
      assert false;
    }
  }

  /** Refills a stream that ran out of rows; a repeated cursor is refused. */
  method Refill(server: Server, stream: Stream, ghost pages: seq<Page>) returns (after: Stream, repeated: bool, ghost rest: seq<Page>)
    requires Serves(server, stream.cursor, pages)
    ensures !repeated && Serves(server, after.cursor, rest)
    ensures Remaining(after, rest) == Remaining(stream, pages)
    ensures stream.rows != [] || stream.cursor.End? ==> after == stream && rest == pages
    ensures stream.rows == [] && !stream.cursor.End? ==> |rest| == |pages| - 1
  {
    if stream.rows != [] || stream.cursor.End? {
      return stream, false, pages;
    }
    var page := server[stream.cursor];
    NoCursorRepeats(server, stream.cursor, pages);
    rest := pages[1..];
    if !page.next.End? && page.next == stream.cursor {
      return stream, true, pages;
    }
    var rows := FilterRoots(page.threads);
    after, repeated := Stream(page.next, rows), false;
  }

  method FilterRoots(threads: seq<Thread>) returns (rows: seq<Session>)
    ensures rows == Roots(threads)
  {
    rows := [];
    var i := 0;
    while i < |threads|
      invariant i <= |threads|
      invariant Roots(threads) == rows + Roots(threads[i..])
    {
      assert threads[i..][1..] == threads[i + 1..];
      if IsRoot(threads[i]) {
        rows := rows + [Metadata(threads[i])];
      }
      i := i + 1;
    }
  }

  /**
   * One page: it takes rows from the front of the merge of what both streams still deliver, and
   * leaves the streams so that the rest of that merge remains.
   */
  method ListPage(active: Server, archived: Server, collation: Collation, token: (Stream, Stream),
                  ghost pages: (seq<Page>, seq<Page>))
    returns (sessions: seq<Session>, next: Token, ghost taken: seq<Session>, ghost left: (seq<Page>, seq<Page>))
    requires Serves(active, token.0.cursor, pages.0) && Serves(archived, token.1.cursor, pages.1)
    ensures sessions == Collected(taken)
    ensures Merge(collation, Remaining(token.0, pages.0), Remaining(token.1, pages.1))
         == taken + if next.None? then []
                    else Merge(collation, Remaining(next.value.0, left.0), Remaining(next.value.1, left.1))
    ensures next.Some? ==> Serves(active, next.value.0.cursor, left.0) && Serves(archived, next.value.1.cursor, left.1)
    ensures |sessions| <= PAGE_ROWS && (next.Some? ==> |sessions| == PAGE_ROWS)
    ensures next.Some? ==> !(IsFinished(next.value.0) && IsFinished(next.value.1))
  {
    var a, b := token.0, token.1;
    ghost var pagesA, pagesB := pages.0, pages.1;
    ghost var all := Merge(collation, Remaining(a, pagesA), Remaining(b, pagesB));
    sessions, taken := [], [];
    hide Merge, RowsOf, Remaining, Serves, WithRow, Collected;
    NothingCollected();
    while |sessions| < PAGE_ROWS
      invariant Serves(active, a.cursor, pagesA) && Serves(archived, b.cursor, pagesB)
      invariant sessions == Collected(taken) && |sessions| <= PAGE_ROWS
      invariant all == taken + Merge(collation, Remaining(a, pagesA), Remaining(b, pagesB))
      decreases |pagesA| + |pagesB|, |a.rows| + |b.rows|
    {
      var repeatedA, repeatedB;
      a, repeatedA, pagesA := Refill(active, a, pagesA);
      b, repeatedB, pagesB := Refill(archived, b, pagesB);
      if repeatedA || repeatedB {
        assert false;
      }
      if a.rows == [] && b.rows == [] {
        if a.cursor.End? && b.cursor.End? {
          break;
        }
        continue;
      }
      if (a.rows == [] && !a.cursor.End?) || (b.rows == [] && !b.cursor.End?) {
        continue;
      }
      var row;
      row, a, b := TakeRow(active, archived, collation, a, b, pagesA, pagesB);
      CollectedOneMore(taken, row);
      sessions := WithRow(sessions, row);
      taken := taken + [row];
    }
    next := TokenOf(a, b);
    left := (pagesA, pagesB);
    if next.None? {
      NothingRemains(active, archived, collation, a, b, pagesA, pagesB);
    }
  }

  /** Takes the row that sorts first; both streams have rows, or one of them is at its end. */
  method TakeRow(active: Server, archived: Server, collation: Collation, a: Stream, b: Stream, ghost pagesA: seq<Page>, ghost pagesB: seq<Page>)
    returns (row: Session, restA: Stream, restB: Stream)
    requires Serves(active, a.cursor, pagesA) && Serves(archived, b.cursor, pagesB)
    requires a.rows != [] || (b.rows != [] && a.cursor.End?)
    requires b.rows != [] || (a.rows != [] && b.cursor.End?)
    ensures Merge(collation, Remaining(a, pagesA), Remaining(b, pagesB))
         == [row] + Merge(collation, Remaining(restA, pagesA), Remaining(restB, pagesB))
    ensures restA.cursor == a.cursor && restB.cursor == b.cursor
    ensures |restA.rows| + |restB.rows| < |a.rows| + |b.rows|
  {
    TakeFirst(collation, a, b, pagesA, pagesB);
    hide Merge, RowsOf, Remaining;
    restA, restB := a, b;
    if a.rows == [] || (b.rows != [] && Precedes(collation, b.rows[0], a.rows[0])) {
      row := b.rows[0];
      restB := b.(rows := b.rows[1..]);
    } else {
      row := a.rows[0];
      restA := a.(rows := a.rows[1..]);
    }
  }

  lemma NothingRemains(active: Server, archived: Server, collation: Collation, a: Stream, b: Stream, pagesA: seq<Page>, pagesB: seq<Page>)
    requires Serves(active, a.cursor, pagesA) && Serves(archived, b.cursor, pagesB)
    requires IsFinished(a) && IsFinished(b)
    ensures Merge(collation, Remaining(a, pagesA), Remaining(b, pagesB)) == []
  {
  }

  lemma NothingCollected()
    ensures Collected([]) == []
  {
  }

  lemma CollectedOneMore(taken: seq<Session>, row: Session)
    ensures Collected(taken + [row]) == WithRow(Collected(taken), row)
    ensures |WithRow(Collected(taken), row)| <= |Collected(taken)| + 1
  {
    assert (taken + [row])[..|taken|] == taken;
    WithRowGrows(Collected(taken), row);
  }

  lemma {:induction false} WithRowGrows(sessions: seq<Session>, row: Session)
    ensures |sessions| <= |WithRow(sessions, row)| <= |sessions| + 1
  {
    if sessions == [] {
    } else {
      WithRowGrows(sessions[1..], row);
    }
  }

  /** The better of the two first rows is the first row of the merge. */
  lemma TakeFirst(collation: Collation, a: Stream, b: Stream, pagesA: seq<Page>, pagesB: seq<Page>)
    requires a.rows != [] || (b.rows != [] && pagesA == [])
    requires b.rows != [] || (a.rows != [] && pagesB == [])
    ensures Merge(collation, Remaining(a, pagesA), Remaining(b, pagesB))
         == if a.rows == [] || (b.rows != [] && Precedes(collation, b.rows[0], a.rows[0]))
            then [b.rows[0]] + Merge(collation, Remaining(a, pagesA), Remaining(b.(rows := b.rows[1..]), pagesB))
            else [a.rows[0]] + Merge(collation, Remaining(a.(rows := a.rows[1..]), pagesA), Remaining(b, pagesB))
  {
    assert a.rows != [] ==> Remaining(a, pagesA)[1..] == Remaining(a.(rows := a.rows[1..]), pagesA);
    assert b.rows != [] ==> Remaining(b, pagesB)[1..] == Remaining(b.(rows := b.rows[1..]), pagesB);
  }

  // ---------------------------------------------------------------------------------------------
  // All pages
  // ---------------------------------------------------------------------------------------------

  /**
   * Follows the page tokens to the end: with distinct ids the pages together are the merge of the
   * two filtered listings, whatever the sizes of the server's pages.
   */
  method ListAllPages(active: Server, archived: Server, collation: Collation, ghost pages: (seq<Page>, seq<Page>))
    returns (sessions: seq<Session>)
    requires Serves(active, First, pages.0) && Serves(archived, First, pages.1)
    ensures DistinctIds(Merge(collation, RowsOf(pages.0), RowsOf(pages.1))) ==>
              sessions == Merge(collation, RowsOf(pages.0), RowsOf(pages.1))
  {
    sessions := [];
    ghost var all := Merge(collation, RowsOf(pages.0), RowsOf(pages.1));
    ghost var done: seq<Session> := [];
    var token: Token := Some((UNREAD, UNREAD));
    ghost var left := pages;
    UnreadRemains(pages.0);
    UnreadRemains(pages.1);
    hide Merge, RowsOf, Remaining, Serves, Collected, DistinctIds;
    while token.Some?
      invariant token.Some? ==>
          && Serves(active, token.value.0.cursor, left.0) && Serves(archived, token.value.1.cursor, left.1)
          && all == done + Merge(collation, Remaining(token.value.0, left.0), Remaining(token.value.1, left.1))
      invariant token.None? ==> all == done
      invariant DistinctIds(all) ==> sessions == done
      decreases |all| - |done|, token.Some?
    {
      ghost var taken, rest;
      var page;
      page, token, taken, left := ListPage(active, archived, collation, token.value, left);
      rest := if token.None? then [] else Merge(collation, Remaining(token.value.0, left.0), Remaining(token.value.1, left.1));
      PageOfDistinctRows(done, taken, rest);
      assert all == done + (taken + rest) == (done + taken) + rest;
      done := done + taken;
      sessions := sessions + page;
    }
  }

  lemma UnreadRemains(pages: seq<Page>)
    ensures Remaining(UNREAD, pages) == RowsOf(pages)
  {
    hide RowsOf;
    assert [] + RowsOf(pages) == RowsOf(pages);
  }

  lemma PageOfDistinctRows(done: seq<Session>, taken: seq<Session>, rest: seq<Session>)
    ensures DistinctIds(done + (taken + rest)) ==> Collected(taken) == taken
    ensures |Collected(taken)| <= |taken|
  {
    CollectedIsNoLonger(taken);
    var all := done + (taken + rest);
    if DistinctIds(all) {
      assert forall i | 0 <= i < |taken| :: taken[i] == all[|done| + i];
      DistinctRowsAreKept(taken);
    }
  }

  lemma {:induction false} CollectedIsNoLonger(rows: seq<Session>)
    ensures |Collected(rows)| <= |rows|
  {
    if rows == [] {
    } else {
      CollectedIsNoLonger(rows[..|rows| - 1]);
      WithRowGrows(Collected(rows[..|rows| - 1]), rows[|rows| - 1]);
    }
  }
}
