/**
 * The cached thread inventory of each runtime, the fetches that fill it, and the page loops of a
 * fetch. Fetches complete in any order, and refreshes and clears come between.
 */
module ThreadInventory {
  import opened Prelude

  datatype Thread = Thread(id: Id, status: Id, details: Id)

  datatype Inventory = Inventory(loaded: set<Id>, threads: map<Id, Thread>)

  datatype Mode = ReadMode | RefreshMode

  /** A fetch, known by the object that stands for it while it is pending. */
  datatype Fetch = Fetch(runtime: Id, mode: Mode)

  type Overrides = map<Id, map<Id, Id>>

  /**
   * `fetches` are all fetches ever started, by ticket, and `open` those that have not ended.
   * `outdated` records which of them a refresh superseded or a clear invalidated, and `source`
   * which fetch the cached inventory came from; the code keeps neither.
   */
  datatype Reader = Reader(
    cache: map<Id, Inventory>,
    pending: map<Id, Id>,
    overrides: Overrides,
    fetches: map<Id, Fetch>,
    open: set<Id>,
    outdated: set<Id>,
    source: map<Id, Id>,
    next: Id)

  const EMPTY_READER := Reader(map[], map[], map[], map[], {}, {}, map[], 0)

  function FetchesOf(s: Reader, runtime: Id): set<Id> {
    set t | t in s.fetches && s.fetches[t].runtime == runtime
  }

  function Started(s: Reader, runtime: Id, mode: Mode): Reader {
    s.(fetches := s.fetches[s.next := Fetch(runtime, mode)],
       open := s.open + {s.next},
       pending := s.pending[runtime := s.next],
       next := s.next + 1)
  }

  /** What a caller gets: a view of the cache at once, or the result of a pending fetch. */
  datatype Answer = Cached(view: Inventory) | Joins(ticket: Id)

  predicate IsPendingRefresh(s: Reader, runtime: Id) {
    runtime in s.pending && s.pending[runtime] in s.fetches && s.fetches[s.pending[runtime]].mode == RefreshMode
  }

  function ReadAnswer(s: Reader, runtime: Id): Answer {
    if runtime in s.cache then Cached(View(s, runtime, s.cache[runtime]))
    else if runtime in s.pending then Joins(s.pending[runtime])
    else Joins(s.next)
  }

  function AfterRead(s: Reader, runtime: Id): Reader {
    if runtime in s.cache || runtime in s.pending then s else Started(s, runtime, ReadMode)
  }

  /** A refresh joins a refresh that is under way; it supersedes every other fetch of the runtime. */
  function AfterRefresh(s: Reader, runtime: Id): Reader {
    var s' := s.(cache := s.cache - {runtime}, source := s.source - {runtime});
    if IsPendingRefresh(s, runtime) then s'.(outdated := s.outdated + (FetchesOf(s, runtime) - {s.pending[runtime]}))
    else Started(s'.(outdated := s.outdated + FetchesOf(s, runtime)), runtime, RefreshMode)
  }

  function RefreshAnswer(s: Reader, runtime: Id): Answer {
    Joins(if IsPendingRefresh(s, runtime) then s.pending[runtime] else s.next)
  }

  function AfterClear(s: Reader, runtime: Id): Reader {
    s.(cache := s.cache - {runtime},
       source := s.source - {runtime},
       pending := s.pending - {runtime},
       outdated := s.outdated + FetchesOf(s, runtime))
  }

  predicate IsPending(s: Reader, ticket: Id) {
    ticket in s.fetches && s.fetches[ticket].runtime in s.pending && s.pending[s.fetches[ticket].runtime] == ticket
  }

  /** A fetch ends with an inventory, or fails. */
  function AfterEnd(s: Reader, ticket: Id, result: Option<Inventory>): Reader {
    if ticket !in s.open || ticket !in s.fetches then s
    else
      var runtime := s.fetches[ticket].runtime;
      var ended := s.(open := s.open - {ticket});
      if !IsPending(s, ticket) then ended
      else if result.None? then ended.(pending := s.pending - {runtime})
      else ended.(pending := s.pending - {runtime},
                  cache := s.cache[runtime := result.value],
                  source := s.source[runtime := ticket])
  }

  function OverridesOf(s: Reader, runtime: Id): map<Id, Id> {
    if runtime in s.overrides then s.overrides[runtime] else map[]
  }

  /** An inventory as it is returned: threads with an override have that status and count as loaded. */
  function View(s: Reader, runtime: Id, inventory: Inventory): Inventory {
    var overrides := OverridesOf(s, runtime);
    Inventory(
      inventory.loaded + (overrides.Keys * inventory.threads.Keys),
      map id | id in inventory.threads ::
        if id in overrides then inventory.threads[id].(status := overrides[id]) else inventory.threads[id])
  }

  function WithStatus(s: Reader, runtime: Id, thread: Id, status: Id): Reader {
    s.(overrides := s.overrides[runtime := OverridesOf(s, runtime)[thread := status]])
  }

  function WithoutStatus(s: Reader, runtime: Id, thread: Id): Reader {
    var left := OverridesOf(s, runtime) - {thread};
    s.(overrides := if left == map[] then s.overrides - {runtime} else s.overrides[runtime := left])
  }

  datatype Step =
    | Read(runtime: Id)
    | Refresh(runtime: Id)
    | Clear(runtime: Id)
    | Dispose(runtime: Id)
    | End(ticket: Id, result: Option<Inventory>)
    | UpdateStatus(runtime: Id, thread: Id, status: Id)
    | ClearStatus(runtime: Id, thread: Id)

  function Next(s: Reader, step: Step): Reader {
    match step
    case Read(runtime) => AfterRead(s, runtime)
    case Refresh(runtime) => AfterRefresh(s, runtime)
    case Clear(runtime) => AfterClear(s, runtime)
    case Dispose(runtime) => AfterClear(s, runtime).(overrides := s.overrides - {runtime})
    case End(ticket, result) => AfterEnd(s, ticket, result)
    case UpdateStatus(runtime, thread, status) => WithStatus(s, runtime, thread, status)
    case ClearStatus(runtime, thread) => WithoutStatus(s, runtime, thread)
  }

  function Run(s: Reader, steps: seq<Step>): Reader
    decreases |steps|
  {
    if steps == [] then s else Run(Next(s, steps[0]), steps[1..])
  }

  // ---------------------------------------------------------------------------------------------
  // Outdated fetches
  // ---------------------------------------------------------------------------------------------

  ghost predicate TicketsKnown(s: Reader) {
    && (forall t <- s.fetches :: t < s.next)
    && s.open <= s.fetches.Keys && s.outdated <= s.fetches.Keys
  }

  /** The pending fetch of a runtime is its one open fetch that is not outdated. */
  ghost predicate PendingIsCurrent(s: Reader) {
    && (forall r <- s.pending ::
          var t := s.pending[r];
          t in s.open && t in s.fetches && s.fetches[t].runtime == r && t !in s.outdated)
    && (forall t <- s.open :: t !in s.outdated ==> IsPending(s, t))
  }

  /** The cached inventory of a runtime came from a fetch of that runtime that is not outdated. */
  ghost predicate CacheIsCurrent(s: Reader) {
    && s.source.Keys == s.cache.Keys
    && (forall r <- s.cache :: r !in s.pending)
    && (forall r <- s.source :: s.source[r] in s.fetches && s.fetches[s.source[r]].runtime == r && s.source[r] !in s.outdated)
  }

  ghost predicate Inv(s: Reader) {
    TicketsKnown(s) && PendingIsCurrent(s) && CacheIsCurrent(s)
  }

  lemma StartedKeepsInv(s: Reader, runtime: Id, mode: Mode)
    requires Inv(s) && runtime !in s.cache && FetchesOf(s, runtime) * s.open <= s.outdated
    ensures Inv(Started(s, runtime, mode))
  {
    var after := Started(s, runtime, mode);
    assert s.next !in s.fetches && s.next !in s.open && s.next !in s.outdated;
    forall t | t in after.open && t !in after.outdated ensures IsPending(after, t) {
      if t != s.next {
        assert IsPending(s, t);
        assert s.fetches[t].runtime == runtime ==> t in FetchesOf(s, runtime);
      }
    }
  }

  lemma ReadKeepsInv(s: Reader, runtime: Id)
    requires Inv(s)
    ensures Inv(AfterRead(s, runtime))
  {
    if runtime !in s.cache && runtime !in s.pending {
      forall t | t in FetchesOf(s, runtime) * s.open ensures t in s.outdated {
        assert t !in s.outdated ==> IsPending(s, t);
      }
      StartedKeepsInv(s, runtime, ReadMode);
    }
  }

  lemma ForgetKeepsInv(s: Reader, runtime: Id, outdated: set<Id>, pending: map<Id, Id>)
    requires Inv(s) && pending in {s.pending, s.pending - {runtime}}
    requires outdated == FetchesOf(s, runtime) - (if runtime in pending then {pending[runtime]} else {})
    ensures Inv(s.(cache := s.cache - {runtime}, source := s.source - {runtime}, pending := pending, outdated := s.outdated + outdated))
  {
    var after := s.(cache := s.cache - {runtime}, source := s.source - {runtime}, pending := pending, outdated := s.outdated + outdated);
    forall t | t in after.open && t !in after.outdated ensures IsPending(after, t) {
      assert IsPending(s, t);
    }
  }

  lemma RefreshKeepsInv(s: Reader, runtime: Id)
    requires Inv(s)
    ensures Inv(AfterRefresh(s, runtime))
  {
    if IsPendingRefresh(s, runtime) {
      ForgetKeepsInv(s, runtime, FetchesOf(s, runtime) - {s.pending[runtime]}, s.pending);
    } else {
      ForgetKeepsInv(s, runtime, FetchesOf(s, runtime), s.pending - {runtime});
      var forgotten := s.(cache := s.cache - {runtime}, source := s.source - {runtime}, pending := s.pending - {runtime},
                          outdated := s.outdated + FetchesOf(s, runtime));
      assert FetchesOf(forgotten, runtime) == FetchesOf(s, runtime);
      StartedKeepsInv(forgotten, runtime, RefreshMode);
      assert AfterRefresh(s, runtime).pending == Started(forgotten, runtime, RefreshMode).pending;
    }
  }

  lemma ClearKeepsInv(s: Reader, runtime: Id)
    requires Inv(s)
    ensures Inv(AfterClear(s, runtime))
  {
    ForgetKeepsInv(s, runtime, FetchesOf(s, runtime), s.pending - {runtime});
  }

  lemma EndKeepsInv(s: Reader, ticket: Id, result: Option<Inventory>)
    requires Inv(s)
    ensures Inv(AfterEnd(s, ticket, result))
  {
    EndKeepsPending(s, ticket, result);
    EndKeepsCache(s, ticket, result);
    hide PendingIsCurrent, CacheIsCurrent;
  }

  lemma EndKeepsPending(s: Reader, ticket: Id, result: Option<Inventory>)
    requires PendingIsCurrent(s)
    ensures PendingIsCurrent(AfterEnd(s, ticket, result))
  {
    var after := AfterEnd(s, ticket, result);
    forall t | t in after.open && t !in after.outdated ensures IsPending(after, t) {
      assert IsPending(s, t);
    }
  }

  lemma EndKeepsCache(s: Reader, ticket: Id, result: Option<Inventory>)
    requires PendingIsCurrent(s) && CacheIsCurrent(s)
    ensures CacheIsCurrent(AfterEnd(s, ticket, result))
  {
  }

  lemma StepKeepsInv(s: Reader, step: Step)
    requires Inv(s)
    ensures Inv(Next(s, step))
  {
    hide AfterRead, AfterRefresh, AfterClear, AfterEnd, View;
    match step
    case Read(runtime) => ReadKeepsInv(s, runtime);
    case Refresh(runtime) => RefreshKeepsInv(s, runtime);
    case Clear(runtime) => ClearKeepsInv(s, runtime);
    case Dispose(runtime) => ClearKeepsInv(s, runtime);
    case End(ticket, result) => EndKeepsInv(s, ticket, result);
    case UpdateStatus(_, _, _) =>
    case ClearStatus(_, _) =>
  }

  lemma {:induction false} RunKeepsInv(s: Reader, steps: seq<Step>)
    requires Inv(s)
    ensures Inv(Run(s, steps))
    decreases |steps|
  {
    if steps == [] {
    } else {
      StepKeepsInv(s, steps[0]);
      hide Inv, Next;
      RunKeepsInv(Next(s, steps[0]), steps[1..]);
    }
  }

  /** Whatever the order of completions, the cached inventory never comes from an outdated fetch. */
  lemma CachedInventoryIsCurrent(steps: seq<Step>, runtime: Id)
    requires runtime in Run(EMPTY_READER, steps).cache
    ensures var s := Run(EMPTY_READER, steps);
            && runtime in s.source && s.source[runtime] in s.fetches
            && s.fetches[s.source[runtime]].runtime == runtime
            && s.source[runtime] !in s.outdated
            && runtime !in s.pending
  {
    RunKeepsInv(EMPTY_READER, steps);
    hide Run;
  }

  /** A completed fetch becomes the cached inventory exactly when nothing made it outdated meanwhile. */
  lemma CompletionIsCachedIff(s: Reader, ticket: Id, inventory: Inventory)
    requires Inv(s) && ticket in s.open
    ensures var after := Next(s, End(ticket, Some(inventory)));
            && (ticket !in s.outdated ==>
                  after.cache == s.cache[s.fetches[ticket].runtime := inventory]
                  && after.source == s.source[s.fetches[ticket].runtime := ticket])
            && (ticket in s.outdated ==> after.cache == s.cache && after.source == s.source)
  {
    assert ticket !in s.outdated ==> IsPending(s, ticket);
  }

  /** Once outdated, always outdated: a later completion in any order never revives a fetch. */
  lemma {:induction false} OutdatedStaysOutdated(s: Reader, steps: seq<Step>, ticket: Id)
    requires Inv(s) && ticket in s.outdated
    ensures var after := Run(s, steps);
            ticket in after.outdated && forall r <- after.source :: after.source[r] != ticket
    decreases |steps|
  {
    if steps == [] {
    } else {
      StepKeepsInv(s, steps[0]);
      OutdatedStaysOutdated(Next(s, steps[0]), steps[1..], ticket);
    }
  }

  /** A refresh or clear leaves nothing older in force: later reads are served by later or joined fetches. */
  lemma ReadAfterRefreshIsServedByIt(s: Reader, runtime: Id)
    requires Inv(s)
    ensures ReadAnswer(AfterRefresh(s, runtime), runtime) == RefreshAnswer(s, runtime)
    ensures ReadAnswer(AfterClear(s, runtime), runtime) == Joins(s.next)
  {
    StepKeepsInv(s, Refresh(runtime));
  }

  /** Status overrides never reach the cache, and change nothing in a view but the overridden threads. */
  lemma OverridesChangeOnlyViews(s: Reader, runtime: Id, thread: Id, status: Id, inventory: Inventory, other: Id)
    requires other in inventory.threads
    ensures WithStatus(s, runtime, thread, status).cache == s.cache && WithoutStatus(s, runtime, thread).cache == s.cache
    ensures var view := View(WithStatus(s, runtime, thread, status), runtime, inventory);
            && view.threads.Keys == inventory.threads.Keys
            && view.threads[other]
               == (if other == thread then inventory.threads[other].(status := status)
                   else View(s, runtime, inventory).threads[other])
            && (other in view.loaded <==> other == thread || other in View(s, runtime, inventory).loaded)
    ensures var view := View(WithoutStatus(s, runtime, thread), runtime, inventory);
            view.threads[other]
            == if other == thread then inventory.threads[other] else View(s, runtime, inventory).threads[other]
  {
    var left := OverridesOf(s, runtime) - {thread};
    assert OverridesOf(WithoutStatus(s, runtime, thread), runtime) == left;
  }

  // ---------------------------------------------------------------------------------------------
  // The returned view
  // ---------------------------------------------------------------------------------------------

  /** Applies the overrides one by one, copying the inventory before the first change. */
  method WithStatusOverrides(overrides: map<Id, Id>, inventory: Inventory) returns (view: Inventory)
    ensures view.loaded == inventory.loaded + (overrides.Keys * inventory.threads.Keys)
    ensures view.threads == map id | id in inventory.threads ::
              if id in overrides then inventory.threads[id].(status := overrides[id]) else inventory.threads[id]
  {
    var projected: Option<Inventory> := None;
    var left := overrides.Keys;
    while left != {}
      invariant left <= overrides.Keys
      invariant var v := if projected.Some? then projected.value else inventory;
        && v.loaded == inventory.loaded + ((overrides.Keys - left) * inventory.threads.Keys)
        && v.threads.Keys == inventory.threads.Keys
        && forall id <- v.threads :: v.threads[id]
             == if id in overrides && id !in left then inventory.threads[id].(status := overrides[id]) else inventory.threads[id]
    {
      var thread :| thread in left;
      if thread in inventory.threads {
        var copy := if projected.Some? then projected.value else inventory;
        projected := Some(Inventory(
          copy.loaded + {thread},
          copy.threads[thread := inventory.threads[thread].(status := overrides[thread])]));
      }
      left := left - {thread};
    }
    view := if projected.Some? then projected.value else inventory;
  }

  // ---------------------------------------------------------------------------------------------
  // Pages
  // ---------------------------------------------------------------------------------------------

  /** A page of items, and the cursor of the next page if there is one. */
  datatype Page<T> = Page(items: seq<T>, next: Option<Id>)

  function Concat<T>(answers: nat -> Page<T>, n: nat): seq<T> {
    if n == 0 then [] else Concat(answers, n - 1) + answers(n - 1).items
  }

  /** The first `n` answers all continue, each with another cursor. */
  ghost predicate Continues<T>(answers: nat -> Page<T>, n: nat) {
    && (forall i | 0 <= i < n :: answers(i).next.Some?)
    && (forall i, j | 0 <= i < j < n :: answers(i).next != answers(j).next)
  }

  function CursorsUpTo<T>(answers: nat -> Page<T>, n: nat): set<Option<Id>> {
    set i | 0 <= i < n :: answers(i).next
  }

  /**
   * What a page loop ends with after `requests` requests: the items of all pages in order when the
   * last page has no successor, or a refusal when the last page repeats an earlier cursor.
   */
  ghost predicate Ends<T>(answers: nat -> Page<T>, bound: nat, items: Option<seq<T>>, requests: nat) {
    && 0 < requests <= bound + 1 && Continues(answers, requests - 1)
    && match answers(requests - 1).next
       case None => items == Some(Concat(answers, requests))
       case Some(c) => items.None? && Some(c) in CursorsUpTo(answers, requests - 1)
  }

  /** Between two requests: the cursor of the last page is new, and the ones before it are recorded. */
  ghost predicate Reached<T>(
    answers: nat -> Page<T>, cursors: set<Id>, n: nat, all: seq<T>, cursor: Option<Id>, seen: set<Id>)
  {
    && Continues(answers, n) && all == Concat(answers, n)
    && seen <= cursors
    && if n == 0 then cursor.None? && seen == {}
       else cursor == answers(n - 1).next && cursor.Some? && |seen| == n - 1 && SeenAre(answers, n - 1, seen)
  }

  /** The server may answer each request in any way, but knows only the given cursors. */
  ghost predicate KnowsOnly<T>(answers: nat -> Page<T>, cursors: set<Id>) {
    forall i: nat :: answers(i).next.Some? ==> answers(i).next.value in cursors
  }

  method FetchPages<T>(answers: nat -> Page<T>, ghost cursors: set<Id>) returns (items: Option<seq<T>>, requests: nat)
    requires KnowsOnly(answers, cursors)
    ensures Ends(answers, |cursors|, items, requests)
  {
    var all: seq<T> := [];
    var cursor: Option<Id> := None;
    var seenCursors: set<Id> := {};
    requests := 0;
    StartOfPages(answers);
    assert Reached(answers, cursors, requests, all, cursor, seenCursors);
    hide Reached, Ends;
    while true
      invariant Reached(answers, cursors, requests, all, cursor, seenCursors)
      decreases |cursors| + 1 - requests
    {
      RequestsAreBounded(answers, cursors, requests, all, cursor, seenCursors);
      OneMorePage(answers, cursors, requests, all, cursor, seenCursors);
      if cursor.Some? {
        seenCursors := seenCursors + {cursor.value};
      }
      var response := answers(requests);
      all := all + response.items;
      requests := requests + 1;
      cursor := response.next;
      if cursor.Some? && cursor.value in seenCursors {
        return None, requests;
      }
      if cursor.None? {
        return Some(all), requests;
      }
    }
  }

  ghost predicate HasExactly(ids: set<Id>, items: seq<Id>) {
    forall id: Id :: id in ids <==> id in items
  }

  lemma MoreIds(ids: set<Id>, items: seq<Id>, more: seq<Id>)
    requires HasExactly(ids, items)
    ensures HasExactly(ids + (set id | id in more), items + more)
  {
  }

  /** As `Ends`, for a loop that collects ids in a set. */
  ghost predicate EndsWithIds(answers: nat -> Page<Id>, bound: nat, ids: Option<set<Id>>, requests: nat) {
    && 0 < requests
    && Ends(answers, bound, if ids.Some? then Some(Concat(answers, requests)) else None, requests)
    && (ids.Some? ==> HasExactly(ids.value, Concat(answers, requests)))
  }

  lemma CollectedIds(answers: nat -> Page<Id>, bound: nat, all: Option<seq<Id>>, ids: Option<set<Id>>, requests: nat)
    requires Ends(answers, bound, all, requests) && all.Some? == ids.Some?
    requires ids.Some? ==> HasExactly(ids.value, all.value)
    ensures EndsWithIds(answers, bound, ids, requests)
  {
  }

  /** The loop that reads the loaded thread ids collects them in a set. */
  method FetchLoadedThreadIds(answers: nat -> Page<Id>, ghost cursors: set<Id>) returns (ids: Option<set<Id>>, requests: nat)
    requires KnowsOnly(answers, cursors)
    ensures EndsWithIds(answers, |cursors|, ids, requests)
  {
    ghost var all: seq<Id> := [];
    var loadedIds: set<Id> := {};
    var cursor: Option<Id> := None;
    var seenCursors: set<Id> := {};
    requests := 0;
    StartOfPages(answers);
    assert Reached(answers, cursors, requests, all, cursor, seenCursors);
    assert HasExactly(loadedIds, all);
    hide Reached, Ends, HasExactly, EndsWithIds;
    while true
      invariant Reached(answers, cursors, requests, all, cursor, seenCursors) && HasExactly(loadedIds, all)
      decreases |cursors| + 1 - requests
    {
      RequestsAreBounded(answers, cursors, requests, all, cursor, seenCursors);
      OneMorePage(answers, cursors, requests, all, cursor, seenCursors);
      if cursor.Some? {
        seenCursors := seenCursors + {cursor.value};
      }
      var response := answers(requests);
      MoreIds(loadedIds, all, response.items);
      loadedIds := loadedIds + set id | id in response.items;
      all := all + response.items;
      requests := requests + 1;
      cursor := response.next;
      if cursor.Some? && cursor.value in seenCursors {
        CollectedIds(answers, |cursors|, None, None, requests);
        return None, requests;
      }
      if cursor.None? {
        CollectedIds(answers, |cursors|, Some(all), Some(loadedIds), requests);
        return Some(loadedIds), requests;
      }
    }
  }

  /** The map holds, for each id that occurs, the last thread with that id. */
  ghost predicate IndexesLast(byId: map<Id, Thread>, threads: seq<Thread>) {
    && (forall i | 0 <= i < |threads| :: threads[i].id in byId)
    && forall id <- byId :: exists i | 0 <= i < |threads| :: IsLastWith(threads, i, id) && byId[id] == threads[i]
  }

  predicate IsLastWith(threads: seq<Thread>, i: nat, id: Id)
    requires i < |threads|
  {
    threads[i].id == id && forall j | i < j < |threads| :: threads[j].id != id
  }

  lemma IndexOneMore(byId: map<Id, Thread>, threads: seq<Thread>, thread: Thread)
    requires IndexesLast(byId, threads)
    ensures IndexesLast(byId[thread.id := thread], threads + [thread])
  {
    var more := threads + [thread];
    assert IsLastWith(more, |threads|, thread.id) && more[|threads|] == thread;
    forall id <- byId | id != thread.id
      ensures exists i | 0 <= i < |more| :: IsLastWith(more, i, id) && byId[id] == more[i]
    {
      var i :| 0 <= i < |threads| && IsLastWith(threads, i, id) && byId[id] == threads[i];
      assert IsLastWith(more, i, id) && byId[id] == more[i];
    }
  }

  method ThreadsById(threads: seq<Thread>) returns (byId: map<Id, Thread>)
    ensures IndexesLast(byId, threads)
  {
    byId := map[];
    hide IndexesLast, IsLastWith;
    assert IndexesLast(byId, threads[..0]) by {
      NothingIndexed(threads[..0]);
    }
    for i := 0 to |threads|
      invariant IndexesLast(byId, threads[..i])
    {
      IndexOneMore(byId, threads[..i], threads[i]);
      assert threads[..i + 1] == threads[..i] + [threads[i]];
      byId := byId[threads[i].id := threads[i]];
    }
    assert threads[..|threads|] == threads;
  }

  lemma NothingIndexed(threads: seq<Thread>)
    requires threads == []
    ensures IndexesLast(map[], threads)
  {
  }

  /** One fetch: all loaded ids and all threads, or nothing when either listing repeats a cursor. */
  method FetchInventory(
    idPages: nat -> Page<Id>, threadPages: nat -> Page<Thread>, ghost idCursors: set<Id>, ghost threadCursors: set<Id>)
    returns (inventory: Option<Inventory>, idRequests: nat, threadRequests: nat)
    requires KnowsOnly(idPages, idCursors) && KnowsOnly(threadPages, threadCursors)
    ensures 0 < idRequests <= |idCursors| + 1 && 0 < threadRequests <= |threadCursors| + 1
    ensures inventory.Some?
            <==> idPages(idRequests - 1).next.None? && threadPages(threadRequests - 1).next.None?
    ensures inventory.Some? ==>
              && HasExactly(inventory.value.loaded, Concat(idPages, idRequests))
              && IndexesLast(inventory.value.threads, Concat(threadPages, threadRequests))
  {
    var ids, n := FetchLoadedThreadIds(idPages, idCursors);
    var threads, m := FetchPages(threadPages, threadCursors);
    hide IndexesLast, HasExactly, Concat, Continues, CursorsUpTo, KnowsOnly;
    idRequests, threadRequests := n, m;
    if ids.None? || threads.None? {
      return None, n, m;
    }
    var byId := ThreadsById(threads.value);
    inventory := Some(Inventory(ids.value, byId));
  }

  lemma RequestsAreBounded<T>(
    answers: nat -> Page<T>, cursors: set<Id>, n: nat, all: seq<T>, cursor: Option<Id>, seen: set<Id>)
    requires KnowsOnly(answers, cursors) && Reached(answers, cursors, n, all, cursor, seen)
    ensures n <= |cursors|
  {
    if n > 0 {
      assert Continues(answers, n);
      CursorIsNew(answers, n - 1);
      assert cursor.value !in seen;
      SubsetIsNoLarger(seen + {cursor.value}, cursors);
    }
  }

  lemma CursorIsNew<T>(answers: nat -> Page<T>, n: nat)
    requires Continues(answers, n + 1)
    ensures answers(n).next !in CursorsUpTo(answers, n)
  {
  }

  lemma OneMorePage<T>(
    answers: nat -> Page<T>, cursors: set<Id>, n: nat, all: seq<T>, cursor: Option<Id>, seen: set<Id>)
    requires KnowsOnly(answers, cursors) && Reached(answers, cursors, n, all, cursor, seen)
    ensures var seen' := if cursor.Some? then seen + {cursor.value} else seen;
            var next := answers(n).next;
            if next.None? then Ends(answers, |cursors|, Some(all + answers(n).items), n + 1)
            else if next.value in seen' then Ends(answers, |cursors|, None, n + 1)
            else Reached(answers, cursors, n + 1, all + answers(n).items, next, seen')
  {
    RequestsAreBounded(answers, cursors, n, all, cursor, seen);
    ConcatOneMore(answers, n);
    SeenOneMore(answers, cursors, n, all, cursor, seen);
    var seen' := if cursor.Some? then seen + {cursor.value} else seen;
    var next := answers(n).next;
    if next.Some? && next.value !in seen' {
      ContinuesOneMore(answers, n);
    }
    hide Continues, Concat, CursorsUpTo;
  }

  lemma SeenOneMore<T>(
    answers: nat -> Page<T>, cursors: set<Id>, n: nat, all: seq<T>, cursor: Option<Id>, seen: set<Id>)
    requires KnowsOnly(answers, cursors) && Reached(answers, cursors, n, all, cursor, seen)
    ensures var seen' := if cursor.Some? then seen + {cursor.value} else seen;
            SeenAre(answers, n, seen') && |seen'| == n && seen' <= cursors
  {
    StartOfPages(answers);
    if n > 0 {
      CursorsOneMore(answers, n - 1);
      CursorIsNew(answers, n - 1);
    }
    hide Continues, Concat, CursorsUpTo;
  }

  ghost predicate SeenAre<T>(answers: nat -> Page<T>, n: nat, seen: set<Id>) {
    forall c: Id :: c in seen <==> Some(c) in CursorsUpTo(answers, n)
  }

  lemma StartOfPages<T>(answers: nat -> Page<T>)
    ensures Continues(answers, 0) && Concat(answers, 0) == [] && CursorsUpTo(answers, 0) == {}
  {
  }

  lemma ConcatOneMore<T>(answers: nat -> Page<T>, n: nat)
    ensures Concat(answers, n + 1) == Concat(answers, n) + answers(n).items
  {
  }

  lemma CursorsOneMore<T>(answers: nat -> Page<T>, n: nat)
    ensures CursorsUpTo(answers, n + 1) == CursorsUpTo(answers, n) + {answers(n).next}
  {
  }

  lemma ContinuesOneMore<T>(answers: nat -> Page<T>, n: nat)
    requires Continues(answers, n) && answers(n).next.Some? && answers(n).next !in CursorsUpTo(answers, n)
    ensures Continues(answers, n + 1)
  {
    forall i | 0 <= i < n ensures answers(i).next != answers(n).next {
      assert answers(i).next in CursorsUpTo(answers, n);
    }
  }
}
