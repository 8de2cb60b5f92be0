/** The walks as the adapter runs them: loops and a recursion over visited sets. */
module LiveSessionWalks {
  import opened Prelude
  import opened SubagentLinks
  import opened SubagentLinkStates
  import opened RouteForest

  lemma DistinctExtends<T>(items: seq<T>, item: T)
    requires Distinct(items) && item !in items
    ensures Distinct(items + [item])
  {
  }

  class LiveSessions {
    const subagents: SubagentLinkState
    var sessions: map<Id, Session>

    constructor (subagents: SubagentLinkState)
      ensures this.subagents == subagents && sessions == map[]
    {
      this.subagents := subagents;
      sessions := map[];
    }

    ghost predicate Valid()
      reads this, subagents
    {
      && subagents.Valid()
      && forall t <- sessions :: sessions[t].thread == t
    }

    ghost function Up(runtime: Id): map<Id, Route>
      reads subagents
    {
      ForestOf(subagents.Value(), runtime)
    }

    method RouteForChildThread(child: Id, runtime: Id) returns (route: Option<Route>)
      ensures route == Lookup(Up(runtime), child)
    {
      route := None;
      if (runtime, child) in subagents.linksByChild {
        route := RouteOf(subagents.linksByChild[(runtime, child)]);
      }
    }

    /** Climbs from a thread to its nearest retained session, and stays in one runtime. */
    method FindRetainedSessionOwner(runtime: Id, thread: Id) returns (owner: Option<(Session, Option<Route>)>)
      ensures owner == OwnerOf(Up(runtime), sessions, runtime, thread)
    {
      ghost var up := Up(runtime);
      var visited: set<Id> := {};
      var current := thread;
      var targetRoute: Option<Route> := None;
      while current !in visited
        invariant Climbed(up, sessions, thread, visited, current)
        invariant targetRoute == if visited == {} then None else Lookup(up, thread)
        decreases up.Keys - visited, current !in visited
      {
        NearestUnfolds(up, sessions, current);
        if current in sessions {
          return if sessions[current].runtime == runtime then Some((sessions[current], targetRoute)) else None;
        }
        var route := RouteForChildThread(current, runtime);
        if route.None? {
          return None;
        }
        visited := visited + {current};
        targetRoute := OrElse(targetRoute, route);
        current := route.value.parent;
      }
      owner := None;
      RevisitingHasNoOwner(up, sessions, thread, visited, current);
    }

    /** One snapshot for every changed thread that has a retained owner in the runtime. */
    method ChangedLiveSessionSnapshots(runtime: Id, changed: seq<Id>) returns (snapshots: seq<Snapshot>)
      requires Valid() && Distinct(changed)
      ensures ShowsDelta(Up(runtime), sessions, runtime, changed, snapshots)
    {
      ForestLooksUpRoutes(subagents.Value(), runtime);
      snapshots := [];
      for i := 0 to |changed|
        invariant ShowsDelta(Up(runtime), sessions, runtime, changed[..i], snapshots)
      {
        var owner := FindRetainedSessionOwner(runtime, changed[i]);
        OwnerGivesDelta(Up(runtime), sessions, runtime, changed[i]);
        ShowingOneMore(Up(runtime), sessions, runtime, changed, i, snapshots);
        if owner.Some? {
          snapshots := snapshots + [SnapshotFor(owner.value)];
        }
      }
      assert changed[..|changed|] == changed;
    }

    /** Every retained session of the runtime, and every thread routed below one of them. */
    method ListLiveSessionSnapshots(runtime: Id) returns (snapshots: seq<Snapshot>)
      requires Valid()
      ensures ShowsFull(Up(runtime), sessions, runtime, snapshots)
    {
      ParentIndexHoldsForest(subagents.Value(), runtime);
      ghost var up := Up(runtime);
      var links := subagents.linksByParent;
      var local := SessionsOf(sessions, runtime);
      snapshots := OwnSnapshots(local, up);
      var visited := local.Keys;
      var pending := local.Keys;
      while pending != {}
        invariant pending <= local.Keys <= visited
        invariant Descended(up, local, visited, snapshots)
        invariant ChildrenVisited(up, visited, visited - pending)
        decreases |pending|
      {
        var thread :| thread in pending;
        ghost var before := visited;
        StartingBelow(up, local, visited, snapshots, thread);
        visited, snapshots := AppendRoutedDescendants(links, up, local, local[thread], thread, runtime, visited, snapshots);
        pending := pending - {thread};
        KeepingVisited(up, before, visited, before - (pending + {thread}));
      }
      assert visited - pending == visited;
      ListedAll(up, sessions, runtime, visited, snapshots);
    }

    /** The routes below a root whose every child on the way is accepted; parents come first. */
    method DescendantRoutesForParent(root: Id, runtime: Id, accept: Id -> bool) returns (routes: seq<Route>)
      requires Valid()
      ensures Distinct(Children(routes)) && ParentsFirst(routes, root)
      ensures forall r <- routes :: r.child in Up(runtime) && r == Up(runtime)[r.child]
      ensures forall c :: c in Children(routes) <==> Reached(Up(runtime), accept, root, c)
    {
      hide ForestOf, Explored, Reached, ParentsFirst, Distinct, Indexes, ListsChildren;
      ParentIndexHoldsForest(subagents.Value(), runtime);
      ghost var up := Up(runtime);
      routes := [];
      var links := subagents.linksByParent;
      var pending := [root];
      var visited := {root};
      StartExploring(up, accept, root);
      hide Agree;
      while pending != []
        invariant Explored(up, accept, root, visited, routes, pending)
        decreases up.Keys - visited, |pending|
      {
        var parent := pending[|pending| - 1];
        assert pending == pending[..|pending| - 1] + [parent];
        var children := RoutesForParent(links, up, parent, runtime);
        routes, visited, pending :=
          ExploreChildren(up, accept, root, parent, children, routes, visited, pending[..|pending| - 1]);
      }
      ExploredAll(up, accept, root, visited, routes);
    }

    /**
     * Releases a session and every routed child below it that is not retained for itself. `released`
     * is the order: the children of a thread always go before the thread.
     */
    method ReleaseSessionTree(session: Session) returns (released: seq<Id>)
      requires Valid()
      modifies this`sessions
      ensures Valid()
      ensures ReleasesTree(Up(session.runtime), old(sessions), session, released)
      ensures sessions == old(sessions) - (set c | c in released)
    {
      var routes := DescendantRoutesForParent(
        session.thread, session.runtime, Releasable(sessions, session.runtime));
      ReleasingChildrenFirst(Up(session.runtime), sessions, routes, session);
      released := ReleaseOrder(Children(routes)) + [session.thread];
      hide *;
      ReleaseAll(released);
    }

    method ReleaseAll(threads: seq<Id>)
      modifies this`sessions
      ensures sessions == old(sessions) - (set c | c in threads)
    {
      for i := 0 to |threads|
        invariant sessions == old(sessions) - (set c | c in threads[..i])
      {
        assert threads[..i + 1] == threads[..i] + [threads[i]];
        sessions := sessions - {threads[i]};
      }
      assert threads[..|threads|] == threads;
    }
  }

  /** A routed child goes with its root unless it is retained for itself or by another runtime. */
  function Releasable(sessions: map<Id, Session>, runtime: Id): Id -> bool {
    child =>
      child !in sessions || (sessions[child].runtime == runtime && sessions[child].contextOwner.Some?)
  }

  function ReleaseOrder(children: seq<Id>): (reversed: seq<Id>)
    ensures |reversed| == |children|
    ensures forall i | 0 <= i < |children| :: reversed[i] == children[|children| - 1 - i]
  {
    seq(|children|, i requires 0 <= i < |children| => children[|children| - 1 - i])
  }

  /**
   * The released threads are the session, last, and all routed children that go with it, each once;
   * no child is released after its parent.
   */
  ghost predicate ReleasesTree(up: map<Id, Route>, sessions: map<Id, Session>, session: Session, released: seq<Id>) {
    && |released| > 0 && released[|released| - 1] == session.thread
    && Distinct(released)
    && (forall c :: c in released <==>
          c == session.thread || Reached(up, Releasable(sessions, session.runtime), session.thread, c))
    && (forall i, j | 0 <= i < j < |released| - 1 :: released[j] in up && up[released[j]].parent != released[i])
  }

  lemma ReleasingChildrenFirst(
    up: map<Id, Route>, sessions: map<Id, Session>, routes: seq<Route>, session: Session)
    requires Distinct(Children(routes)) && ParentsFirst(routes, session.thread)
    requires forall r <- routes :: r.child in up && r == up[r.child]
    requires forall c :: c in Children(routes) <==>
               Reached(up, Releasable(sessions, session.runtime), session.thread, c)
    ensures ReleasesTree(up, sessions, session, ReleaseOrder(Children(routes)) + [session.thread])
  {
    var children := Children(routes);
    var released := ReleaseOrder(children);
    assert session.thread !in children;
    forall i, j | 0 <= i < j < |released|
      ensures released[j] in up && up[released[j]].parent != released[i]
    {
      var child, later := |children| - 1 - j, |children| - 1 - i;
      assert routes[child] in routes;
      assert children[later] in children;
      if routes[child].parent in Children(routes[..child]) {
        var k :| 0 <= k < child && Children(routes[..child])[k] == routes[child].parent;
        assert children[k] == routes[child].parent;
      }
    }
    forall c | c in children ensures c in released {
      var k :| 0 <= k < |children| && children[k] == c;
      assert released[|children| - 1 - k] == c;
    }
    DistinctExtends(released, session.thread);
  }

  // ---------------------------------------------------------------------------------------------
  // Loop invariants
  // ---------------------------------------------------------------------------------------------

  ghost predicate ListsChildren(up: map<Id, Route>, parent: Id, routes: seq<Route>) {
    && Distinct(Children(routes))
    && (forall r <- routes :: r.child in up && r == up[r.child] && r.parent == parent)
    && (forall c <- up | up[c].parent == parent :: up[c] in routes)
  }

  /** The listed routes and the places still to visit make up the children of the parent. */
  ghost predicate ChildrenLeft(
    up: map<Id, Route>, runtime: Id, parent: Id, places: set<(Id, Id, Id)>, routes: seq<Route>)
  {
    && IsForest(up)
    && Distinct(Children(routes))
    && (forall k <- places :: k == (runtime, parent, k.2) && k.2 in up && up[k.2].parent == parent)
    && (forall r <- routes ::
          r.child in up && r == up[r.child] && r.parent == parent && (runtime, parent, r.child) !in places)
    && (forall c <- up | up[c].parent == parent :: (runtime, parent, c) in places || up[c] in routes)
  }

  /** The parent index holds the routes of the forest by parent. */
  ghost predicate Indexes(links: map<(Id, Id, Id), Link>, up: map<Id, Route>, runtime: Id) {
    && IsForest(up)
    && (forall c <- up :: (runtime, up[c].parent, c) in links)
    && (forall k <- links | k.0 == runtime :: k.2 in up && up[k.2].parent == k.1 && RouteOf(links[k]) == Some(up[k.2]))
  }

  lemma ParentIndexHoldsForest(s: Links, runtime: Id)
    requires Agree(s)
    ensures Indexes(s.byParent, ForestOf(s, runtime), runtime)
  {
    ForestLooksUpRoutes(s, runtime);
    var up := ForestOf(s, runtime);
    forall k <- s.byParent | k.0 == runtime
      ensures k.2 in up && up[k.2].parent == k.1 && RouteOf(s.byParent[k]) == Some(up[k.2])
    {
      assert k == (runtime, k.1, k.2);
    }
    forall c <- up ensures (runtime, up[c].parent, c) in s.byParent {
    }
  }

  /** The routes of the children of a parent, in some order, each once. */
  method RoutesForParent(links: map<(Id, Id, Id), Link>, ghost up: map<Id, Route>, parent: Id, runtime: Id)
    returns (routes: seq<Route>)
    requires Indexes(links, up, runtime)
    ensures ListsChildren(up, parent, routes)
  {
    routes := [];
    var pending := set k | k in links && k.0 == runtime && k.1 == parent;
    StartListing(links, up, parent, runtime, pending);
    while pending != {}
      invariant pending <= links.Keys
      invariant ChildrenLeft(up, runtime, parent, pending, routes)
      decreases |pending|
    {
      var place :| place in pending;
      assert place.0 == runtime;
      ListingOneMore(up, runtime, parent, pending, routes, place);
      routes := routes + [RouteOf(links[place]).value];
      pending := pending - {place};
    }
  }

  lemma StartListing(
    links: map<(Id, Id, Id), Link>, up: map<Id, Route>, parent: Id, runtime: Id, places: set<(Id, Id, Id)>)
    requires Indexes(links, up, runtime)
    requires places == set k | k in links && k.0 == runtime && k.1 == parent
    ensures ChildrenLeft(up, runtime, parent, places, [])
  {
    forall k <- places ensures k == (runtime, parent, k.2) && k.2 in up && up[k.2].parent == parent {
      assert k == (k.0, k.1, k.2);
    }
    forall c <- up | up[c].parent == parent ensures (runtime, parent, c) in places {
      assert (runtime, up[c].parent, c) in links;
    }
  }

  lemma ListingOneMore(
    up: map<Id, Route>, runtime: Id, parent: Id, places: set<(Id, Id, Id)>, routes: seq<Route>, place: (Id, Id, Id))
    requires ChildrenLeft(up, runtime, parent, places, routes) && place in places
    ensures ChildrenLeft(up, runtime, parent, places - {place}, routes + [up[place.2]])
  {
    var route := up[place.2];
    assert Children(routes + [route]) == Children(routes) + [place.2];
    assert forall i | 0 <= i < |routes| :: routes[i] in routes && Children(routes)[i] != place.2;
    DistinctExtends(Children(routes), place.2);
  }

  /** The owner of a thread in a runtime and the route of the thread itself. */
  ghost function OwnerOf(
    up: map<Id, Route>, sessions: map<Id, Session>, runtime: Id, thread: Id): Option<(Session, Option<Route>)>
  {
    var nearest := Nearest(up, sessions, thread);
    if nearest.Some? && nearest.value.runtime == runtime
    then Some((nearest.value, if thread in sessions then None else Lookup(up, thread)))
    else None
  }

  /** The visited threads are not retained and lead to one another or to the current thread. */
  ghost predicate Climbed(
    up: map<Id, Route>, sessions: map<Id, Session>, thread: Id, visited: set<Id>, current: Id)
  {
    && (forall t <- visited :: t !in sessions && t in up && (up[t].parent in visited || up[t].parent == current))
    && visited <= up.Keys
    && (if visited == {} then current == thread else thread in visited)
    && Nearest(up, sessions, thread) == Nearest(up, sessions, current)
  }

  lemma RevisitingHasNoOwner(
    up: map<Id, Route>, sessions: map<Id, Session>, thread: Id, visited: set<Id>, current: Id)
    requires Climbed(up, sessions, thread, visited, current) && current in visited
    ensures Nearest(up, sessions, thread).None?
  {
    if n: nat :| NearestWithin(up, sessions, current, n).Some? {
      ClosedThreadsHaveNoOwner(up, sessions, visited, current, n);
      assert false;
    }
  }

  /** The changed threads that have a delta view, in their order. */
  ghost function Shown(up: map<Id, Route>, sessions: map<Id, Session>, runtime: Id, changed: seq<Id>): seq<Id> {
    if changed == [] then []
    else
      var front, last := Shown(up, sessions, runtime, changed[..|changed| - 1]), changed[|changed| - 1];
      if Delta(up, sessions, runtime, last).Some? then front + [last] else front
  }

  /** The entries are the delta views of the changed threads that have one, each once and in order. */
  ghost predicate ShowsDelta(
    up: map<Id, Route>, sessions: map<Id, Session>, runtime: Id, changed: seq<Id>, snapshots: seq<Snapshot>)
  {
    && Threads(snapshots) == Shown(up, sessions, runtime, changed)
    && Distinct(Threads(snapshots))
    && (forall s <- snapshots ::
          ThreadOf(s) in changed && Delta(up, sessions, runtime, ThreadOf(s)) == Some(s))
    && (forall t <- changed | Delta(up, sessions, runtime, t).Some? ::
          Delta(up, sessions, runtime, t).value in snapshots)
  }

  /** The entries are the full views of all threads that have one, each once. */
  ghost predicate ShowsFull(
    up: map<Id, Route>, sessions: map<Id, Session>, runtime: Id, snapshots: seq<Snapshot>)
  {
    && Distinct(Threads(snapshots))
    && (forall s <- snapshots :: Full(up, sessions, runtime, ThreadOf(s)) == Some(s))
    && (forall t: Id | Full(up, sessions, runtime, t).Some? :: Full(up, sessions, runtime, t).value in snapshots)
  }

  /** The delta of any changed threads is the part of the full list that shows them. */
  lemma DeltaIsThePartThatChanged(
    up: map<Id, Route>, sessions: map<Id, Session>, runtime: Id, changed: seq<Id>,
    delta: seq<Snapshot>, full: seq<Snapshot>)
    requires forall t: Id :: !IsRetainedElsewhere(up, sessions, runtime, t)
    requires ShowsDelta(up, sessions, runtime, changed, delta)
    requires ShowsFull(up, sessions, runtime, full)
    ensures forall s :: s in delta <==> s in full && ThreadOf(s) in changed
  {
    DeltaEqualsFullIff(up, sessions, runtime);
    forall s ensures s in delta <==> s in full && ThreadOf(s) in changed {
      assert Delta(up, sessions, runtime, ThreadOf(s)) == Full(up, sessions, runtime, ThreadOf(s));
      if s in full && ThreadOf(s) in changed {
        assert Full(up, sessions, runtime, ThreadOf(s)) == Some(s);
      }
    }
  }

  /** A snapshot shows its own thread. */
  lemma ViewShowsThread(up: map<Id, Route>, sessions: map<Id, Session>, thread: Id, owner: Option<Session>)
    requires IsForest(up) && forall t <- sessions :: sessions[t].thread == t
    ensures ViewOf(up, sessions, thread, owner).Some? ==>
              ThreadOf(ViewOf(up, sessions, thread, owner).value) == thread
  {
  }

  function SnapshotFor(owner: (Session, Option<Route>)): Snapshot {
    if owner.1.Some? then Routed(owner.0, owner.1.value) else Own(owner.0)
  }

  lemma OwnerGivesDelta(up: map<Id, Route>, sessions: map<Id, Session>, runtime: Id, thread: Id)
    ensures var owner := OwnerOf(up, sessions, runtime, thread);
            Delta(up, sessions, runtime, thread) == if owner.Some? then Some(SnapshotFor(owner.value)) else None
  {
    NearestUnfolds(up, sessions, thread);
  }

  lemma ShowingOneMore(
    up: map<Id, Route>, sessions: map<Id, Session>, runtime: Id, changed: seq<Id>, i: nat, before: seq<Snapshot>)
    requires IsForest(up) && forall t <- sessions :: sessions[t].thread == t
    requires i < |changed| && Distinct(changed)
    requires ShowsDelta(up, sessions, runtime, changed[..i], before)
    ensures var delta := Delta(up, sessions, runtime, changed[i]);
            ShowsDelta(up, sessions, runtime, changed[..i + 1], if delta.Some? then before + [delta.value] else before)
  {
    var delta := Delta(up, sessions, runtime, changed[i]);
    assert changed[..i + 1] == changed[..i] + [changed[i]] && changed[..i + 1][..i] == changed[..i];
    if delta.Some? {
      ViewShowsThread(up, sessions, changed[i], Nearest(up, sessions, changed[i]));
      assert forall j | 0 <= j < |before| :: before[j] in before && Threads(before)[j] in changed[..i];
      assert Threads(before + [delta.value]) == Threads(before) + [changed[i]];
      DistinctExtends(Threads(before), changed[i]);
    }
  }

  /** The snapshots show exactly the visited threads, each as the view of its nearest local session. */
  ghost predicate Descended(up: map<Id, Route>, local: map<Id, Session>, visited: set<Id>, snapshots: seq<Snapshot>) {
    && IsForest(up)
    && (forall t <- local :: local[t].thread == t)
    && local.Keys <= visited
    && Distinct(Threads(snapshots))
    && (forall t :: t in visited <==> t in Threads(snapshots))
    && (forall s <- snapshots :: ViewOf(up, local, ThreadOf(s), Nearest(up, local, ThreadOf(s))) == Some(s))
  }

  ghost predicate ChildrenVisited(up: map<Id, Route>, visited: set<Id>, parents: set<Id>) {
    forall c <- up | up[c].parent in parents :: c in visited
  }

  lemma KeepingVisited(up: map<Id, Route>, before: set<Id>, after: set<Id>, parents: set<Id>)
    requires ChildrenVisited(up, before, parents) && before <= after
    ensures ChildrenVisited(up, after, parents)
  {
  }

  /** A listing that began with the threads of `start`: all children below the later ones are visited. */
  ghost predicate Listing(
    up: map<Id, Route>, local: map<Id, Session>, start: set<Id>, visited: set<Id>, snapshots: seq<Snapshot>)
  {
    start <= visited && Descended(up, local, visited, snapshots) && ChildrenVisited(up, visited, visited - start)
  }

  method AppendRoutedDescendants(
    links: map<(Id, Id, Id), Link>, ghost up: map<Id, Route>,
    local: map<Id, Session>, ancestor: Session, parent: Id, runtime: Id, visited: set<Id>, snapshots: seq<Snapshot>)
    returns (visited': set<Id>, snapshots': seq<Snapshot>)
    requires Indexes(links, up, runtime)
    requires Listing(up, local, visited, visited, snapshots)
    requires Nearest(up, local, parent) == Some(ancestor)
    ensures Listing(up, local, visited, visited', snapshots')
    ensures ChildrenVisited(up, visited', {parent})
    decreases up.Keys - visited
  {
    visited', snapshots' := visited, snapshots;
    hide Listing, ChildrenVisited, ListsChildren, Indexes, Nearest;
    var routes := RoutesForParent(links, up, parent, runtime);
    for i := 0 to |routes|
      invariant Listing(up, local, visited, visited', snapshots')
      invariant forall j | 0 <= j < i :: routes[j].child in visited'
    {
      var route := routes[i];
      if route.child !in visited' {
        ghost var before := visited';
        DescendingOneMore(up, local, visited, visited', snapshots', ancestor, parent, routes, i);
        visited', snapshots' := AppendRoutedDescendants(
          links, up, local, ancestor, route.child, runtime,
          visited' + {route.child}, snapshots' + [Routed(ancestor, route)]);
        ListedBelow(up, local, visited, before, visited', snapshots', route.child);
      }
    }
    ParentVisited(up, local, visited, visited', snapshots', parent, routes);
  }

  lemma StartingBelow(
    up: map<Id, Route>, local: map<Id, Session>, visited: set<Id>, snapshots: seq<Snapshot>, thread: Id)
    requires Descended(up, local, visited, snapshots) && thread in local
    ensures Listing(up, local, visited, visited, snapshots) && Nearest(up, local, thread) == Some(local[thread])
  {
    NearestUnfolds(up, local, thread);
  }

  lemma ListedBelow(
    up: map<Id, Route>, local: map<Id, Session>, start: set<Id>, before: set<Id>, after: set<Id>,
    snapshots: seq<Snapshot>, child: Id)
    requires start <= before && ChildrenVisited(up, before, before - start)
    requires Listing(up, local, before + {child}, after, snapshots)
    requires ChildrenVisited(up, after, {child})
    ensures Listing(up, local, start, after, snapshots) && before + {child} <= after
  {
  }

  lemma ParentVisited(
    up: map<Id, Route>, local: map<Id, Session>, start: set<Id>, visited: set<Id>, snapshots: seq<Snapshot>,
    parent: Id, routes: seq<Route>)
    requires Listing(up, local, start, visited, snapshots)
    requires ListsChildren(up, parent, routes) && forall j | 0 <= j < |routes| :: routes[j].child in visited
    ensures ChildrenVisited(up, visited, {parent})
  {
    forall c <- up | up[c].parent == parent ensures c in visited {
      assert up[c] in routes;
    }
  }

  method OwnSnapshots(local: map<Id, Session>, ghost up: map<Id, Route>) returns (snapshots: seq<Snapshot>)
    requires IsForest(up) && forall t <- local :: local[t].thread == t
    ensures Descended(up, local, local.Keys, snapshots)
  {
    snapshots := [];
    var pending := local.Keys;
    while pending != {}
      invariant pending <= local.Keys
      invariant Distinct(Threads(snapshots))
      invariant forall t :: t in Threads(snapshots) <==> t in local.Keys - pending
      invariant forall s <- snapshots :: s.Own? && s.session.thread in local && s == Own(local[s.session.thread])
      decreases |pending|
    {
      var thread :| thread in pending;
      assert Threads(snapshots + [Own(local[thread])]) == Threads(snapshots) + [thread];
      DistinctExtends(Threads(snapshots), thread);
      snapshots := snapshots + [Own(local[thread])];
      pending := pending - {thread};
    }
    forall s <- snapshots ensures ViewOf(up, local, ThreadOf(s), Nearest(up, local, ThreadOf(s))) == Some(s) {
      NearestUnfolds(up, local, ThreadOf(s));
    }
  }

  lemma DescendingOneMore(
    up: map<Id, Route>, local: map<Id, Session>, start: set<Id>, visited: set<Id>, snapshots: seq<Snapshot>,
    ancestor: Session, parent: Id, routes: seq<Route>, i: nat)
    requires Listing(up, local, start, visited, snapshots)
    requires ListsChildren(up, parent, routes) && i < |routes| && routes[i].child !in visited
    requires Nearest(up, local, parent) == Some(ancestor)
    ensures var route := routes[i];
            var visited', snapshots' := visited + {route.child}, snapshots + [Routed(ancestor, route)];
            && Nearest(up, local, route.child) == Some(ancestor)
            && route.child in up && start <= visited
            && ChildrenVisited(up, visited, visited - start)
            && Listing(up, local, visited', visited', snapshots')
  {
    var route := routes[i];
    assert route in routes;
    NearestUnfolds(up, local, route.child);
    assert Threads(snapshots + [Routed(ancestor, route)]) == Threads(snapshots) + [route.child];
    DistinctExtends(Threads(snapshots), route.child);
  }

  lemma {:induction false} OwnedIsVisited(
    up: map<Id, Route>, local: map<Id, Session>, visited: set<Id>, thread: Id, n: nat)
    requires local.Keys <= visited && ChildrenVisited(up, visited, visited)
    requires NearestWithin(up, local, thread, n).Some?
    ensures thread in visited
    decreases n
  {
    if thread !in local {
      OwnedIsVisited(up, local, visited, up[thread].parent, n - 1);
    }
  }

  lemma ListedAll(
    up: map<Id, Route>, sessions: map<Id, Session>, runtime: Id, visited: set<Id>, snapshots: seq<Snapshot>)
    requires Descended(up, SessionsOf(sessions, runtime), visited, snapshots)
    requires ChildrenVisited(up, visited, visited)
    ensures ShowsFull(up, sessions, runtime, snapshots)
  {
    var local := SessionsOf(sessions, runtime);
    forall t: Id | Full(up, sessions, runtime, t).Some?
      ensures Full(up, sessions, runtime, t).value in snapshots
    {
      var n: nat :| NearestWithin(up, local, t, n).Some?;
      OwnedIsVisited(up, local, visited, t, n);
      var i :| 0 <= i < |snapshots| && Threads(snapshots)[i] == t;
      assert snapshots[i] in snapshots;
    }
  }

  // ---------------------------------------------------------------------------------------------
  // The worklist of descendants
  // ---------------------------------------------------------------------------------------------

  /** The routes found so far, the threads visited, and the parents whose children are still to visit. */
  ghost predicate Explored(
    up: map<Id, Route>, accept: Id -> bool, root: Id, visited: set<Id>, routes: seq<Route>, open: seq<Id>)
  {
    && IsForest(up) && root in visited
    && Distinct(Children(routes)) && ParentsFirst(routes, root)
    && (forall r <- routes :: r.child in up && r == up[r.child])
    && (forall c <- Children(routes) :: c in visited && Reached(up, accept, root, c))
    && (forall p <- open :: p == root || p in Children(routes))
    && (forall t <- visited :: t == root || t in Children(routes) || !accept(t))
    && (forall c <- up | up[c].parent == root || up[c].parent in Children(routes) ::
          up[c].parent in open || c in visited)
  }

  method ExploreChildren(
    ghost up: map<Id, Route>, accept: Id -> bool, ghost root: Id, ghost parent: Id, children: seq<Route>,
    routes: seq<Route>, visited: set<Id>, pending: seq<Id>)
    returns (routes': seq<Route>, visited': set<Id>, pending': seq<Id>)
    requires Explored(up, accept, root, visited, routes, pending + [parent])
    requires ListsChildren(up, parent, children)
    ensures Explored(up, accept, root, visited', routes', pending')
    ensures visited <= visited'
    ensures pending' == pending || up.Keys - visited' < up.Keys - visited
  {
    routes', visited', pending' := routes, visited, pending;
    hide Explored;
    for i := 0 to |children|
      invariant Explored(up, accept, root, visited', routes', pending' + [parent])
      invariant forall r <- children[..i] :: r.child in visited'
      invariant visited <= visited'
      invariant pending' == pending || up.Keys - visited' < up.Keys - visited
    {
      var route := children[i];
      assert route in children;
      if route.child !in visited' {
        ExploringOneMore(up, accept, root, visited', routes', pending', parent, route);
        visited' := visited' + {route.child};
        if accept(route.child) {
          routes' := routes' + [route];
          pending' := pending' + [route.child];
        }
      }
    }
    assert children[..|children|] == children;
    ParentIsDone(up, accept, root, visited', routes', pending', parent, children);
  }

  lemma StartExploring(up: map<Id, Route>, accept: Id -> bool, root: Id)
    requires IsForest(up)
    ensures Explored(up, accept, root, {root}, [], [root])
  {
  }

  lemma ParentIsDone(
    up: map<Id, Route>, accept: Id -> bool, root: Id, visited: set<Id>, routes: seq<Route>, pending: seq<Id>,
    parent: Id, children: seq<Route>)
    requires Explored(up, accept, root, visited, routes, pending + [parent])
    requires ListsChildren(up, parent, children) && forall r <- children :: r.child in visited
    ensures Explored(up, accept, root, visited, routes, pending)
  {
    forall c <- up | up[c].parent == root || up[c].parent in Children(routes)
      ensures up[c].parent in pending || c in visited
    {
      if up[c].parent == parent {
        assert up[c] in children;
      }
    }
  }

  lemma ExploringOneMore(
    up: map<Id, Route>, accept: Id -> bool, root: Id, visited: set<Id>, routes: seq<Route>, pending: seq<Id>,
    parent: Id, route: Route)
    requires Explored(up, accept, root, visited, routes, pending + [parent])
    requires route.child in up && route == up[route.child] && route.parent == parent && route.child !in visited
    ensures if accept(route.child)
            then Explored(up, accept, root, visited + {route.child}, routes + [route], pending + [route.child] + [parent])
            else Explored(up, accept, root, visited + {route.child}, routes, pending + [parent])
  {
    if accept(route.child) {
      var extended := routes + [route];
      assert Children(extended) == Children(routes) + [route.child];
      DistinctExtends(Children(routes), route.child);
      assert parent in pending + [parent];
      ReachedThroughParent(up, accept, root, route.child);
      forall i | 0 <= i < |extended|
        ensures extended[i].parent == root || extended[i].parent in Children(extended[..i])
      {
        assert extended[..i] == routes[..i];
      }
    }
  }

  lemma ExploredAll(up: map<Id, Route>, accept: Id -> bool, root: Id, visited: set<Id>, routes: seq<Route>)
    requires Explored(up, accept, root, visited, routes, [])
    ensures Distinct(Children(routes)) && ParentsFirst(routes, root)
    ensures forall r <- routes :: r.child in up && r == up[r.child]
    ensures forall c: Id :: c in Children(routes) <==> Reached(up, accept, root, c)
  {
    var held := set c | c in Children(routes);
    forall c: Id | Reached(up, accept, root, c) ensures c in held {
      var n: nat :| ReachedWithin(up, accept, root, c, n);
      ReachedIsHeld(up, accept, root, held, c, n);
    }
  }
}
