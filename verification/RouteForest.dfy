/**
 * Walks over the route forest of one runtime: down from the retained sessions, up from a changed
 * thread, and down from a session that is released.
 */
module RouteForest {
  import opened Prelude
  import opened SubagentLinks
  import L = SubagentLinksProofs
  import opened SubagentLinkStates

  /** A session the adapter retains; a context owner marks a child kept for its context only. */
  datatype Session = Session(thread: Id, runtime: Id, contextOwner: Option<Id>)

  datatype Snapshot = Own(session: Session) | Routed(ancestor: Session, route: Route)

  function ThreadOf(snapshot: Snapshot): Id {
    match snapshot
    case Own(session) => session.thread
    case Routed(_, route) => route.child
  }

  /** The route of every linked child of a runtime. */
  ghost function ForestOf(s: Links, runtime: Id): map<Id, Route> {
    map k: (Id, Id) | k in s.byChild && k.0 == runtime && RouteOf(s.byChild[k]).Some?
      :: k.1 := RouteOf(s.byChild[k]).value
  }

  ghost predicate IsForest(up: map<Id, Route>) {
    forall c <- up :: up[c].child == c
  }

  lemma ForestLooksUpRoutes(s: Links, runtime: Id)
    requires Agree(s)
    ensures IsForest(ForestOf(s, runtime))
    ensures forall c: Id :: Lookup(ForestOf(s, runtime), c) == RouteForChild(s, runtime, c)
    ensures forall p: Id, c: Id :: (runtime, p, c) in s.byParent <==>
              c in ForestOf(s, runtime) && ForestOf(s, runtime)[c].parent == p
    ensures forall p: Id, c: Id :: (runtime, p, c) in s.byParent ==>
              RouteOf(s.byParent[(runtime, p, c)]) == Some(ForestOf(s, runtime)[c])
  {
    forall c: Id ensures Lookup(ForestOf(s, runtime), c) == RouteForChild(s, runtime, c) {
      if (runtime, c) in s.byChild {
        assert RouteOf(s.byChild[(runtime, c)]).Some?;
      }
    }
    forall p: Id, c: Id
      ensures (runtime, p, c) in s.byParent <==>
              c in ForestOf(s, runtime) && ForestOf(s, runtime)[c].parent == p
      ensures (runtime, p, c) in s.byParent ==>
                RouteOf(s.byParent[(runtime, p, c)]) == Some(ForestOf(s, runtime)[c])
    {
      if (runtime, p, c) in s.byParent {
        assert s.byChild[(runtime, c)] == s.byParent[(runtime, p, c)];
      }
      if c in ForestOf(s, runtime) && ForestOf(s, runtime)[c].parent == p {
        assert (runtime, s.byChild[(runtime, c)].parent, c) in s.byParent;
      }
    }
  }

  // ---------------------------------------------------------------------------------------------
  // The nearest retained ancestor
  // ---------------------------------------------------------------------------------------------

  /** The first retained session on the way up from a thread, within so many routes. */
  ghost function NearestWithin(up: map<Id, Route>, sessions: map<Id, Session>, thread: Id, steps: nat): Option<Session>
    decreases steps
  {
    if thread in sessions then Some(sessions[thread])
    else if steps == 0 || thread !in up then None
    else NearestWithin(up, sessions, up[thread].parent, steps - 1)
  }

  ghost function Nearest(up: map<Id, Route>, sessions: map<Id, Session>, thread: Id): Option<Session> {
    if n: nat :| NearestWithin(up, sessions, thread, n).Some?
    then NearestWithin(up, sessions, thread, n) else None
  }

  lemma {:induction false} NearestIsSettled(
    up: map<Id, Route>, sessions: map<Id, Session>, thread: Id, m: nat, n: nat)
    requires NearestWithin(up, sessions, thread, m).Some? && NearestWithin(up, sessions, thread, n).Some?
    ensures NearestWithin(up, sessions, thread, m) == NearestWithin(up, sessions, thread, n)
    decreases m
  {
    if thread !in sessions {
      NearestIsSettled(up, sessions, up[thread].parent, m - 1, n - 1);
    }
  }

  lemma NearestIs(up: map<Id, Route>, sessions: map<Id, Session>, thread: Id, n: nat)
    requires NearestWithin(up, sessions, thread, n).Some?
    ensures Nearest(up, sessions, thread) == NearestWithin(up, sessions, thread, n)
  {
    var m: nat :| NearestWithin(up, sessions, thread, m).Some?
                  && Nearest(up, sessions, thread) == NearestWithin(up, sessions, thread, m);
    NearestIsSettled(up, sessions, thread, m, n);
  }

  lemma NearestUnfolds(up: map<Id, Route>, sessions: map<Id, Session>, thread: Id)
    ensures Nearest(up, sessions, thread)
            == if thread in sessions then Some(sessions[thread])
               else if thread in up then Nearest(up, sessions, up[thread].parent)
               else None
  {
    if thread in sessions {
      NearestIs(up, sessions, thread, 0);
    } else if thread in up {
      var parent := up[thread].parent;
      if n: nat :| NearestWithin(up, sessions, parent, n).Some? {
        NearestIs(up, sessions, parent, n);
        assert NearestWithin(up, sessions, thread, n + 1) == NearestWithin(up, sessions, parent, n);
        NearestIs(up, sessions, thread, n + 1);
      } else if n: nat :| NearestWithin(up, sessions, thread, n).Some? {
        assert NearestWithin(up, sessions, parent, n - 1).Some?;
        assert false;
      }
    }
  }

  /** Threads whose routes lead only to one another, none of them retained, have no retained ancestor. */
  lemma {:induction false} ClosedThreadsHaveNoOwner(
    up: map<Id, Route>, sessions: map<Id, Session>, threads: set<Id>, thread: Id, n: nat)
    requires thread in threads
    requires forall t <- threads :: t !in sessions && t in up && up[t].parent in threads
    ensures NearestWithin(up, sessions, thread, n).None?
    decreases n
  {
    if n == 0 {
    } else {
      ClosedThreadsHaveNoOwner(up, sessions, threads, up[thread].parent, n - 1);
    }
  }

  // ---------------------------------------------------------------------------------------------
  // The two views of the live sessions
  // ---------------------------------------------------------------------------------------------

  /** The sessions of one runtime. */
  function SessionsOf(sessions: map<Id, Session>, runtime: Id): map<Id, Session> {
    map t | t in sessions && sessions[t].runtime == runtime :: sessions[t]
  }

  ghost function ViewOf(up: map<Id, Route>, sessions: map<Id, Session>, thread: Id, owner: Option<Session>): Option<Snapshot> {
    if owner.None? then None
    else if thread in sessions then Some(Own(sessions[thread]))
    else if thread in up then Some(Routed(owner.value, up[thread]))
    else None
  }

  /** What the full list shows for a thread: the sessions of other runtimes do not exist for it. */
  ghost function Full(up: map<Id, Route>, sessions: map<Id, Session>, runtime: Id, thread: Id): Option<Snapshot> {
    var local := SessionsOf(sessions, runtime);
    ViewOf(up, local, thread, Nearest(up, local, thread))
  }

  /** What the delta shows for a changed thread: its owner must belong to the runtime. */
  ghost function Delta(up: map<Id, Route>, sessions: map<Id, Session>, runtime: Id, thread: Id): Option<Snapshot> {
    var owner := Nearest(up, sessions, thread);
    if owner.Some? && owner.value.runtime == runtime then ViewOf(up, sessions, thread, owner) else None
  }

  /** A child is retained by another runtime although the runtime lists its parent. */
  ghost predicate IsRetainedElsewhere(up: map<Id, Route>, sessions: map<Id, Session>, runtime: Id, thread: Id) {
    && thread in sessions && sessions[thread].runtime != runtime
    && thread in up && Full(up, sessions, runtime, up[thread].parent).Some?
  }

  lemma FullIffOwned(up: map<Id, Route>, sessions: map<Id, Session>, runtime: Id, thread: Id)
    ensures Full(up, sessions, runtime, thread).Some? <==>
            Nearest(up, SessionsOf(sessions, runtime), thread).Some?
  {
    NearestUnfolds(up, SessionsOf(sessions, runtime), thread);
  }

  /** Where no child is retained elsewhere, both walks meet the same session. */
  lemma {:induction false} WalksMeet(
    up: map<Id, Route>, sessions: map<Id, Session>, runtime: Id, thread: Id, n: nat)
    requires forall t :: !IsRetainedElsewhere(up, sessions, runtime, t)
    ensures var local := SessionsOf(sessions, runtime);
            var down, climb := NearestWithin(up, local, thread, n), NearestWithin(up, sessions, thread, n);
            && (climb.Some? && climb.value.runtime == runtime ==> down == climb)
            && (down.Some? ==> climb == down && climb.value.runtime == runtime)
    decreases n
  {
    var local := SessionsOf(sessions, runtime);
    if thread !in sessions && n > 0 && thread in up {
      WalksMeet(up, sessions, runtime, up[thread].parent, n - 1);
    }
    assert !IsRetainedElsewhere(up, sessions, runtime, thread);
    if thread in sessions && thread !in local && NearestWithin(up, local, thread, n).Some? {
      NearestIs(up, local, thread, n);
      NearestUnfolds(up, local, thread);
      FullIffOwned(up, sessions, runtime, up[thread].parent);
      assert false;
    }
  }

  /**
   * The delta of every thread equals its entry in the full list if and only if no thread that
   * another runtime retains is a routed child of a listed thread.
   */
  lemma DeltaEqualsFullIff(up: map<Id, Route>, sessions: map<Id, Session>, runtime: Id)
    ensures (forall t :: Delta(up, sessions, runtime, t) == Full(up, sessions, runtime, t))
            <==> (forall t :: !IsRetainedElsewhere(up, sessions, runtime, t))
  {
    if t :| IsRetainedElsewhere(up, sessions, runtime, t) {
      NearestUnfolds(up, sessions, t);
      NearestUnfolds(up, SessionsOf(sessions, runtime), t);
      FullIffOwned(up, sessions, runtime, up[t].parent);
      assert Delta(up, sessions, runtime, t).None? && Full(up, sessions, runtime, t).Some?;
    } else {
      forall t ensures Delta(up, sessions, runtime, t) == Full(up, sessions, runtime, t) {
        DeltaEqualsFullAt(up, sessions, runtime, t);
      }
    }
  }

  lemma DeltaEqualsFullAt(up: map<Id, Route>, sessions: map<Id, Session>, runtime: Id, thread: Id)
    requires forall t :: !IsRetainedElsewhere(up, sessions, runtime, t)
    ensures Delta(up, sessions, runtime, thread) == Full(up, sessions, runtime, thread)
  {
    var local := SessionsOf(sessions, runtime);
    if n: nat :| NearestWithin(up, local, thread, n).Some? {
      NearestIs(up, local, thread, n);
      WalksMeet(up, sessions, runtime, thread, n);
      NearestIs(up, sessions, thread, n);
    }
    if n: nat :| NearestWithin(up, sessions, thread, n).Some? {
      NearestIs(up, sessions, thread, n);
      WalksMeet(up, sessions, runtime, thread, n);
      if NearestWithin(up, local, thread, n).Some? {
        NearestIs(up, local, thread, n);
      }
    }
  }

  lemma {:induction false} NearestPassesForeign(
    up: map<Id, Route>, sessions: map<Id, Session>, runtime: Id, thread: Id, n: nat)
    requires forall t <- sessions :: sessions[t].thread == t
    requires NearestWithin(up, sessions, thread, n).Some?
    ensures var local, owner := SessionsOf(sessions, runtime), NearestWithin(up, sessions, thread, n).value;
            Nearest(up, local, thread) == Nearest(up, local, owner.thread)
    decreases n
  {
    if thread in sessions {
    } else {
      NearestUnfolds(up, SessionsOf(sessions, runtime), thread);
      NearestPassesForeign(up, sessions, runtime, up[thread].parent, n - 1);
    }
  }

  lemma {:induction false} LocalIsRetained(
    up: map<Id, Route>, sessions: map<Id, Session>, runtime: Id, thread: Id, n: nat)
    requires NearestWithin(up, SessionsOf(sessions, runtime), thread, n).Some?
    ensures NearestWithin(up, sessions, thread, n).Some?
    decreases n
  {
    if thread in sessions {
    } else {
      LocalIsRetained(up, sessions, runtime, up[thread].parent, n - 1);
    }
  }

  /**
   * For one thread: its delta equals its entry in the full list if and only if the first retained
   * session on the way up from it is not a routed child that another runtime retains.
   */
  lemma DeltaEqualsFullAtIff(up: map<Id, Route>, sessions: map<Id, Session>, runtime: Id, thread: Id)
    requires forall t <- sessions :: sessions[t].thread == t
    ensures Delta(up, sessions, runtime, thread) == Full(up, sessions, runtime, thread)
       <==> !(Nearest(up, sessions, thread).Some?
              && IsRetainedElsewhere(up, sessions, runtime, Nearest(up, sessions, thread).value.thread))
  {
    var local := SessionsOf(sessions, runtime);
    FullIffOwned(up, sessions, runtime, thread);
    if n: nat :| NearestWithin(up, sessions, thread, n).Some? {
      NearestIs(up, sessions, thread, n);
      NearestPassesForeign(up, sessions, runtime, thread, n);
      var owner := NearestWithin(up, sessions, thread, n).value;
      NearestIsRetained(up, sessions, thread, n);
      NearestUnfolds(up, local, owner.thread);
      if owner.thread in up {
        FullIffOwned(up, sessions, runtime, up[owner.thread].parent);
      }
    } else if n: nat :| NearestWithin(up, local, thread, n).Some? {
      LocalIsRetained(up, sessions, runtime, thread, n);
      assert false;
    }
  }

  lemma {:induction false} NearestIsRetained(up: map<Id, Route>, sessions: map<Id, Session>, thread: Id, n: nat)
    requires forall t <- sessions :: sessions[t].thread == t
    requires NearestWithin(up, sessions, thread, n).Some?
    ensures var owner := NearestWithin(up, sessions, thread, n).value;
            owner.thread in sessions && sessions[owner.thread] == owner
    decreases n
  {
    if thread in sessions {
    } else {
      NearestIsRetained(up, sessions, up[thread].parent, n - 1);
    }
  }

  /** With all sessions in one runtime, the delta of every thread is its entry in the full list. */
  lemma DeltaEqualsFullInOneRuntime(up: map<Id, Route>, sessions: map<Id, Session>, runtime: Id)
    requires forall t <- sessions :: sessions[t].runtime == runtime
    ensures forall t :: Delta(up, sessions, runtime, t) == Full(up, sessions, runtime, t)
  {
    DeltaEqualsFullIff(up, sessions, runtime);
  }

  /** Session 1 of runtime 0 has the subagent 9, which runtime 1 retains as a session of its own. */
  const SESSIONS := map[1 := Session(1, 0, None), 9 := Session(9, 1, None)]

  /** The full list shows the subagent below session 1, and its delta shows nothing. */
  lemma DeltaCanMissChild()
    ensures var links := L.Run(NO_LINKS, [L.Update(L.SpawnUpdate(Some(9), Running))]);
            && Delta(ForestOf(links, 0), SESSIONS, 0, 9).None?
            && Full(ForestOf(links, 0), SESSIONS, 0, 9)
               == Some(Routed(SESSIONS[1], Route(0, 1, 9, CorrelationKey(1, 7))))
  {
    var update := L.Update(L.SpawnUpdate(Some(9), Running));
    var links := L.Step(NO_LINKS, update);
    assert L.Run(NO_LINKS, [update]) == L.Run(links, []);
    var up := ForestOf(links, 0);
    assert RouteOf(links.byChild[(0, 9)]) == Some(Route(0, 1, 9, CorrelationKey(1, 7)));
    assert 9 in up && up[9].parent == 1;
    NearestUnfolds(up, SESSIONS, 9);
    NearestUnfolds(up, SessionsOf(SESSIONS, 0), 9);
    NearestUnfolds(up, SessionsOf(SESSIONS, 0), 1);
  }

  // ---------------------------------------------------------------------------------------------
  // Descendants
  // ---------------------------------------------------------------------------------------------

  /** A child reached from the root through accepted children, within so many routes. */
  ghost predicate ReachedWithin(up: map<Id, Route>, accept: Id -> bool, root: Id, child: Id, steps: nat)
    decreases steps
  {
    && child in up && child != root && accept(child)
    && (up[child].parent == root || (steps > 0 && ReachedWithin(up, accept, root, up[child].parent, steps - 1)))
  }

  ghost predicate Reached(up: map<Id, Route>, accept: Id -> bool, root: Id, child: Id) {
    exists n: nat :: ReachedWithin(up, accept, root, child, n)
  }

  lemma ReachedThroughParent(up: map<Id, Route>, accept: Id -> bool, root: Id, child: Id)
    requires child in up && child != root && accept(child)
    requires up[child].parent == root || Reached(up, accept, root, up[child].parent)
    ensures Reached(up, accept, root, child)
  {
    if up[child].parent == root {
      assert ReachedWithin(up, accept, root, child, 0);
    } else {
      var n: nat :| ReachedWithin(up, accept, root, up[child].parent, n);
      assert ReachedWithin(up, accept, root, child, n + 1);
    }
  }

  /** A set that holds every accepted child of the root and of its own members holds all that is reached. */
  lemma {:induction false} ReachedIsHeld(
    up: map<Id, Route>, accept: Id -> bool, root: Id, held: set<Id>, child: Id, n: nat)
    requires forall c <- up | c != root && accept(c) && (up[c].parent == root || up[c].parent in held) :: c in held
    requires ReachedWithin(up, accept, root, child, n)
    ensures child in held
    decreases n
  {
    if up[child].parent != root {
      ReachedIsHeld(up, accept, root, held, up[child].parent, n - 1);
    }
  }

  function Children(routes: seq<Route>): (children: seq<Id>)
    ensures |children| == |routes|
  {
    seq(|routes|, i requires 0 <= i < |routes| => routes[i].child)
  }

  function Threads(snapshots: seq<Snapshot>): (threads: seq<Id>)
    ensures |threads| == |snapshots|
  {
    seq(|snapshots|, i requires 0 <= i < |snapshots| => ThreadOf(snapshots[i]))
  }

  /** Every route comes after the route of its parent, unless the parent is the root. */
  ghost predicate ParentsFirst(routes: seq<Route>, root: Id) {
    forall i | 0 <= i < |routes| :: routes[i].parent == root || routes[i].parent in Children(routes[..i])
  }
}
