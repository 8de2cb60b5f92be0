/**
 * Subagent routes and the requests of the child threads. A route may be learned before or after a
 * request of its child arrives; either way the request ends up with the route.
 */
module PendingRoutes {
  import opened Prelude
  import opened RequestKeys
  import opened SubagentLinks
  import L = SubagentLinksProofs
  import opened PendingInput
  import opened PendingInputProofs

  datatype State = State(links: Links, pending: Table)

  /**
   * Events of a run without session clears. A `Local` event concerns one occurrence, or a turn; a
   * runtime is cleared in the pending input and in the links together.
   */
  datatype Event =
    | Learn(op: L.Operation)
    | Register(runtime: Id, thread: Id, native: RequestId)
    | Local(step: Operation)
    | ReleaseRuntime(released: Id)

  predicate Allowed(spawns: L.Spawns, event: Event) {
    match event
    case Learn(op) => L.Follows(spawns, op) && !L.IsClear(op)
    case Register(_, _, _) => true
    case Local(op) => op.Resolve? || op.BindTurn? || op.Claim? || op.Release?
    case ReleaseRuntime(_) => true
  }

  /** A request is registered with the route its thread has at that moment. */
  function RegistrationFor(links: Links, event: Event): Registration
    requires event.Register?
  {
    Registration(event.runtime, event.thread, event.native, RouteForChild(links, event.runtime, event.thread))
  }

  function Next(s: State, event: Event): State {
    match event
    case Learn(op) =>
      var route := L.Announcement(s.links, op);
      State(L.Step(s.links, op), if route.Some? then Applied(s.pending, route.value).table else s.pending)
    case Register(_, _, _) => s.(pending := Added(s.pending, RegistrationFor(s.links, event)))
    case Local(op) => s.(pending := Step(s.pending, op))
    case ReleaseRuntime(runtime) =>
      State(L.Step(s.links, L.ClearRuntime(runtime)), ClearedRuntime(s.pending, runtime))
  }

  function After(s: State, events: seq<Event>): State
    decreases |events|
  {
    if events == [] then s else After(Next(s, events[0]), events[1..])
  }

  predicate IsRouted(t: Table, id: Id, route: Option<Route>)
    requires id in t.entries
  {
    t.entries[id].route == route && (route.Some? ==> id in At(t.mirrored, route.value.parent))
  }

  /** Every pending request has the route of its thread, and is mirrored to the parent of the route. */
  ghost predicate RoutesAgree(links: Links, t: Table) {
    forall id <- t.entries :: IsRouted(t, id, RouteForChild(links, t.entries[id].runtime, t.entries[id].thread))
  }

  ghost predicate Good(spawns: L.Spawns, s: State) {
    Agree(s.links) && L.KeysFollow(spawns, s.links) && Inv(s.pending) && RoutesAgree(s.links, s.pending)
  }

  // ---------------------------------------------------------------------------------------------
  // Applying a route
  // ---------------------------------------------------------------------------------------------

  predicate Concerns(t: Table, id: Id, route: Route) {
    id in t.entries && t.entries[id].thread == route.child && t.entries[id].runtime == route.runtime
  }

  function Rerouted(t: Table, ids: seq<Id>, route: Route): map<Id, Entry> {
    map id | id in t.entries ::
      if id in ids && Concerns(t, id, route) then t.entries[id].(route := Some(route)) else t.entries[id]
  }

  ghost predicate SameMembers(a: seq<Id>, b: seq<Id>) {
    forall id: Id :: id in a <==> id in b
  }

  lemma MembersWithId(index: Index, session: Id, id: Id)
    ensures forall s: Id, x: Id :: x in At(WithId(index, session, id), s) <==> x in At(index, s) || (s == session && x == id)
  {
  }

  /** No listed entry has another route than the one to apply. */
  ghost predicate Accepts(t: Table, ids: seq<Id>, route: Route) {
    forall id <- ids | Concerns(t, id, route) :: t.entries[id].route == None || t.entries[id].route == Some(route)
  }

  lemma {:induction false} ApplyToEntries(t: Table, ids: seq<Id>, route: Route)
    requires EntriesAreNumbered(t) && Accepts(t, ids, route)
    ensures var result := ApplyTo(t, ids, route);
            && !result.conflict
            && result.table == t.(entries := Rerouted(t, ids, route), mirrored := result.table.mirrored)
    decreases |ids|
  {
    if ids == [] {
      assert Rerouted(t, ids, route) == t.entries;
    } else {
      var front, id := ids[..|ids| - 1], ids[|ids| - 1];
      ApplyToEntries(t, front, route);
      var before := ApplyTo(t, front, route);
      assert forall x: Id :: x in ids <==> x in front || x == id;
      ReroutedMore(t, front, id, ids, route);
      hide Rerouted, WithId, At;
    }
  }

  lemma ReroutedMore(t: Table, front: seq<Id>, id: Id, ids: seq<Id>, route: Route)
    requires forall x: Id :: x in ids <==> x in front || x == id
    requires Accepts(t, ids, route)
    ensures Rerouted(t, front, route).Keys == t.entries.Keys
    ensures id in t.entries ==>
              && Rerouted(t, front, route)[id].id == t.entries[id].id
              && Rerouted(t, front, route)[id].runtime == t.entries[id].runtime
              && Rerouted(t, front, route)[id].thread == t.entries[id].thread
              && (Concerns(t, id, route) ==> Rerouted(t, front, route)[id].route in {None, Some(route)})
    ensures Rerouted(t, ids, route)
         == if Concerns(t, id, route)
            then Rerouted(t, front, route)[id := Rerouted(t, front, route)[id].(route := Some(route))]
            else Rerouted(t, front, route)
  {
  }

  ghost predicate MirrorsGrow(t: Table, after: Index, ids: seq<Id>, route: Route) {
    forall s: Id, id: Id {:trigger id in At(after, s)} {:trigger id in At(t.mirrored, s)} ::
      id in At(after, s) <==> id in At(t.mirrored, s) || (s == route.parent && id in ids && Concerns(t, id, route))
  }

  lemma {:induction false} ApplyToMirrors(t: Table, ids: seq<Id>, route: Route)
    requires EntriesAreNumbered(t) && Accepts(t, ids, route)
    ensures MirrorsGrow(t, ApplyTo(t, ids, route).table.mirrored, ids, route)
    decreases |ids|
  {
    if ids == [] {
    } else {
      var front, id := ids[..|ids| - 1], ids[|ids| - 1];
      ApplyToMirrors(t, front, route);
      ApplyToEntries(t, front, route);
      assert forall x: Id :: x in ids <==> x in front || x == id;
      ReroutedMore(t, front, id, ids, route);
      if id in t.entries {
        MembersWithId(ApplyTo(t, front, route).table.mirrored, route.parent, id);
      }
      hide WithId, At, Rerouted, Accepts;
    }
  }

  function ReroutedAll(t: Table, route: Route): map<Id, Entry> {
    map id | id in t.entries :: if Concerns(t, id, route) then t.entries[id].(route := Some(route)) else t.entries[id]
  }

  ghost predicate AllAccept(t: Table, route: Route) {
    forall id: Id | Concerns(t, id, route) :: t.entries[id].route == None || t.entries[id].route == Some(route)
  }

  /** Beside what was mirrored, the requests of the child of the route are mirrored at its parent. */
  ghost predicate MirrorsConcerned(t: Table, after: Index, route: Route) {
    forall s: Id, id: Id {:trigger id in At(after, s)} {:trigger id in At(t.mirrored, s)} ::
      id in At(after, s) <==> id in At(t.mirrored, s) || (s == route.parent && Concerns(t, id, route))
  }

  /** Applying a route that no request of its child contradicts sets it on all of them, and mirrors them. */
  lemma AppliedEffect(t: Table, route: Route)
    requires Inv(t) && AllAccept(t, route)
    ensures var result := Applied(t, route);
            && !result.conflict
            && Inv(result.table)
            && result.table == t.(entries := ReroutedAll(t, route), mirrored := result.table.mirrored)
            && MirrorsConcerned(t, result.table.mirrored, route)
  {
    hide Inv, Applied, AllAccept;
    AppliedEntries(t, route);
    AppliedMirrors(t, route);
  }

  lemma AppliedEntries(t: Table, route: Route)
    requires Inv(t) && AllAccept(t, route)
    ensures var result := Applied(t, route);
            && !result.conflict
            && Inv(result.table)
            && result.table == t.(entries := ReroutedAll(t, route), mirrored := result.table.mirrored)
  {
    var ids := At(t.owned, route.child);
    ConcernedAreOwned(t, route);
    ApplyToKeepsInv(t, ids, route);
    hide OwnersAgree, MirrorsAgree, NativeKeysAgree, ApplyTo, At;
    ApplyToEntries(t, ids, route);
    hide EntriesAreNumbered, OnlyLiveEntries, AllAccept, Accepts;
    assert Rerouted(t, ids, route) == ReroutedAll(t, route);
  }

  lemma AppliedMirrors(t: Table, route: Route)
    requires Inv(t) && AllAccept(t, route)
    ensures MirrorsConcerned(t, Applied(t, route).table.mirrored, route)
  {
    var ids := At(t.owned, route.child);
    ConcernedAreOwned(t, route);
    hide OwnersAgree, MirrorsAgree, NativeKeysAgree, ApplyTo, At;
    ApplyToMirrors(t, ids, route);
  }

  lemma ConcernedAreOwned(t: Table, route: Route)
    requires Inv(t)
    ensures forall id: Id | Concerns(t, id, route) :: id in At(t.owned, route.child)
  {
    assert At(t.owned, route.child) == Scan(t.entries, t.next, route.child, None);
    ScanIsAscending(t.entries, t.next, route.child, None);
    assert forall id: Id | Concerns(t, id, route) :: Owns(t.entries, id, route.child, None);
  }

  // ---------------------------------------------------------------------------------------------
  // Runs
  // ---------------------------------------------------------------------------------------------

  /** An announced route is the route of its child from then on, and contradicts no pending request. */
  lemma AnnouncedRouteFits(spawns: L.Spawns, s: State, op: L.Operation)
    requires Good(spawns, s) && Allowed(spawns, Learn(op)) && L.Announcement(s.links, op).Some?
    ensures var route := L.Announcement(s.links, op).value;
            && RouteForChild(L.Step(s.links, op), route.runtime, route.child) == Some(route)
            && AllAccept(s.pending, route)
  {
    var route := L.Announcement(s.links, op).value;
    L.OneAnnouncement(s.links, op, route.runtime, route.child);
    if RouteForChild(s.links, route.runtime, route.child).Some? {
      L.RouteOfLinkedChildIsStable(s.links, op, route.runtime, route.child);
    }
  }

  predicate Names(route: Option<Route>, runtime: Id, thread: Id) {
    route.Some? && route.value.runtime == runtime && route.value.child == thread
  }

  /** Only an announcement gives a thread a route, and it never changes one. */
  lemma RouteAfterLearning(s: Links, op: L.Operation, runtime: Id, thread: Id)
    requires Agree(s) && !L.IsClear(op)
    ensures RouteForChild(L.Step(s, op), runtime, thread)
         == if Names(L.Announcement(s, op), runtime, thread) then L.Announcement(s, op) else RouteForChild(s, runtime, thread)
    ensures RouteForChild(s, runtime, thread) == None
         || RouteForChild(L.Step(s, op), runtime, thread) == RouteForChild(s, runtime, thread)
  {
    L.OneAnnouncement(s, op, runtime, thread);
    if RouteForChild(s, runtime, thread).Some? {
      L.RouteOfLinkedChildIsStable(s, op, runtime, thread);
    }
  }

  lemma LearningKeepsRoutes(spawns: L.Spawns, s: State, op: L.Operation)
    requires Good(spawns, s) && Allowed(spawns, Learn(op))
    ensures Good(spawns, Next(s, Learn(op)))
  {
    hide L.Step, L.Announcement, L.Follows, Inv, Agree, L.KeysFollow, RouteForChild, Applied, At, AllAccept, L.IsClear;
    L.StepKeepsAgreement(spawns, s.links, op);
    var announced := L.Announcement(s.links, op);
    if announced.Some? {
      AnnouncedRouteFits(spawns, s, op);
      AppliedEffect(s.pending, announced.value);
    }
    forall runtime, thread: Id
      ensures RouteForChild(L.Step(s.links, op), runtime, thread)
           == if Names(announced, runtime, thread) then announced else RouteForChild(s.links, runtime, thread)
    {
      RouteAfterLearning(s.links, op, runtime, thread);
    }
  }

  lemma RegisteredIsRouted(links: Links, t: Table, event: Event)
    requires EntriesAreNumbered(t) && RoutesAgree(links, t) && event.Register?
    ensures RoutesAgree(links, Added(t, RegistrationFor(links, event)))
  {
    var input := RegistrationFor(links, event);
    if input.route.Some? {
      MembersWithId(t.mirrored, input.route.value.parent, t.next);
    }
    hide RouteForChild, WithId, At, IsNew;
  }

  lemma RegisteringKeepsRoutes(spawns: L.Spawns, s: State, event: Event)
    requires Good(spawns, s) && event.Register?
    ensures Good(spawns, Next(s, event))
  {
    assert EntriesAreNumbered(s.pending);
    hide Inv, Agree, L.KeysFollow, RouteForChild, RoutesAgree, Added, EntriesAreNumbered;
    AddedKeepsInv(s.pending, RegistrationFor(s.links, event));
    RegisteredIsRouted(s.links, s.pending, event);
  }

  lemma LocalStepKeepsRoutes(spawns: L.Spawns, s: State, op: Operation)
    requires Good(spawns, s) && Allowed(spawns, Local(op))
    ensures Good(spawns, Next(s, Local(op)))
  {
    StepKeepsInv(s.pending, op);
    hide Inv, Agree, L.KeysFollow, RouteForChild;
    if op.Resolve? {
      forall p: Id ensures At(WithoutIds(s.pending.mirrored, {op.id}), p) == Dropped(At(s.pending.mirrored, p), {op.id}) {
        WithoutIdsOf(s.pending.mirrored, {op.id}, p);
      }
      forall p: Id, id: Id ensures id in Dropped(At(s.pending.mirrored, p), {op.id}) <==> id in At(s.pending.mirrored, p) && id != op.id {
        DroppedContains(At(s.pending.mirrored, p), {op.id});
      }
      hide WithoutIds, Dropped;
    }
  }

  lemma RouteAfterRelease(links: Links, released: Id, runtime: Id, thread: Id)
    requires Agree(links) && runtime != released
    ensures RouteForChild(L.Step(links, L.ClearRuntime(released)), runtime, thread)
         == RouteForChild(links, runtime, thread)
  {
    L.ClearedRuntimeIsGone(links, released);
    hide Without, Agree;
  }

  lemma ReleasedEntries(t: Table, released: Id)
    requires Inv(t)
    ensures var after := ClearedRuntime(t, released);
            && Inv(after)
            && (forall id <- after.entries ::
                  id in t.entries && after.entries[id] == t.entries[id] && t.entries[id].runtime != released)
            && (forall s: Id, id: Id ::
                  id in At(after.mirrored, s) <==>
                  (id in At(t.mirrored, s) && !(id in t.entries && t.entries[id].runtime == released)))
  {
    var gone := OfRuntime(t, t.entries.Keys, released);
    WithoutKeepsInv(t, gone);
    forall s: Id ensures forall id: Id :: id in At(ClearedRuntime(t, released).mirrored, s) <==> id in At(t.mirrored, s) && id !in gone {
      WithoutIdsOf(t.mirrored, gone, s);
      DroppedContains(At(t.mirrored, s), gone);
    }
    hide Inv, WithoutIds, At;
  }

  lemma ReleasingKeepsRoutes(spawns: L.Spawns, s: State, released: Id)
    requires Good(spawns, s)
    ensures Good(spawns, Next(s, ReleaseRuntime(released)))
  {
    L.StepKeepsAgreement(spawns, s.links, L.ClearRuntime(released));
    ReleasedEntries(s.pending, released);
    hide Inv, Agree, L.KeysFollow, RouteForChild, ClearedRuntime, At, L.Step;
    var after := Next(s, ReleaseRuntime(released));
    forall id <- after.pending.entries
      ensures IsRouted(after.pending, id, RouteForChild(after.links, after.pending.entries[id].runtime, after.pending.entries[id].thread))
    {
      var entry := s.pending.entries[id];
      RouteAfterRelease(s.links, released, entry.runtime, entry.thread);
      assert IsRouted(s.pending, id, RouteForChild(s.links, entry.runtime, entry.thread));
    }
  }

  lemma EventKeepsRoutes(spawns: L.Spawns, s: State, event: Event)
    requires Good(spawns, s) && Allowed(spawns, event)
    ensures Good(spawns, Next(s, event))
  {
    hide Good, Next;
    match event
    case Learn(op) => LearningKeepsRoutes(spawns, s, op);
    case Register(_, _, _) => RegisteringKeepsRoutes(spawns, s, event);
    case Local(op) => LocalStepKeepsRoutes(spawns, s, op);
    case ReleaseRuntime(runtime) => ReleasingKeepsRoutes(spawns, s, runtime);
  }

  /** In every run without a session clear, each pending request has the route of its thread and is mirrored. */
  lemma {:induction false} RunKeepsRoutes(spawns: L.Spawns, s: State, events: seq<Event>)
    requires Good(spawns, s) && forall event <- events :: Allowed(spawns, event)
    ensures Good(spawns, After(s, events))
    decreases |events|
  {
    if events == [] {
    } else {
      EventKeepsRoutes(spawns, s, events[0]);
      hide Good, Next;
      RunKeepsRoutes(spawns, Next(s, events[0]), events[1..]);
    }
  }

  /** Applying a learned route is never a conflict. */
  lemma LearnedRouteNeverConflicts(spawns: L.Spawns, events: seq<Event>, op: L.Operation)
    requires forall event <- events :: Allowed(spawns, event)
    requires Allowed(spawns, Learn(op))
    ensures var s := After(State(NO_LINKS, NO_PENDING), events);
            L.Announcement(s.links, op).Some? ==> !Applied(s.pending, L.Announcement(s.links, op).value).conflict
  {
    var start := State(NO_LINKS, NO_PENDING);
    RunKeepsRoutes(spawns, start, events);
    var s := After(start, events);
    if L.Announcement(s.links, op).Some? {
      AnnouncedRouteFits(spawns, s, op);
      AppliedEffect(s.pending, L.Announcement(s.links, op).value);
    }
  }

  /** Equal but for the order in which sessions mirror occurrences. */
  ghost predicate SameUpToMirrorOrder(a: Table, b: Table) {
    && a == b.(mirrored := a.mirrored)
    && forall s: Id :: SameMembers(At(a.mirrored, s), At(b.mirrored, s))
  }

  /** Learning a route and registering a request commute. */
  lemma LearningAndRegisteringCommute(spawns: L.Spawns, s: State, op: L.Operation, request: Event)
    requires Good(spawns, s) && Allowed(spawns, Learn(op)) && request.Register?
    ensures var learnedFirst := Next(Next(s, Learn(op)), request);
            var registeredFirst := Next(Next(s, request), Learn(op));
            && learnedFirst.links == registeredFirst.links
            && SameUpToMirrorOrder(learnedFirst.pending, registeredFirst.pending)
  {
    hide Agree, L.KeysFollow, L.Follows, RouteForChild, L.Step, L.Announcement, RoutesAgree, SameUpToMirrorOrder, Inv, AllAccept;
    hide L.IsClear, Added, Applied;
    RegisteringKeepsRoutes(spawns, s, request);
    LearningKeepsRoutes(spawns, s, op);
    var announced := L.Announcement(s.links, op);
    RouteAfterLearning(s.links, op, request.runtime, request.thread);
    if announced.Some? {
      AnnouncedRouteFits(spawns, s, op);
      AnnouncedRouteFits(spawns, Next(s, request), op);
      var early, late := RegistrationFor(s.links, request), RegistrationFor(L.Step(s.links, op), request);
      TablesCommute(s.pending, early, late, announced.value);
    } else {
      SameTables(Next(Next(s, Learn(op)), request).pending);
    }
  }

  lemma SameTables(t: Table)
    ensures SameUpToMirrorOrder(t, t)
  {
  }

  /** The commutation, on the table: the request registered late has the route from the start. */
  lemma TablesCommute(t: Table, early: Registration, late: Registration, route: Route)
    requires Inv(t) && Inv(Added(t, early)) && late == early.(route := late.route)
    requires late.route == if route.runtime == early.runtime && route.child == early.thread then Some(route) else early.route
    requires early.route == None || late.route == early.route
    requires AllAccept(t, route) && AllAccept(Added(t, early), route)
    ensures SameUpToMirrorOrder(Added(Applied(t, route).table, late), Applied(Added(t, early), route).table)
  {
    hide Inv, Applied, AllAccept;
    AppliedEffect(t, route);
    AppliedEffect(Added(t, early), route);
    assert IsNew(Applied(t, route).table, late) == IsNew(t, early);
    if IsNew(t, early) {
      AddedFacts(t, early);
      EntriesCommute(t, early, late, route);
      MirrorsCommute(t, early, late, route);
    }
    hide Applied, WithId, At, Inv, ReroutedAll, AllAccept, SameMembers;
  }

  lemma EntriesCommute(t: Table, early: Registration, late: Registration, route: Route)
    requires IsNew(t, early) && t.next !in t.entries && late == early.(route := late.route)
    requires late.route == if route.runtime == early.runtime && route.child == early.thread then Some(route) else early.route
    ensures ReroutedAll(t, route)[t.next := EntryFor(t, late)] == ReroutedAll(Added(t, early), route)
  {
  }

  lemma MirrorsCommute(t: Table, early: Registration, late: Registration, route: Route)
    requires Inv(t) && Inv(Added(t, early)) && late == early.(route := late.route)
    requires IsNew(t, early) && IsNew(Applied(t, route).table, late)
    requires late.route == if route.runtime == early.runtime && route.child == early.thread then Some(route) else early.route
    requires early.route == None || late.route == early.route
    requires AllAccept(t, route) && AllAccept(Added(t, early), route)
    ensures forall s: Id :: SameMembers(At(Added(Applied(t, route).table, late).mirrored, s),
                                        At(Applied(Added(t, early), route).table.mirrored, s))
  {
    hide Applied, Added, At, Inv, AllAccept, IsNew;
    AppliedEffect(t, route);
    AppliedEffect(Added(t, early), route);
    AddedFacts(t, early);
    AddedMembers(t, early, route);
    AddedMembers(Applied(t, route).table, late, route);
    var a, b := Added(Applied(t, route).table, late).mirrored, Applied(Added(t, early), route).table.mirrored;
    forall s: Id, id: Id ensures id in At(a, s) <==> id in At(b, s) {
      assert Concerns(Added(t, early), id, route)
        <==> Concerns(t, id, route) || (id == t.next && early.thread == route.child && early.runtime == route.runtime);
    }
    hide Concerns;
  }

  lemma AddedMembers(t: Table, input: Registration, route: Route)
    requires IsNew(t, input) && t.next !in t.entries
    ensures forall s: Id, id: Id :: id in At(Added(t, input).mirrored, s)
              <==> id in At(t.mirrored, s) || (input.route.Some? && s == input.route.value.parent && id == t.next)
    ensures forall id: Id :: Concerns(Added(t, input), id, route)
              <==> Concerns(t, id, route) || (id == t.next && input.thread == route.child && input.runtime == route.runtime)
  {
    if input.route.Some? {
      MembersWithId(t.mirrored, input.route.value.parent, t.next);
    }
    hide WithId, At, IsNew;
  }

  lemma ResolvingAndApplyingCommute(t: Table, id: Id, runtime: Option<Id>, route: Route)
    requires Inv(t) && Inv(Resolved(t, id, runtime))
    requires AllAccept(t, route) && AllAccept(Resolved(t, id, runtime), route)
    ensures SameUpToMirrorOrder(Resolved(Applied(t, route).table, id, runtime), Applied(Resolved(t, id, runtime), route).table)
  {
    hide Inv, Applied, AllAccept;
    AppliedEffect(t, route);
    AppliedEffect(Resolved(t, id, runtime), route);
    assert Direct(Applied(t, route).table, id, runtime).Some? == Direct(t, id, runtime).Some?;
    if Direct(t, id, runtime).Some? {
      var applied, left := Applied(t, route).table, WithoutEntries(t, {id});
      assert ReroutedAll(t, route) - {id} == ReroutedAll(left, route);
      WithoutEntriesMembers(t, id);
      WithoutEntriesMembers(applied, id);
      var a, b := WithoutEntries(applied, {id}).mirrored, Applied(left, route).table.mirrored;
      assert forall x: Id :: Concerns(left, x, route) <==> Concerns(t, x, route) && x != id;
      hide WithoutIds, At, ReroutedAll, Concerns;
      forall s: Id ensures SameMembers(At(a, s), At(b, s)) {
        assert forall x: Id :: x in At(a, s) <==> x in At(b, s);
      }
    }
  }

  lemma WithoutEntriesMembers(t: Table, id: Id)
    ensures forall s: Id, x: Id :: x in At(WithoutEntries(t, {id}).mirrored, s) <==> x in At(t.mirrored, s) && x != id
  {
    forall s: Id ensures forall x: Id :: x in At(WithoutEntries(t, {id}).mirrored, s) <==> x in At(t.mirrored, s) && x != id {
      WithoutIdsOf(t.mirrored, {id}, s);
      DroppedContains(At(t.mirrored, s), {id});
    }
  }

  lemma ReleasingAndApplyingCommute(t: Table, id: Id, runtime: Option<Id>, route: Route)
    requires Inv(t) && Inv(Released(t, id, runtime))
    requires AllAccept(t, route) && AllAccept(Released(t, id, runtime), route)
    ensures SameUpToMirrorOrder(Released(Applied(t, route).table, id, runtime), Applied(Released(t, id, runtime), route).table)
  {
    hide Inv, Applied, AllAccept;
    AppliedEffect(t, route);
    AppliedEffect(Released(t, id, runtime), route);
    assert forall x: Id :: Concerns(Released(t, id, runtime), x, route) <==> Concerns(t, x, route);
    hide At, Concerns;
  }

  lemma StepAndApplyingCommute(t: Table, step: Operation, route: Route)
    requires (step.Resolve? || step.Release?) && Inv(t) && Inv(Step(t, step))
    requires AllAccept(t, route) && AllAccept(Step(t, step), route)
    ensures SameUpToMirrorOrder(Step(Applied(t, route).table, step), Applied(Step(t, step), route).table)
  {
    hide Inv, Applied, AllAccept, SameUpToMirrorOrder, Resolved, Released;
    if step.Resolve? {
      ResolvingAndApplyingCommute(t, step.id, step.runtime, route);
    } else {
      ReleasingAndApplyingCommute(t, step.id, step.runtime, route);
    }
  }

  /** An event that no learned route disturbs: it registers, resolves, or releases one request. */
  predicate CommutesWithLearning(event: Event) {
    event.Register? || (event.Local? && (event.step.Resolve? || event.step.Release?))
  }

  lemma LearningCommutes(spawns: L.Spawns, s: State, op: L.Operation, event: Event)
    requires Good(spawns, s) && Allowed(spawns, Learn(op)) && CommutesWithLearning(event)
    ensures var learnedFirst, learnedLast := Next(Next(s, Learn(op)), event), Next(Next(s, event), Learn(op));
            learnedFirst.links == learnedLast.links && SameUpToMirrorOrder(learnedFirst.pending, learnedLast.pending)
  {
    if event.Register? {
      LearningAndRegisteringCommute(spawns, s, op, event);
    } else {
      hide Agree, L.KeysFollow, L.Follows, RouteForChild, L.Step, L.Announcement, RoutesAgree, SameUpToMirrorOrder, Inv, AllAccept;
      hide L.IsClear, Step, Applied;
      LocalStepKeepsRoutes(spawns, s, event.step);
      var announced := L.Announcement(s.links, op);
      if announced.Some? {
        AnnouncedRouteFits(spawns, s, op);
        AnnouncedRouteFits(spawns, Next(s, event), op);
        StepAndApplyingCommute(s.pending, event.step, announced.value);
      } else {
        SameTables(Next(Next(s, Learn(op)), event).pending);
      }
    }
  }

  // ---------------------------------------------------------------------------------------------
  // Whole runs in another order
  // ---------------------------------------------------------------------------------------------

  /** Equal but for the order in which sessions mirror occurrences. */
  ghost predicate Similar(a: State, b: State) {
    a.links == b.links && SameUpToMirrorOrder(a.pending, b.pending)
  }

  predicate MayMove(event: Event) {
    event.Learn? || CommutesWithLearning(event)
  }

  function Learned(events: seq<Event>): (learned: seq<Event>)
    ensures forall event <- learned :: event in events && event.Learn?
  {
    if events == [] then []
    else if events[0].Learn? then [events[0]] + Learned(events[1..]) else Learned(events[1..])
  }

  function Others(events: seq<Event>): (others: seq<Event>)
    ensures forall event <- others :: event in events && !event.Learn?
  {
    if events == [] then []
    else if events[0].Learn? then Others(events[1..]) else [events[0]] + Others(events[1..])
  }

  lemma SimilarIsTransitive(a: State, b: State, c: State)
    requires Similar(a, b) && Similar(b, c)
    ensures Similar(a, c)
  {
  }

  lemma SimilarAfterRegister(a: State, b: State, event: Event)
    requires Similar(a, b) && event.Register?
    ensures Similar(Next(a, event), Next(b, event))
  {
    var input := RegistrationFor(a.links, event);
    assert IsNew(a.pending, input) == IsNew(b.pending, input);
    if input.route.Some? {
      MembersWithId(a.pending.mirrored, input.route.value.parent, a.pending.next);
      MembersWithId(b.pending.mirrored, input.route.value.parent, a.pending.next);
    }
    hide WithId, At, IsNew, RouteForChild;
  }

  lemma SimilarAfterApplying(a: Table, b: Table, route: Route)
    requires SameUpToMirrorOrder(a, b) && Inv(a) && Inv(b) && AllAccept(a, route)
    ensures SameUpToMirrorOrder(Applied(a, route).table, Applied(b, route).table)
  {
    assert AllAccept(b, route);
    hide Inv, AllAccept, Applied, At;
    AppliedEffect(a, route);
    AppliedEffect(b, route);
  }

  lemma SimilarAfterLocal(a: State, b: State, op: Operation)
    requires Similar(a, b) && (op.Resolve? || op.Release?)
    ensures Similar(Next(a, Local(op)), Next(b, Local(op)))
  {
    if op.Resolve? {
      WithoutEntriesMembers(a.pending, op.id);
      WithoutEntriesMembers(b.pending, op.id);
    }
    hide WithoutIds, At;
  }

  lemma SimilarAfter(spawns: L.Spawns, a: State, b: State, event: Event)
    requires Good(spawns, a) && Good(spawns, b) && Similar(a, b)
    requires Allowed(spawns, event) && MayMove(event)
    ensures Similar(Next(a, event), Next(b, event))
  {
    if event.Register? {
      SimilarAfterRegister(a, b, event);
    } else if event.Local? {
      SimilarAfterLocal(a, b, event.step);
    } else if L.Announcement(a.links, event.op).Some? {
      AnnouncedRouteFits(spawns, a, event.op);
      hide Inv, AllAccept, SameUpToMirrorOrder, Agree, Applied, L.Announcement, L.Step, RoutesAgree;
      SimilarAfterApplying(a.pending, b.pending, L.Announcement(a.links, event.op).value);
    }
  }

  lemma {:induction false} SimilarAfterAll(spawns: L.Spawns, a: State, b: State, events: seq<Event>)
    requires Good(spawns, a) && Good(spawns, b) && Similar(a, b)
    requires forall event <- events :: Allowed(spawns, event) && MayMove(event)
    ensures Similar(After(a, events), After(b, events))
    decreases |events|
  {
    if events == [] {
    } else {
      EventKeepsRoutes(spawns, a, events[0]);
      EventKeepsRoutes(spawns, b, events[0]);
      SimilarAfter(spawns, a, b, events[0]);
      hide Good, Similar, Next, Allowed;
      SimilarAfterAll(spawns, Next(a, events[0]), Next(b, events[0]), events[1..]);
    }
  }

  /** What happens to a request before some routes are learned might as well happen after them. */
  lemma {:induction false} LearningBefore(spawns: L.Spawns, s: State, request: Event, learned: seq<Event>)
    requires Good(spawns, s) && Allowed(spawns, request) && CommutesWithLearning(request)
    requires forall event <- learned :: Allowed(spawns, event) && event.Learn?
    ensures Similar(After(Next(s, request), learned), Next(After(s, learned), request))
    decreases |learned|
  {
    if learned == [] {
      SameTables(Next(s, request).pending);
    } else {
      var first, rest := learned[0], learned[1..];
      var learnedLast, learnedFirst := Next(Next(s, request), first), Next(Next(s, first), request);
      LearningCommutes(spawns, s, first.op, request);
      SimilarIsSymmetric(learnedFirst, learnedLast);
      EventKeepsRoutes(spawns, s, request);
      EventKeepsRoutes(spawns, Next(s, request), first);
      EventKeepsRoutes(spawns, s, first);
      EventKeepsRoutes(spawns, Next(s, first), request);
      hide Good, Similar, SameUpToMirrorOrder, Next, Allowed;
      SimilarAfterAll(spawns, learnedLast, learnedFirst, rest);
      LearningBefore(spawns, Next(s, first), request, rest);
      SimilarIsTransitive(After(learnedLast, rest), After(learnedFirst, rest), Next(After(Next(s, first), rest), request));
    }
  }

  lemma SimilarIsSymmetric(a: State, b: State)
    requires a.links == b.links && SameUpToMirrorOrder(a.pending, b.pending)
    ensures Similar(b, a)
  {
  }

  lemma {:induction false} LearningFirst(spawns: L.Spawns, s: State, events: seq<Event>)
    requires Good(spawns, s)
    requires forall event <- events :: Allowed(spawns, event) && MayMove(event)
    ensures Similar(After(s, events), After(After(s, Learned(events)), Others(events)))
    decreases |events|
  {
    if events == [] {
      SameTables(s.pending);
    } else {
      var first, rest := events[0], events[1..];
      assert first in events && forall event <- rest :: event in events;
      EventKeepsRoutes(spawns, s, first);
      hide Good, Similar, Next, Allowed;
      LearningFirst(spawns, Next(s, first), rest);
      if first.Learn? {
        assert ([first] + Learned(rest))[1..] == Learned(rest);
      } else {
        assert ([first] + Others(rest))[1..] == Others(rest);
        LearningBefore(spawns, s, first, Learned(rest));
        RunKeepsRoutes(spawns, s, Learned(rest));
        RunKeepsRoutes(spawns, Next(s, first), Learned(rest));
        EventKeepsRoutes(spawns, After(s, Learned(rest)), first);
        SimilarAfterAll(spawns, After(Next(s, first), Learned(rest)), Next(After(s, Learned(rest)), first), Others(rest));
        SimilarIsTransitive(After(s, events), After(After(Next(s, first), Learned(rest)), Others(rest)),
                            After(After(s, Learned(events)), Others(events)));
      }
    }
  }

  /**
   * However the learning of routes interleaves with the arrival, resolution and release of requests,
   * the outcome is the same: two runs with the same routes in the same order, and the same other events
   * in the same order, differ at most in the order in which sessions mirror occurrences.
   */
  lemma InterleavingIsIrrelevant(spawns: L.Spawns, s: State, a: seq<Event>, b: seq<Event>)
    requires Good(spawns, s)
    requires forall event <- a + b :: Allowed(spawns, event) && MayMove(event)
    requires Learned(a) == Learned(b) && Others(a) == Others(b)
    ensures Similar(After(s, a), After(s, b))
  {
    assert forall event <- a :: event in a + b;
    assert forall event <- b :: event in a + b;
    hide Good, Allowed, After, Learned, Others;
    LearningFirst(spawns, s, a);
    LearningFirst(spawns, s, b);
    var both := After(After(s, Learned(a)), Others(a));
    SimilarIsSymmetric(After(s, b), both);
    SimilarIsTransitive(After(s, a), both, After(s, b));
  }

  const CHILD_IS_LINKED := Learn(L.Update(L.SpawnUpdate(Some(9), Running)))

  const CHILD_ASKS := Register(0, 9, Number(5))

  const PARENT_CLAIMS := Local(Claim(0, 1, None))

  lemma ClaimBeforeRoute()
    ensures var s := Next(State(NO_LINKS, NO_PENDING), CHILD_ASKS);
            Inv(s.pending) && Next(s, PARENT_CLAIMS) == s
  {
    var s := Next(State(NO_LINKS, NO_PENDING), CHILD_ASKS);
    var request := Registration(0, 9, Number(5), None);
    assert s.pending == Added(NO_PENDING, request);
    AddedKeepsInv(NO_PENDING, request);
    SessionLookupIsDirect(s.pending, 0, 1, None);
  }

  lemma ParentIsReached()
    ensures var s := Next(Next(State(NO_LINKS, NO_PENDING), CHILD_ASKS), CHILD_IS_LINKED);
            && Inv(s.pending) && s.pending.claims == {} && 0 in s.pending.entries
            && s.pending.entries[0] == Entry(0, 0, 9, Number(5), Some(Route(0, 1, 9, CorrelationKey(1, 7))))
  {
    ClaimBeforeRoute();
    var pending := Next(State(NO_LINKS, NO_PENDING), CHILD_ASKS).pending;
    var route := Route(0, 1, 9, CorrelationKey(1, 7));
    assert L.Announcement(NO_LINKS, CHILD_IS_LINKED.op) == Some(route);
    assert Concerns(pending, 0, route);
    hide Inv, Applied, L.Step, L.Announcement;
    AppliedEffect(pending, route);
  }

  lemma ParentClaims(t: Table)
    requires Inv(t) && t.claims == {} && 0 in t.entries
    requires t.entries[0] == Entry(0, 0, 9, Number(5), Some(Route(0, 1, 9, CorrelationKey(1, 7))))
    ensures Step(t, Claim(0, 1, None)).claims == {0}
  {
    SessionLookupIsDirect(t, 0, 1, None);
    hide Inv, RequireForSession;
  }

  /** A reply by the parent session, by contrast, may start only once the route is learned. */
  lemma ClaimNeedsRoute()
    ensures var s := Next(State(NO_LINKS, NO_PENDING), CHILD_ASKS);
            && Next(Next(s, CHILD_IS_LINKED), PARENT_CLAIMS).pending.claims == {0}
            && Next(Next(s, PARENT_CLAIMS), CHILD_IS_LINKED).pending.claims == {}
  {
    ClaimBeforeRoute();
    ParentIsReached();
    hide Inv, L.Step, L.Announcement, Applied;
    ParentClaims(Next(Next(State(NO_LINKS, NO_PENDING), CHILD_ASKS), CHILD_IS_LINKED).pending);
  }
}
