/** The pending-input indexes, changed in place by every operation. */
module PendingTables {
  import opened Prelude
  import SubagentLinks
  import opened PendingInput
  import opened PendingInputProofs

  class PendingTable {
    var entries: map<Id, Entry>
    var byNative: map<NativeKey, Id>
    var owned: Index
    var mirrored: Index
    var turns: map<Id, Turn>
    var claims: set<Id>
    var next: Id

    function Value(): Table
      reads this
    {
      Table(entries, byNative, owned, mirrored, turns, claims, next)
    }

    ghost predicate Valid()
      reads this
    {
      Inv(Value())
    }

    constructor ()
      ensures Value() == NO_PENDING && Valid()
    {
      entries, byNative, owned, mirrored, turns, claims, next := map[], map[], map[], map[], map[], {}, 0;
    }

    method Add(input: Registration) returns (id: Id, isNew: bool)
      requires Valid()
      modifies this
      ensures Value() == Added(old(Value()), input)
      ensures Valid()
      ensures isNew == IsNew(old(Value()), input)
      ensures id in entries && NativeEntry(Value(), InputKey(input)) == Some(entries[id])
      ensures isNew ==> id == old(next)
    {
      AddedKeepsInv(Value(), input);
      AddedIsFound(Value(), input);
      var key := InputKey(input);
      isNew := !(key in byNative && byNative[key] in entries);
      assert isNew == IsNew(Value(), input);
      hide Inv, NativeEntry, IsNew, Added;
      if isNew {
        id := Insert(input);
      } else {
        id := byNative[key];
      }
    }

    /** Enters a new occurrence into every index. */
    method Insert(input: Registration) returns (id: Id)
      requires IsNew(Value(), input)
      modifies this
      ensures Value() == Added(old(Value()), input) && id == old(next)
    {
      hide IsNew, WithId;
      id := next;
      entries := entries[id := Entry(id, input.runtime, input.thread, input.native, input.route)];
      byNative := byNative[InputKey(input) := id];
      owned := WithId(owned, input.thread, id);
      if input.route.Some? {
        mirrored := WithId(mirrored, input.route.value.parent, id);
      }
      next := next + 1;
    }

    method PendingForSession(session: Id, runtime: Option<Id>) returns (pending: seq<Entry>)
      requires Valid()
      ensures pending == ScannedForSession(Value(), session, runtime)
    {
      ListingIsAScan(Value(), session, runtime);
      pending := EntriesForIndex(entries, owned, session, runtime);
    }

    method EventsForSession(session: Id, runtime: Option<Id>) returns (pending: seq<Entry>)
      ensures pending == PendingInput.EventsForSession(Value(), session, runtime)
    {
      var own := EntriesForIndex(entries, owned, session, runtime);
      var routed := EntriesForIndex(entries, mirrored, session, runtime);
      pending := own + routed;
    }

    /** Looks the occurrence up by session, then directly, and checks that the session may see it. */
    method RequireForSession(id: Id, session: Id, runtime: Option<Id>) returns (found: SessionLookup)
      requires Valid()
      ensures found == if Direct(Value(), id, runtime).Some?
                       then ForSession(Direct(Value(), id, runtime).value, session) else Unknown
    {
      SessionLookupIsDirect(Value(), id, session, runtime);
      var matches := MatchesInSession(entries, IdsOfSession(Value(), session), id, runtime);
      if |matches| > 1 {
        return Ambiguous;
      }
      if |matches| == 1 {
        return ForSession(matches[0], session);
      }
      if id in entries && InRuntime(entries[id], runtime) {
        return ForSession(entries[id], session);
      }
      return Unknown;
    }

    method ClaimForSession(id: Id, session: Id, runtime: Option<Id>) returns (found: SessionLookup, claimed: bool)
      requires Valid()
      modifies this`claims
      ensures Valid() && Value() == Claimed(old(Value()), id, session, runtime)
      ensures claimed == MayClaim(old(Value()), id, session, runtime)
      ensures claimed ==> id in entries && found == Found(entries[id]) && id in claims
    {
      ClaimedKeepsInv(Value(), id, session, runtime);
      SessionLookupIsDirect(Value(), id, session, runtime);
      found := RequireForSession(id, session, runtime);
      claimed := found.Found? && id !in claims;
      hide Inv;
      if claimed {
        claims := claims + {id};
      }
    }

    method ReleaseClaim(id: Id, runtime: Option<Id>)
      requires Valid()
      modifies this`claims
      ensures Valid() && Value() == Released(old(Value()), id, runtime)
    {
      StepKeepsInv(Value(), Release(id, runtime));
      hide Inv;
      if id in entries && InRuntime(entries[id], runtime) {
        claims := claims - {id};
      }
    }

    method ApplyRouteTo(id: Id, route: SubagentLinks.Route) returns (effect: RouteEffect)
      requires id in entries
      modifies this`entries, this`mirrored
      ensures Value() == RoutedOne(old(Value()), id, route)
      ensures effect == RouteEffectOn(old(Value()), old(entries[id]), route)
    {
      var entry := entries[id];
      if route.runtime != entry.runtime || entry.thread != route.child {
        return Kept;
      }
      if entry.route.Some? && entry.route.value != route {
        return Conflict;
      }
      effect := Routed(entry.id !in At(mirrored, route.parent));
      entries := entries[id := entry.(route := Some(route))];
      mirrored := WithId(mirrored, route.parent, entry.id);
    }

    /** Tells a route to every occurrence of its child; returns those that were not mirrored before. */
    method ApplyRoute(route: SubagentLinks.Route) returns (announced: seq<Id>, conflict: bool)
      requires Valid()
      modifies this`entries, this`mirrored
      ensures Valid() && RouteApplication(Value(), announced, conflict) == Applied(old(Value()), route)
    {
      var ids := At(owned, route.child);
      ghost var t := Value();
      announced, conflict := [], false;
      ApplyToKeepsInv(t, ids, route);
      assert ids[..0] == [];
      hide Inv, RoutedOne, RouteEffectOn, WithId, At, ApplyTo;
      var i := 0;
      while i < |ids| && !conflict
        invariant i <= |ids|
        invariant RouteApplication(Value(), announced, conflict) == ApplyTo(t, ids[..i], route)
        invariant conflict ==> ApplyTo(t, ids, route) == ApplyTo(t, ids[..i], route)
      {
        ApplyToStep(t, ids, i, route);
        if ids[i] in entries {
          var effect := ApplyRouteTo(ids[i], route);
          if effect == Conflict {
            conflict := true;
            ConflictStops(t, ids, i + 1, route);
          } else if effect == Routed(true) {
            announced := announced + [ids[i]];
          }
        }
        i := i + 1;
      }
      assert ids[..|ids|] == ids;
    }

    method BindActiveTurn(session: Id, turn: Turn)
      requires Valid()
      modifies this`turns
      ensures Valid() && Value() == Bound(old(Value()), session, turn)
    {
      hide Inv, IdsOfSession;
      BoundKeepsInv(Value(), session, turn);
      turns := BindEach(turns, entries, IdsOfSession(Value(), session), turn);
      assert turns == Bound(old(Value()), session, turn).turns;
    }

    /** Deletes one occurrence from every index; returns the turn it was bound to. */
    method Resolve(id: Id, runtime: Option<Id>) returns (turn: Option<Turn>)
      requires Valid()
      modifies this
      ensures Valid() && Value() == Resolved(old(Value()), id, runtime)
      ensures turn == if Direct(old(Value()), id, runtime).Some? then Prelude.Lookup(old(turns), id) else None
    {
      if id !in entries || !InRuntime(entries[id], runtime) {
        return None;
      }
      turn := Prelude.Lookup(turns, id);
      Remove(id);
    }

    method Remove(id: Id)
      requires Valid() && id in entries
      modifies this
      ensures Valid() && Value() == WithoutEntries(old(Value()), {id})
    {
      RemovalByKey(Value(), id);
      WithoutKeepsInv(Value(), {id});
      hide Inv, WithoutIds;
      var entry := entries[id];
      entries := entries - {id};
      byNative := byNative - {NativeKeyOf(entry)};
      turns := turns - {id};
      claims := claims - {id};
      owned := DeleteSessionId(owned, id);
      mirrored := DeleteSessionId(mirrored, id);
    }

    method ClearSession(session: Id, runtime: Option<Id>)
      requires Valid()
      modifies this
      ensures Valid() && Value() == ClearedSession(old(Value()), session, runtime)
    {
      ghost var t := Value();
      var own := NarrowedToRuntime(entries, At(owned, session), runtime);
      var routed := NarrowedToRuntime(entries, At(mirrored, session), runtime);
      NarrowedIds(t, session, runtime);
      ClearedSessionKeepsInv(t, session, runtime);
      RemoveAll(own);
      UnmirrorAll(routed, session);
    }

    method RemoveAll(ids: seq<Id>)
      requires Valid() && Distinct(ids) && forall id <- ids :: id in entries
      modifies this
      ensures Valid() && Value() == WithoutEntries(old(Value()), IdSet(ids))
    {
      ghost var t := Value();
      WithoutNothing(t);
      assert IdSet(ids[..0]) == {};
      hide Inv, WithoutEntries;
      var i := 0;
      while i < |ids|
        invariant i <= |ids|
        invariant Valid() && Value() == WithoutEntries(t, IdSet(ids[..i]))
      {
        WithoutTwice(t, IdSet(ids[..i]), {ids[i]});
        assert IdSet(ids[..i]) + {ids[i]} == IdSet(ids[..i + 1]);
        StillThere(t, IdSet(ids[..i]), ids[i]);
        Remove(ids[i]);
        i := i + 1;
      }
      assert ids[..i] == ids;
    }

    method Unmirror(id: Id, session: Id)
      modifies this`mirrored, this`turns
      ensures Value() == Unmirrored(old(Value()), {id}, session)
    {
      if id in turns && turns[id].thread == session {
        turns := turns - {id};
      }
      mirrored := DeleteSessionId(mirrored, id);
    }

    method UnmirrorAll(ids: seq<Id>, session: Id)
      requires Valid()
      modifies this`mirrored, this`turns
      ensures Valid() && Value() == Unmirrored(old(Value()), IdSet(ids), session)
    {
      ghost var t := Value();
      UnmirroredKeepsInv(t, IdSet(ids), session);
      UnmirrorNothing(t, session);
      assert IdSet(ids[..0]) == {};
      hide Inv, Unmirrored, WithoutIds;
      var i := 0;
      while i < |ids|
        invariant i <= |ids|
        invariant Value() == Unmirrored(t, IdSet(ids[..i]), session)
      {
        UnmirroredTwice(t, IdSet(ids[..i]), {ids[i]}, session);
        assert IdSet(ids[..i]) + {ids[i]} == IdSet(ids[..i + 1]);
        Unmirror(ids[i], session);
        i := i + 1;
      }
      assert ids[..i] == ids;
    }

    method ClearRuntime(runtime: Id)
      requires Valid()
      modifies this
      ensures Valid() && Value() == ClearedRuntime(old(Value()), runtime)
    {
      ghost var t := Value();
      WithoutNothing(t);
      var pending := entries.Keys;
      assert OfRuntime(t, t.entries.Keys - pending, runtime) == {};
      hide Inv, WithoutEntries, Resolved;
      while pending != {}
        invariant Valid() && pending <= t.entries.Keys
        invariant Value() == WithoutEntries(t, OfRuntime(t, t.entries.Keys - pending, runtime))
      {
        var id :| id in pending;
        ghost var done := t.entries.Keys - pending;
        WithoutTwice(t, OfRuntime(t, done, runtime), {id});
        assert t.entries.Keys - (pending - {id}) == done + {id};
        assert OfRuntime(t, done + {id}, runtime)
            == if t.entries[id].runtime == runtime then OfRuntime(t, done, runtime) + {id} else OfRuntime(t, done, runtime);
        StillThere(t, OfRuntime(t, done, runtime), id);
        if entries[id].runtime == runtime {
          ResolveOne(Value(), id, runtime);
          var _ := Resolve(id, Some(runtime));
        }
        pending := pending - {id};
      }
      assert t.entries.Keys - pending == t.entries.Keys;
    }
  }

  /** Binds the listed entries of the turn's runtime to the turn. */
  method BindEach(turns: map<Id, Turn>, entries: map<Id, Entry>, ids: seq<Id>, turn: Turn) returns (after: map<Id, Turn>)
    ensures forall id: Id ::
              id in after <==> id in turns || (id in ids && id in entries && entries[id].runtime == turn.runtime)
    ensures forall id <- after ::
              after[id] == if id in ids && id in entries && entries[id].runtime == turn.runtime then turn else turns[id]
  {
    after := turns;
    for i := 0 to |ids|
      invariant forall id: Id ::
          id in after <==> id in turns || (id in ids[..i] && id in entries && entries[id].runtime == turn.runtime)
      invariant forall id <- after ::
          after[id] == if id in ids[..i] && id in entries && entries[id].runtime == turn.runtime then turn else turns[id]
    {
      assert ids[..i + 1] == ids[..i] + [ids[i]];
      if ids[i] in entries && entries[ids[i]].runtime == turn.runtime {
        after := after[ids[i] := turn];
      }
    }
    assert ids[..|ids|] == ids;
  }

  ghost function IdSet(ids: seq<Id>): set<Id> {
    set id | id in ids
  }

  method EntriesForIndex(entries: map<Id, Entry>, index: Index, session: Id, runtime: Option<Id>) returns (found: seq<Entry>)
    ensures found == Select(entries, At(index, session), runtime)
  {
    var ids := At(index, session);
    found := [];
    for i := 0 to |ids|
      invariant found == Select(entries, ids[..i], runtime)
    {
      assert ids[..i + 1][..i] == ids[..i];
      if ids[i] in entries && InRuntime(entries[ids[i]], runtime) {
        found := found + [entries[ids[i]]];
      }
    }
    assert ids[..|ids|] == ids;
  }

  method MatchesInSession(entries: map<Id, Entry>, ids: seq<Id>, id: Id, runtime: Option<Id>) returns (found: seq<Entry>)
    ensures found == Matches(entries, ids, id, runtime)
  {
    found := [];
    for i := 0 to |ids|
      invariant found == Matches(entries, ids[..i], id, runtime)
    {
      assert ids[..i + 1][..i] == ids[..i];
      if ids[i] in entries && entries[ids[i]].id == id && InRuntime(entries[ids[i]], runtime) {
        found := found + [entries[ids[i]]];
      }
    }
    assert ids[..|ids|] == ids;
  }

  function Narrowed(entries: map<Id, Entry>, ids: seq<Id>, runtime: Option<Id>): seq<Id> {
    Dropped(ids, set id | id in ids && !(id in entries && InRuntime(entries[id], runtime)))
  }

  method NarrowedToRuntime(entries: map<Id, Entry>, ids: seq<Id>, runtime: Option<Id>) returns (kept: seq<Id>)
    ensures kept == Narrowed(entries, ids, runtime)
  {
    kept := [];
    var others := set id | id in ids && !(id in entries && InRuntime(entries[id], runtime));
    for i := 0 to |ids|
      invariant kept == Dropped(ids[..i], others)
    {
      assert ids[..i + 1][..i] == ids[..i];
      if ids[i] in entries && InRuntime(entries[ids[i]], runtime) {
        kept := kept + [ids[i]];
      }
    }
    assert ids[..|ids|] == ids;
  }

  method DeleteSessionId(index: Index, id: Id) returns (after: Index)
    ensures after == WithoutIds(index, {id})
  {
    after := index;
    var pending := index.Keys;
    while pending != {}
      invariant pending <= index.Keys && after.Keys <= index.Keys
      invariant forall s <- pending :: s in after && after[s] == index[s]
      invariant forall s <- index.Keys - pending :: s in after <==> Dropped(index[s], {id}) != []
      invariant forall s <- after.Keys - pending :: after[s] == Dropped(index[s], {id})
    {
      var s :| s in pending;
      var left := Dropped(after[s], {id});
      after := if left == [] then after - {s} else after[s := left];
      pending := pending - {s};
    }
  }

  // ---------------------------------------------------------------------------------------------
  // Steps of the loops
  // ---------------------------------------------------------------------------------------------

  lemma ApplyToStep(t: Table, ids: seq<Id>, i: nat, route: SubagentLinks.Route)
    requires i < |ids| && !ApplyTo(t, ids[..i], route).conflict
    ensures ApplyTo(t, ids[..i + 1], route) == ApplyToOne(ApplyTo(t, ids[..i], route), ids[i], route)
  {
    assert ids[..i + 1][..i] == ids[..i];
  }

  lemma {:induction false} ConflictStops(t: Table, ids: seq<Id>, i: nat, route: SubagentLinks.Route)
    requires i <= |ids| && ApplyTo(t, ids[..i], route).conflict
    ensures ApplyTo(t, ids, route) == ApplyTo(t, ids[..i], route)
    decreases |ids|
  {
    if i < |ids| {
      assert ids[..|ids| - 1][..i] == ids[..i];
      ConflictStops(t, ids[..|ids| - 1], i, route);
    } else {
      assert ids[..i] == ids;
    }
  }

  lemma StillThere(t: Table, gone: set<Id>, id: Id)
    requires id in t.entries && id !in gone
    ensures id in WithoutEntries(t, gone).entries && WithoutEntries(t, gone).entries[id] == t.entries[id]
  {
  }

  lemma ResolveOne(t: Table, id: Id, runtime: Id)
    requires id in t.entries && t.entries[id].runtime == runtime
    ensures Resolved(t, id, Some(runtime)) == WithoutEntries(t, {id})
  {
  }

  lemma AddedIsFound(t: Table, input: Registration)
    ensures var after, key := Added(t, input), InputKey(input);
            if IsNew(t, input)
            then t.next in after.entries && NativeEntry(after, key) == Some(after.entries[t.next])
            else after == t && key in t.byNative && t.byNative[key] in t.entries
                 && NativeEntry(t, key) == Some(t.entries[t.byNative[key]])
  {
  }

  lemma RemovalByKey(t: Table, id: Id)
    requires Inv(t) && id in t.entries
    ensures WithoutEntries(t, {id}).byNative == t.byNative - {NativeKeyOf(t.entries[id])}
  {
    hide OwnersAgree, MirrorsAgree;
  }

  lemma WithoutNothing(t: Table)
    requires Inv(t)
    ensures WithoutEntries(t, {}) == t
  {
    forall s | s in t.owned ensures Dropped(t.owned[s], {}) == t.owned[s] {
      NothingDropped(t.owned[s], {});
    }
    forall s | s in t.mirrored ensures Dropped(t.mirrored[s], {}) == t.mirrored[s] {
      NothingDropped(t.mirrored[s], {});
    }
    hide Scan, At, Dropped, Distinct;
    assert WithoutIds(t.owned, {}) == t.owned;
    assert WithoutIds(t.mirrored, {}) == t.mirrored;
    assert WithoutEntries(t, {}).byNative == t.byNative;
  }

  lemma UnmirrorNothing(t: Table, session: Id)
    requires Inv(t)
    ensures Unmirrored(t, {}, session) == t
  {
    forall s | s in t.mirrored ensures Dropped(t.mirrored[s], {}) == t.mirrored[s] {
      NothingDropped(t.mirrored[s], {});
    }
    hide OwnersAgree, NativeKeysAgree;
    assert WithoutIds(t.mirrored, {}) == t.mirrored;
    assert Unmirrored(t, {}, session).turns == t.turns;
  }

  lemma UnmirroredTwice(t: Table, a: set<Id>, b: set<Id>, session: Id)
    ensures Unmirrored(Unmirrored(t, a, session), b, session) == Unmirrored(t, a + b, session)
  {
    IndexTwice(t.mirrored, a, b);
    hide WithoutIds;
    assert Unmirrored(Unmirrored(t, a, session), b, session).turns == Unmirrored(t, a + b, session).turns;
  }

  lemma NarrowedIds(t: Table, session: Id, runtime: Option<Id>)
    requires Inv(t)
    ensures var own := Narrowed(t.entries, At(t.owned, session), runtime);
            && Distinct(own)
            && (forall id <- own :: id in t.entries)
            && IdSet(own) == OwnedBy(t, session, runtime)
    ensures IdSet(Narrowed(t.entries, At(t.mirrored, session), runtime)) == MirroredAt(t, session, runtime)
  {
    var own, routed := At(t.owned, session), At(t.mirrored, session);
    assert own == Scan(t.entries, t.next, session, None);
    ScanIsAscending(t.entries, t.next, session, None);
    DroppedKeepsDistinct(own, set id | id in own && !(id in t.entries && InRuntime(t.entries[id], runtime)));
    DroppedContains(own, set id | id in own && !(id in t.entries && InRuntime(t.entries[id], runtime)));
    DroppedContains(routed, set id | id in routed && !(id in t.entries && InRuntime(t.entries[id], runtime)));
    hide Scan, Dropped, At;
  }
}
