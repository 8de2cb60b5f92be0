/** What the pending-input indexes keep, and that they answer like a plain scan of all entries. */
module PendingInputProofs {
  import opened Prelude
  import opened RequestKeys
  import SubagentLinks
  import opened PendingInput

  // ---------------------------------------------------------------------------------------------
  // Scans and drops
  // ---------------------------------------------------------------------------------------------

  /** A scan lists exactly the owned entries, in registration order. */
  lemma {:induction false} ScanIsAscending(entries: map<Id, Entry>, upTo: nat, session: Id, runtime: Option<Id>)
    ensures forall i, j | 0 <= i < j < |Scan(entries, upTo, session, runtime)| ::
              Scan(entries, upTo, session, runtime)[i] < Scan(entries, upTo, session, runtime)[j]
    ensures forall id: Id :: id in Scan(entries, upTo, session, runtime) <==> id < upTo && Owns(entries, id, session, runtime)
  {
    if upTo == 0 {
    } else {
      ScanIsAscending(entries, upTo - 1, session, runtime);
      var before := Scan(entries, upTo - 1, session, runtime);
      assert forall i | 0 <= i < |before| :: before[i] in before;
      hide Owns;
    }
  }

  lemma {:induction false} ScanLooksOnlyAtOwners(a: map<Id, Entry>, b: map<Id, Entry>, upTo: nat, session: Id, runtime: Option<Id>)
    requires forall id: Id | id < upTo :: Owns(a, id, session, runtime) <==> Owns(b, id, session, runtime)
    ensures Scan(a, upTo, session, runtime) == Scan(b, upTo, session, runtime)
  {
    if upTo == 0 {
    } else {
      ScanLooksOnlyAtOwners(a, b, upTo - 1, session, runtime);
      hide Owns;
    }
  }

  lemma {:induction false} DroppedContains(ids: seq<Id>, gone: set<Id>)
    ensures forall id: Id :: id in Dropped(ids, gone) <==> id in ids && id !in gone
  {
    if ids == [] {
    } else {
      DroppedContains(ids[..|ids| - 1], gone);
    }
  }

  lemma DroppedAppend(ids: seq<Id>, id: Id, gone: set<Id>)
    ensures Dropped(ids + [id], gone) == if id in gone then Dropped(ids, gone) else Dropped(ids, gone) + [id]
  {
    assert (ids + [id])[..|ids|] == ids;
  }

  lemma {:induction false} DroppedFromScan(entries: map<Id, Entry>, gone: set<Id>, upTo: nat, session: Id)
    ensures Dropped(Scan(entries, upTo, session, None), gone) == Scan(entries - gone, upTo, session, None)
  {
    if upTo == 0 {
    } else {
      DroppedFromScan(entries, gone, upTo - 1, session);
      var id := upTo - 1;
      assert Owns(entries - gone, id, session, None) <==> Owns(entries, id, session, None) && id !in gone;
      hide Owns;
      DroppedAppend(Scan(entries, upTo - 1, session, None), id, gone);
    }
  }

  lemma {:induction false} DroppedKeepsDistinct(ids: seq<Id>, gone: set<Id>)
    requires Distinct(ids)
    ensures Distinct(Dropped(ids, gone))
  {
    if ids == [] {
    } else {
      var front := ids[..|ids| - 1];
      DroppedKeepsDistinct(front, gone);
      DroppedContains(front, gone);
      forall i | 0 <= i < |Dropped(front, gone)|
        ensures Dropped(front, gone)[i] in front && Dropped(front, gone)[i] != ids[|ids| - 1]
      {
        assert Dropped(front, gone)[i] in Dropped(front, gone);
      }
    }
  }

  lemma {:induction false} NothingDropped(ids: seq<Id>, gone: set<Id>)
    requires forall id <- ids :: id !in gone
    ensures Dropped(ids, gone) == ids
  {
    if ids == [] {
    } else {
      assert ids[|ids| - 1] in ids;
      NothingDropped(ids[..|ids| - 1], gone);
      assert ids[..|ids| - 1] + [ids[|ids| - 1]] == ids;
    }
  }

  lemma {:induction false} DroppedTwice(ids: seq<Id>, a: set<Id>, b: set<Id>)
    ensures Dropped(Dropped(ids, a), b) == Dropped(ids, a + b)
  {
    if ids == [] {
    } else {
      var front := ids[..|ids| - 1];
      DroppedTwice(front, a, b);
      assert (Dropped(front, a) + [ids[|ids| - 1]])[..|Dropped(front, a)|] == Dropped(front, a);
    }
  }

  /** Removing occurrences one after the other removes them all. */
  lemma WithoutTwice(t: Table, a: set<Id>, b: set<Id>)
    ensures WithoutEntries(WithoutEntries(t, a), b) == WithoutEntries(t, a + b)
  {
    forall s | s in t.owned ensures Dropped(Dropped(t.owned[s], a), b) == Dropped(t.owned[s], a + b) {
      DroppedTwice(t.owned[s], a, b);
    }
    forall s | s in t.mirrored ensures Dropped(Dropped(t.mirrored[s], a), b) == Dropped(t.mirrored[s], a + b) {
      DroppedTwice(t.mirrored[s], a, b);
    }
    IndexTwice(t.owned, a, b);
    IndexTwice(t.mirrored, a, b);
    var twice := WithoutEntries(WithoutEntries(t, a), b);
    var once := WithoutEntries(t, a + b);
    assert twice.entries == once.entries;
    assert twice.byNative == once.byNative;
    assert twice.turns == once.turns;
    assert twice.claims == once.claims;
  }

  lemma IndexTwice(index: Index, a: set<Id>, b: set<Id>)
    ensures WithoutIds(WithoutIds(index, a), b) == WithoutIds(index, a + b)
  {
    forall s | s in index
      ensures Dropped(Dropped(index[s], a), b) == Dropped(index[s], a + b)
      ensures Dropped(index[s], a) == [] ==> Dropped(index[s], a + b) == []
    {
      DroppedTwice(index[s], a, b);
    }
  }

  // ---------------------------------------------------------------------------------------------
  // Every update keeps the invariant
  // ---------------------------------------------------------------------------------------------

  lemma AddedFacts(t: Table, input: Registration)
    requires Inv(t) && IsNew(t, input)
    ensures InputKey(input) !in t.byNative
    ensures t.next !in t.entries
    ensures forall s: Id :: t.next !in At(t.owned, s) && t.next !in At(t.mirrored, s)
  {
    forall s: Id ensures t.next !in At(t.owned, s) && t.next !in At(t.mirrored, s) {
      assert At(t.owned, s) == Scan(t.entries, t.next, s, None);
      ScanIsAscending(t.entries, t.next, s, None);
    }
  }

  lemma AddedKeepsOwners(t: Table, input: Registration)
    requires Inv(t) && IsNew(t, input)
    ensures OwnersAgree(Added(t, input))
  {
    AddedFacts(t, input);
    var after := Added(t, input);
    forall s: Id ensures At(after.owned, s) == Scan(after.entries, after.next, s, None) {
      ScanLooksOnlyAtOwners(t.entries, after.entries, t.next, s, None);
      assert At(t.owned, s) == Scan(t.entries, t.next, s, None);
    }
  }

  lemma AddedKeepsInv(t: Table, input: Registration)
    requires Inv(t)
    ensures Inv(Added(t, input))
  {
    if IsNew(t, input) {
      AddedKeepsOwners(t, input);
      AddedKeepsMirrors(t, input);
      AddedFacts(t, input);
      hide OwnersAgree, MirrorsAgree, WithId, RequestKey;
      assert NativeKeysAgree(Added(t, input));
    }
  }

  lemma AddedKeepsMirrors(t: Table, input: Registration)
    requires Inv(t) && IsNew(t, input)
    ensures MirrorsAgree(Added(t, input))
  {
    AddedFacts(t, input);
    hide OwnersAgree, NativeKeysAgree, IsNew, InputKey;
  }

  lemma WithoutKeepsOwners(t: Table, gone: set<Id>)
    requires Inv(t)
    ensures OwnersAgree(WithoutEntries(t, gone))
  {
    var after := WithoutEntries(t, gone);
    forall s: Id ensures At(after.owned, s) == Scan(after.entries, after.next, s, None) {
      assert At(t.owned, s) == Scan(t.entries, t.next, s, None);
      DroppedFromScan(t.entries, gone, t.next, s);
      assert Dropped([], gone) == [];
      assert At(after.owned, s) == Dropped(At(t.owned, s), gone);
    }
  }

  lemma WithoutIdsOf(index: Index, gone: set<Id>, s: Id)
    ensures At(WithoutIds(index, gone), s) == Dropped(At(index, s), gone)
  {
    assert Dropped([], gone) == [];
  }

  lemma WithoutIdsKeepsMirrors(t: Table, index: Index, gone: set<Id>)
    requires MirrorsAgree(t) && index == WithoutIds(t.mirrored, gone)
    ensures MirrorsAgree(t.(mirrored := index, entries := t.entries - gone))
    ensures MirrorsAgree(t.(mirrored := index))
  {
    forall s | s in index
      ensures Distinct(index[s]) && forall id: Id :: id in index[s] <==> id in t.mirrored[s] && id !in gone
    {
      DroppedKeepsDistinct(t.mirrored[s], gone);
      DroppedContains(t.mirrored[s], gone);
    }
    hide WithoutIds, Dropped;
  }

  lemma WithoutKeepsInv(t: Table, gone: set<Id>)
    requires Inv(t)
    ensures Inv(WithoutEntries(t, gone))
  {
    WithoutKeepsOwners(t, gone);
    WithoutIdsKeepsMirrors(t, WithoutIds(t.mirrored, gone), gone);
    hide OwnersAgree, WithoutIds;
    var after := WithoutEntries(t, gone);
    assert NativeKeysAgree(after);
    assert MirrorsAgree(after);
  }

  lemma ResolvedKeepsInv(t: Table, id: Id, runtime: Option<Id>)
    requires Inv(t)
    ensures Inv(Resolved(t, id, runtime))
  {
    WithoutKeepsInv(t, {id});
  }

  lemma ClearedSessionKeepsInv(t: Table, session: Id, runtime: Option<Id>)
    requires Inv(t)
    ensures Inv(ClearedSession(t, session, runtime))
  {
    var w := WithoutEntries(t, OwnedBy(t, session, runtime));
    WithoutKeepsInv(t, OwnedBy(t, session, runtime));
    var ids := MirroredAt(t, session, runtime);
    WithoutIdsKeepsMirrors(w, WithoutIds(w.mirrored, ids), ids);
    hide WithoutIds;
    assert ClearedSession(t, session, runtime) == Unmirrored(w, ids, session);
    UnmirroredKeepsInv(w, ids, session);
  }

  lemma UnmirroredKeepsInv(t: Table, ids: set<Id>, session: Id)
    requires Inv(t)
    ensures Inv(Unmirrored(t, ids, session))
  {
    WithoutIdsKeepsMirrors(t, WithoutIds(t.mirrored, ids), ids);
    hide WithoutIds;
    assert MirrorsAgree(Unmirrored(t, ids, session));
    assert OwnersAgree(Unmirrored(t, ids, session));
  }

  lemma RoutedOneKeepsOwners(t: Table, id: Id, route: SubagentLinks.Route)
    requires Inv(t) && id in t.entries
    ensures OwnersAgree(RoutedOne(t, id, route))
  {
    var after := RoutedOne(t, id, route);
    assert after.owned == t.owned;
    forall s: Id ensures At(after.owned, s) == Scan(after.entries, after.next, s, None) {
      assert At(t.owned, s) == Scan(t.entries, t.next, s, None);
      assert forall k: Id :: Owns(t.entries, k, s, None) <==> Owns(after.entries, k, s, None);
      ScanLooksOnlyAtOwners(t.entries, after.entries, t.next, s, None);
    }
  }

  lemma RoutedOneKeepsMirrors(t: Table, id: Id, route: SubagentLinks.Route)
    requires Inv(t) && id in t.entries
    ensures MirrorsAgree(RoutedOne(t, id, route))
  {
    hide OwnersAgree, NativeKeysAgree;
    assert t.entries[id].id == id;
  }

  lemma RoutedOneKeepsInv(t: Table, id: Id, route: SubagentLinks.Route)
    requires Inv(t) && id in t.entries
    ensures Inv(RoutedOne(t, id, route))
    ensures RoutedOne(t, id, route).entries.Keys == t.entries.Keys
  {
    RoutedOneKeepsNumbers(t, id, route);
    hide OwnersAgree, MirrorsAgree, NativeKeysAgree, EntriesAreNumbered, OnlyLiveEntries, RoutedOne;
    RoutedOneKeepsOwners(t, id, route);
    RoutedOneKeepsMirrors(t, id, route);
    RoutedOneKeepsNatives(t, id, route);
  }

  lemma RoutedOneKeepsNumbers(t: Table, id: Id, route: SubagentLinks.Route)
    requires EntriesAreNumbered(t) && OnlyLiveEntries(t) && id in t.entries
    ensures EntriesAreNumbered(RoutedOne(t, id, route)) && OnlyLiveEntries(RoutedOne(t, id, route))
    ensures RoutedOne(t, id, route).entries.Keys == t.entries.Keys
  {
    hide WithId, At;
    assert RoutedOne(t, id, route).entries.Keys == t.entries.Keys;
  }

  lemma RoutedOneKeepsNatives(t: Table, id: Id, route: SubagentLinks.Route)
    requires Inv(t) && id in t.entries
    ensures NativeKeysAgree(RoutedOne(t, id, route))
  {
    hide OwnersAgree, MirrorsAgree, WithId, RequestKey, At;
  }

  lemma {:induction false} ApplyToKeepsInv(t: Table, ids: seq<Id>, route: SubagentLinks.Route)
    requires Inv(t)
    ensures Inv(ApplyTo(t, ids, route).table)
    decreases |ids|
  {
    if ids == [] {
    } else {
      ApplyToKeepsInv(t, ids[..|ids| - 1], route);
      var before := ApplyTo(t, ids[..|ids| - 1], route);
      if ids[|ids| - 1] in before.table.entries {
        RoutedOneKeepsInv(before.table, ids[|ids| - 1], route);
      }
      hide Inv, RoutedOne;
    }
  }

  lemma BoundKeepsInv(t: Table, session: Id, turn: Turn)
    requires Inv(t)
    ensures Inv(Bound(t, session, turn))
  {
  }

  lemma ClaimedKeepsInv(t: Table, id: Id, session: Id, runtime: Option<Id>)
    requires Inv(t)
    ensures Inv(Claimed(t, id, session, runtime))
  {
    SessionLookupIsDirect(t, id, session, runtime);
    assert OwnersAgree(Claimed(t, id, session, runtime));
  }

  lemma StepKeepsInv(t: Table, op: Operation)
    requires Inv(t)
    ensures Inv(Step(t, op))
  {
    match op
    case Add(input) => AddedKeepsInv(t, input);
    case Resolve(id, runtime) => ResolvedKeepsInv(t, id, runtime);
    case ApplyRoute(route) => ApplyToKeepsInv(t, At(t.owned, route.child), route);
    case BindTurn(session, turn) => BoundKeepsInv(t, session, turn);
    case Claim(id, session, runtime) => ClaimedKeepsInv(t, id, session, runtime);
    case Release(id, runtime) => assert OwnersAgree(Released(t, id, runtime));
    case ClearSession(session, runtime) => ClearedSessionKeepsInv(t, session, runtime);
    case ClearRuntime(runtime) => WithoutKeepsInv(t, OfRuntime(t, t.entries.Keys, runtime));
  }

  /** After any sequence of operations all indexes agree. */
  lemma {:induction false} RunKeepsInv(t: Table, ops: seq<Operation>)
    requires Inv(t)
    ensures Inv(Run(t, ops))
    decreases |ops|
  {
    if ops == [] {
    } else {
      StepKeepsInv(t, ops[0]);
      hide Inv, Step;
      RunKeepsInv(Step(t, ops[0]), ops[1..]);
    }
  }

  // ---------------------------------------------------------------------------------------------
  // Indexed queries answer like the scan
  // ---------------------------------------------------------------------------------------------

  lemma {:induction false} SelectOfScan(entries: map<Id, Entry>, upTo: nat, session: Id, runtime: Option<Id>)
    ensures Select(entries, Scan(entries, upTo, session, None), runtime)
         == Select(entries, Scan(entries, upTo, session, runtime), None)
  {
    if upTo == 0 {
    } else {
      SelectOfScan(entries, upTo - 1, session, runtime);
      var all, narrowed := Scan(entries, upTo - 1, session, None), Scan(entries, upTo - 1, session, runtime);
      assert (all + [upTo - 1])[..|all|] == all;
      assert (narrowed + [upTo - 1])[..|narrowed|] == narrowed;
    }
  }

  /** Listing through the owner index is filtering all entries in registration order. */
  lemma ListingIsAScan(t: Table, session: Id, runtime: Option<Id>)
    requires Inv(t)
    ensures PendingForSession(t, session, runtime) == ScannedForSession(t, session, runtime)
  {
    assert At(t.owned, session) == Scan(t.entries, t.next, session, None);
    SelectOfScan(t.entries, t.next, session, runtime);
  }

  lemma {:induction false} MatchesAreTheEntry(t: Table, ids: seq<Id>, id: Id, runtime: Option<Id>)
    requires EntriesAreNumbered(t) && Distinct(ids)
    ensures Matches(t.entries, ids, id, runtime)
         == if id in ids && Direct(t, id, runtime).Some? then [Direct(t, id, runtime).value] else []
  {
    if ids == [] {
    } else {
      MatchesAreTheEntry(t, ids[..|ids| - 1], id, runtime);
    }
  }

  lemma IdsOfSessionAreDistinct(t: Table, session: Id)
    requires Inv(t)
    ensures Distinct(IdsOfSession(t, session))
  {
    var own := At(t.owned, session);
    assert own == Scan(t.entries, t.next, session, None);
    var others := Dropped(At(t.mirrored, session), set id | id in own);
    ScanIsAscending(t.entries, t.next, session, None);
    DroppedKeepsDistinct(At(t.mirrored, session), set id | id in own);
    DroppedContains(At(t.mirrored, session), set id | id in own);
    forall i | 0 <= i < |others| ensures others[i] !in own {
      assert others[i] in others;
    }
  }

  /** The lookup by session never meets two matches, and finds what the direct lookup finds. */
  lemma SessionLookupIsDirect(t: Table, id: Id, session: Id, runtime: Option<Id>)
    requires Inv(t)
    ensures RequireForSession(t, id, session, runtime)
         == if Direct(t, id, runtime).Some? then ForSession(Direct(t, id, runtime).value, session) else Unknown
  {
    IdsOfSessionAreDistinct(t, session);
    MatchesAreTheEntry(t, IdsOfSession(t, session), id, runtime);
  }

  /**
   * At one thread of one runtime, native ids and pending occurrences are in bijection: the native
   * id of a pending occurrence finds just that occurrence, provided that no negative number and
   * its rendering are both in use.
   */
  lemma NativeIdNamesOneOccurrence(t: Table, id: Id, native: RequestId)
    requires Inv(t) && id in t.entries
    requires !ReadsAsNegative(native, t.entries[id].native) && !ReadsAsNegative(t.entries[id].native, native)
    ensures NativeEntry(t, (t.entries[id].runtime, t.entries[id].thread, RequestKey(native))) == Some(t.entries[id])
       <==> native == t.entries[id].native
  {
    KeysCollideIff(native, t.entries[id].native);
    var key := (t.entries[id].runtime, t.entries[id].thread, RequestKey(native));
    if NativeEntry(t, key) == Some(t.entries[id]) {
      assert NativeKeyOf(t.entries[t.byNative[key]]) == key;
    }
  }

  // ---------------------------------------------------------------------------------------------
  // What the removals leave
  // ---------------------------------------------------------------------------------------------

  lemma DropUndoesWithId(index: Index, session: Id, id: Id)
    requires forall s <- index :: index[s] != [] && id !in index[s]
    ensures WithoutIds(WithId(index, session, id), {id}) == index
  {
    var grown := WithId(index, session, id);
    forall s | s in index ensures Dropped(index[s], {id}) == index[s] {
      NothingDropped(index[s], {id});
    }
    assert (At(index, session) + [id])[..|At(index, session)|] == At(index, session);
    NothingDropped(At(index, session), {id});
  }

  /** Resolving what was just added restores everything but the next occurrence id. */
  lemma ResolveUndoesAdd(t: Table, input: Registration)
    requires Inv(t) && IsNew(t, input)
    ensures Resolved(Added(t, input), t.next, Some(input.runtime)) == t.(next := t.next + 1)
  {
    AddedFacts(t, input);
    UndoIndexes(t, input);
    UndoNative(t, input);
    hide Inv, WithoutIds, WithId;
    var undone := WithoutEntries(Added(t, input), {t.next});
    assert undone.entries == t.entries;
    assert undone.turns == t.turns;
    assert undone.claims == t.claims;
  }

  lemma UndoNative(t: Table, input: Registration)
    requires Inv(t) && IsNew(t, input)
    ensures WithoutEntries(Added(t, input), {t.next}).byNative == t.byNative
    ensures t.turns - {t.next} == t.turns && t.claims - {t.next} == t.claims
  {
    AddedFacts(t, input);
    hide OwnersAgree, MirrorsAgree, WithoutIds, WithId;
  }

  lemma UndoIndexes(t: Table, input: Registration)
    requires Inv(t) && IsNew(t, input)
    ensures WithoutIds(Added(t, input).owned, {t.next}) == t.owned
    ensures WithoutIds(Added(t, input).mirrored, {t.next}) == t.mirrored
  {
    AddedFacts(t, input);
    forall s | s in t.owned ensures t.owned[s] != [] && t.next !in t.owned[s] {
      assert t.owned[s] == At(t.owned, s);
    }
    forall s | s in t.mirrored ensures t.mirrored[s] != [] && t.next !in t.mirrored[s] {
      assert t.mirrored[s] == At(t.mirrored, s);
    }
    hide OwnersAgree, MirrorsAgree, NativeKeysAgree;
    DropUndoesWithId(t.owned, input.thread, t.next);
    NoIdsDropped(t.mirrored, t.next);
    if input.route.Some? {
      DropUndoesWithId(t.mirrored, input.route.value.parent, t.next);
    }
  }

  lemma NoIdsDropped(index: Index, id: Id)
    requires forall s <- index :: index[s] != [] && id !in index[s]
    ensures WithoutIds(index, {id}) == index
  {
    forall s | s in index ensures Dropped(index[s], {id}) == index[s] {
      NothingDropped(index[s], {id});
    }
  }

  lemma {:induction false} SelectLooksOnlyAtListed(a: map<Id, Entry>, b: map<Id, Entry>, ids: seq<Id>, runtime: Option<Id>)
    requires forall id <- ids :: id in a && id in b && a[id] == b[id]
    ensures Select(a, ids, runtime) == Select(b, ids, runtime)
  {
    if ids == [] {
    } else {
      assert ids[|ids| - 1] in ids;
      SelectLooksOnlyAtListed(a, b, ids[..|ids| - 1], runtime);
    }
  }

  /** Removing entries does not change a listing that names none of them. */
  lemma ListingIgnoresOthers(t: Table, after: Table, session: Id, runtime: Option<Id>)
    requires Inv(t) && Inv(after) && after.next == t.next
    requires forall id: Id :: Owns(t.entries, id, session, runtime) <==> Owns(after.entries, id, session, runtime)
    requires forall id <- after.entries :: id in t.entries && t.entries[id] == after.entries[id]
    ensures PendingForSession(after, session, runtime) == PendingForSession(t, session, runtime)
  {
    ListingIsAScan(t, session, runtime);
    ListingIsAScan(after, session, runtime);
    ScanLooksOnlyAtOwners(t.entries, after.entries, t.next, session, runtime);
    ScanIsAscending(t.entries, t.next, session, runtime);
    SelectLooksOnlyAtListed(t.entries, after.entries, Scan(t.entries, t.next, session, runtime), None);
  }

  lemma {:induction false} SelectNothing(entries: map<Id, Entry>, ids: seq<Id>, runtime: Option<Id>)
    requires forall id <- ids :: !(id in entries && InRuntime(entries[id], runtime))
    ensures Select(entries, ids, runtime) == []
  {
    if ids == [] {
    } else {
      assert ids[|ids| - 1] in ids;
      SelectNothing(entries, ids[..|ids| - 1], runtime);
    }
  }

  predicate Shows(entries: map<Id, Entry>, id: Id, runtime: Option<Id>) {
    id in entries && InRuntime(entries[id], runtime)
  }

  /** Dropping ids that a listing does not show, and looking at the same entries, gives the same listing. */
  lemma {:induction false} SelectOfDropped(
    a: map<Id, Entry>, b: map<Id, Entry>, ids: seq<Id>, gone: set<Id>, runtime: Option<Id>)
    requires forall id <- ids | id in gone :: !Shows(b, id, runtime)
    requires forall id <- ids | id !in gone ::
               (Shows(a, id, runtime) <==> Shows(b, id, runtime)) && (Shows(a, id, runtime) ==> a[id] == b[id])
    ensures Select(a, Dropped(ids, gone), runtime) == Select(b, ids, runtime)
  {
    if ids == [] {
    } else {
      var front, last := ids[..|ids| - 1], ids[|ids| - 1];
      assert last in ids;
      SelectOfDropped(a, b, front, gone, runtime);
      if last !in gone {
        assert (Dropped(front, gone) + [last])[..|Dropped(front, gone)|] == Dropped(front, gone);
      }
    }
  }

  /** What a session mirrors, as the event listing shows it after the requests it owns. */
  function MirroredForSession(t: Table, session: Id, runtime: Option<Id>): seq<Entry> {
    Select(t.entries, At(t.mirrored, session), runtime)
  }

  lemma OneMirrorEach(t: Table, session: Id, other: Id, id: Id)
    requires Inv(t) && id in At(t.mirrored, session) && id in At(t.mirrored, other)
    ensures session == other
  {
    hide OwnersAgree, NativeKeysAgree;
  }

  lemma OthersMirrorTheRest(t: Table, session: Id, runtime: Option<Id>, other: Id, r: Option<Id>)
    requires Inv(t) && other != session
    ensures MirroredForSession(ClearedSession(t, session, runtime), other, r)
         == Select(t.entries - OwnedBy(t, session, runtime), At(t.mirrored, other), r)
  {
    var gone, ids := OwnedBy(t, session, runtime), MirroredAt(t, session, runtime);
    var w, mirrored := WithoutEntries(t, gone), At(t.mirrored, other);
    WithoutIdsOf(t.mirrored, gone, other);
    WithoutIdsOf(w.mirrored, ids, other);
    DroppedContains(mirrored, gone);
    forall id <- Dropped(mirrored, gone) ensures id !in ids {
      if id in ids {
        OneMirrorEach(t, session, other, id);
      }
    }
    hide Inv, WithoutIds, Dropped, Select;
    SelectOfDropped(w.entries, w.entries, Dropped(mirrored, gone), ids, r);
    SelectOfDropped(w.entries, w.entries, mirrored, gone, r);
  }

  /** A session cleared in one runtime lists in the other runtimes what it did. */
  lemma OtherRuntimesListAsBefore(t: Table, session: Id, cleared: Id, r: Id)
    requires Inv(t) && r != cleared
    ensures EventsForSession(ClearedSession(t, session, Some(cleared)), session, Some(r))
         == EventsForSession(t, session, Some(r))
  {
    var gone, ids := OwnedBy(t, session, Some(cleared)), MirroredAt(t, session, Some(cleared));
    var w, after, mirrored := WithoutEntries(t, gone), ClearedSession(t, session, Some(cleared)), At(t.mirrored, session);
    ClearedSessionKeepsInv(t, session, Some(cleared));
    ListingIgnoresOthers(t, after, session, Some(r));
    WithoutIdsOf(t.mirrored, gone, session);
    WithoutIdsOf(w.mirrored, ids, session);
    DroppedContains(mirrored, gone);
    hide Inv, WithoutIds, Dropped, Select;
    SelectOfDropped(w.entries, w.entries, Dropped(mirrored, gone), ids, Some(r));
    SelectOfDropped(w.entries, t.entries, mirrored, gone, Some(r));
  }

  /**
   * Clearing a session removes the occurrences it owns in the runtime and hides the ones it mirrors
   * there, and nothing else: other sessions list what they own as before, and mirror what they did
   * but for the removed; the session lists as before in other runtimes; and native ids find what they
   * did but for the removed.
   */
  lemma ClearedSessionIsExact(t: Table, session: Id, runtime: Option<Id>)
    requires Inv(t)
    ensures var after := ClearedSession(t, session, runtime);
            && EventsForSession(after, session, runtime) == []
            && (forall other: Id, r: Option<Id> | other != session ::
                  PendingForSession(after, other, r) == PendingForSession(t, other, r))
            && (forall other: Id, r: Option<Id> | other != session ::
                  MirroredForSession(after, other, r)
                  == Select(t.entries - OwnedBy(t, session, runtime), At(t.mirrored, other), r))
            && (forall r: Id | runtime.Some? && r != runtime.value ::
                  EventsForSession(after, session, Some(r)) == EventsForSession(t, session, Some(r)))
            && (forall k: NativeKey :: NativeEntry(after, k)
                  == if NativeEntry(t, k).Some? && Owns(t.entries, NativeEntry(t, k).value.id, session, runtime)
                     then None else NativeEntry(t, k))
  {
    var after := ClearedSession(t, session, runtime);
    ClearedSessionListsNothing(t, session, runtime);
    ClearedSessionKeepsOwned(t, session, runtime);
    ClearedSessionKeepsNatives(t, session, runtime);
    hide Inv, ClearedSession, PendingForSession, MirroredForSession, EventsForSession;
    forall other: Id, r: Option<Id> | other != session
      ensures MirroredForSession(after, other, r)
           == Select(t.entries - OwnedBy(t, session, runtime), At(t.mirrored, other), r)
    {
      OthersMirrorTheRest(t, session, runtime, other, r);
    }
    forall r: Id | runtime.Some? && r != runtime.value
      ensures EventsForSession(after, session, Some(r)) == EventsForSession(t, session, Some(r))
    {
      OtherRuntimesListAsBefore(t, session, runtime.value, r);
    }
  }

  lemma ClearedSessionKeepsOwned(t: Table, session: Id, runtime: Option<Id>)
    requires Inv(t)
    ensures forall other: Id, r: Option<Id> | other != session ::
              PendingForSession(ClearedSession(t, session, runtime), other, r) == PendingForSession(t, other, r)
  {
    var after := ClearedSession(t, session, runtime);
    ClearedSessionKeepsInv(t, session, runtime);
    hide Inv;
    forall other: Id, r: Option<Id> | other != session
      ensures PendingForSession(after, other, r) == PendingForSession(t, other, r)
    {
      ListingIgnoresOthers(t, after, other, r);
    }
  }

  lemma ClearedSessionKeepsNatives(t: Table, session: Id, runtime: Option<Id>)
    requires Inv(t)
    ensures forall k: NativeKey :: NativeEntry(ClearedSession(t, session, runtime), k)
              == if NativeEntry(t, k).Some? && Owns(t.entries, NativeEntry(t, k).value.id, session, runtime)
                 then None else NativeEntry(t, k)
  {
    hide OwnersAgree, MirrorsAgree;
  }

  lemma ClearedSessionListsNothing(t: Table, session: Id, runtime: Option<Id>)
    requires Inv(t)
    ensures EventsForSession(ClearedSession(t, session, runtime), session, runtime) == []
  {
    var after := ClearedSession(t, session, runtime);
    ClearedSessionKeepsInv(t, session, runtime);
    ListingIsAScan(after, session, runtime);
    ScanIsAscending(after.entries, after.next, session, runtime);
    hide Inv;
    SelectNothing(after.entries, Scan(after.entries, after.next, session, runtime), None);
    ClearedSessionMirrorsNothing(t, session, runtime);
    SelectNothing(after.entries, At(after.mirrored, session), runtime);
  }

  lemma ClearedSessionMirrorsNothing(t: Table, session: Id, runtime: Option<Id>)
    ensures var after := ClearedSession(t, session, runtime);
            forall id <- At(after.mirrored, session) :: !(id in after.entries && InRuntime(after.entries[id], runtime))
  {
    var gone := OwnedBy(t, session, runtime);
    var w := WithoutEntries(t, gone);
    var ids := MirroredAt(t, session, runtime);
    WithoutIdsOf(t.mirrored, gone, session);
    DroppedContains(At(t.mirrored, session), gone);
    WithoutIdsOf(w.mirrored, ids, session);
    DroppedContains(At(w.mirrored, session), ids);
    hide WithoutIds, At, Dropped;
  }

  /** Clearing a runtime removes exactly the occurrences of the runtime, from what is owned and mirrored. */
  lemma ClearedRuntimeIsExact(t: Table, runtime: Id)
    requires Inv(t)
    ensures var after := ClearedRuntime(t, runtime);
            && (forall s: Id, r: Id :: PendingForSession(after, s, Some(r))
                  == if r == runtime then [] else PendingForSession(t, s, Some(r)))
            && (forall s: Id, r: Id :: MirroredForSession(after, s, Some(r))
                  == if r == runtime then [] else MirroredForSession(t, s, Some(r)))
            && (forall k: NativeKey :: NativeEntry(after, k) == if k.0 == runtime then None else NativeEntry(t, k))
  {
    var after := ClearedRuntime(t, runtime);
    ClearedRuntimeKeepsNatives(t, runtime);
    ClearedRuntimeKeepsOwned(t, runtime);
    hide Inv, ClearedRuntime, PendingForSession, MirroredForSession;
    forall s: Id, r: Id
      ensures MirroredForSession(after, s, Some(r)) == if r == runtime then [] else MirroredForSession(t, s, Some(r))
    {
      ClearedRuntimeMirrors(t, runtime, s, r);
    }
  }

  lemma ClearedRuntimeKeepsNatives(t: Table, runtime: Id)
    requires Inv(t)
    ensures forall k: NativeKey ::
              NativeEntry(ClearedRuntime(t, runtime), k) == if k.0 == runtime then None else NativeEntry(t, k)
  {
    hide OwnersAgree, MirrorsAgree;
  }

  lemma ClearedRuntimeKeepsOwned(t: Table, runtime: Id)
    requires Inv(t)
    ensures forall s: Id, r: Id :: PendingForSession(ClearedRuntime(t, runtime), s, Some(r))
              == if r == runtime then [] else PendingForSession(t, s, Some(r))
  {
    var after := ClearedRuntime(t, runtime);
    WithoutKeepsInv(t, OfRuntime(t, t.entries.Keys, runtime));
    hide Inv;
    forall s: Id, r: Id
      ensures PendingForSession(after, s, Some(r)) == if r == runtime then [] else PendingForSession(t, s, Some(r))
    {
      if r == runtime {
        SelectNothing(after.entries, At(after.owned, s), Some(r));
      } else {
        ListingIgnoresOthers(t, after, s, Some(r));
      }
    }
  }

  lemma ClearedRuntimeMirrors(t: Table, runtime: Id, s: Id, r: Id)
    ensures MirroredForSession(ClearedRuntime(t, runtime), s, Some(r))
         == if r == runtime then [] else MirroredForSession(t, s, Some(r))
  {
    var gone, after := OfRuntime(t, t.entries.Keys, runtime), ClearedRuntime(t, runtime);
    WithoutIdsOf(t.mirrored, gone, s);
    hide WithoutIds, Dropped, Select;
    if r == runtime {
      SelectNothing(after.entries, At(after.mirrored, s), Some(r));
    } else {
      SelectOfDropped(after.entries, t.entries, At(t.mirrored, s), gone, Some(r));
    }
  }
}
