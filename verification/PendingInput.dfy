/**
 * The pending input of a runtime: the approvals, or the questions, that wait for an answer. The
 * source keeps one set of indexes for approvals and an equal one for questions; `Table` is the
 * value of either.
 *
 * Occurrence ids are random in the source; here they count up, so that registration order, which
 * is the insertion order of the source's maps, is the order of the ids.
 */
module PendingInput {
  import opened Prelude
  import opened RequestKeys
  import opened SubagentLinks

  datatype Entry = Entry(id: Id, runtime: Id, thread: Id, native: RequestId, route: Option<Route>)

  type NativeKey = (Id, Id, string)

  function NativeKeyOf(entry: Entry): NativeKey {
    (entry.runtime, entry.thread, RequestKey(entry.native))
  }

  /** The turn that a reply continues, with the session it belongs to. */
  datatype Turn = Turn(id: Id, runtime: Id, thread: Id)

  /** Sets of occurrence ids by session; a set iterates in insertion order. */
  type Index = map<Id, seq<Id>>

  datatype Table = Table(
    entries: map<Id, Entry>,
    byNative: map<NativeKey, Id>,
    owned: Index,
    mirrored: Index,
    turns: map<Id, Turn>,
    claims: set<Id>,
    next: Id)

  const NO_PENDING := Table(map[], map[], map[], map[], map[], {}, 0)

  // ---------------------------------------------------------------------------------------------
  // Indexes
  // ---------------------------------------------------------------------------------------------

  function At(index: Index, session: Id): seq<Id> {
    if session in index then index[session] else []
  }

  function WithId(index: Index, session: Id, id: Id): Index {
    index[session := if id in At(index, session) then At(index, session) else At(index, session) + [id]]
  }

  function Dropped(ids: seq<Id>, gone: set<Id>): seq<Id> {
    if ids == [] then []
    else
      var front := Dropped(ids[..|ids| - 1], gone);
      if ids[|ids| - 1] in gone then front else front + [ids[|ids| - 1]]
  }

  /** The ids are gone from every session, and so are the sessions left without ids. */
  function WithoutIds(index: Index, gone: set<Id>): Index {
    map s | s in index && Dropped(index[s], gone) != [] :: Dropped(index[s], gone)
  }

  // ---------------------------------------------------------------------------------------------
  // Queries
  // ---------------------------------------------------------------------------------------------

  /** The runtime of a query is optional; a query without one concerns every runtime. */
  predicate InRuntime(entry: Entry, runtime: Option<Id>) {
    runtime.None? || runtime.value == entry.runtime
  }

  predicate Owns(entries: map<Id, Entry>, id: Id, session: Id, runtime: Option<Id>) {
    id in entries && entries[id].thread == session && InRuntime(entries[id], runtime)
  }

  /** The reference: all entries, in registration order, that the session owns in the runtime. */
  function Scan(entries: map<Id, Entry>, upTo: nat, session: Id, runtime: Option<Id>): seq<Id> {
    if upTo == 0 then []
    else
      var before := Scan(entries, upTo - 1, session, runtime);
      var id := upTo - 1;
      if Owns(entries, id, session, runtime) then before + [id] else before
  }

  /** What an index lists for a session: its live entries, narrowed to the runtime. */
  function Select(entries: map<Id, Entry>, ids: seq<Id>, runtime: Option<Id>): seq<Entry> {
    if ids == [] then []
    else
      var id := ids[|ids| - 1];
      var front := Select(entries, ids[..|ids| - 1], runtime);
      if id in entries && InRuntime(entries[id], runtime) then front + [entries[id]] else front
  }

  function ScannedForSession(t: Table, session: Id, runtime: Option<Id>): seq<Entry> {
    Select(t.entries, Scan(t.entries, t.next, session, runtime), None)
  }

  function PendingForSession(t: Table, session: Id, runtime: Option<Id>): seq<Entry> {
    Select(t.entries, At(t.owned, session), runtime)
  }

  function EventsForSession(t: Table, session: Id, runtime: Option<Id>): seq<Entry> {
    Select(t.entries, At(t.owned, session), runtime) + Select(t.entries, At(t.mirrored, session), runtime)
  }

  function Direct(t: Table, id: Id, runtime: Option<Id>): Option<Entry> {
    if id in t.entries && InRuntime(t.entries[id], runtime) then Some(t.entries[id]) else None
  }

  /** The ids that a session owns or mirrors, each once. */
  function IdsOfSession(t: Table, session: Id): seq<Id> {
    var own := At(t.owned, session);
    own + Dropped(At(t.mirrored, session), set id | id in own)
  }

  /** The entries with the occurrence id among those that the session owns or mirrors. */
  function Matches(entries: map<Id, Entry>, ids: seq<Id>, id: Id, runtime: Option<Id>): seq<Entry> {
    if ids == [] then []
    else
      var last := ids[|ids| - 1];
      var front := Matches(entries, ids[..|ids| - 1], id, runtime);
      if last in entries && entries[last].id == id && InRuntime(entries[last], runtime)
      then front + [entries[last]] else front
  }

  datatype SessionLookup = Found(entry: Entry) | Unknown | BelongsElsewhere(owner: Id) | Ambiguous

  function ForSession(entry: Entry, session: Id): SessionLookup {
    var viaRoute := entry.route.Some? && entry.route.value.child == entry.thread && entry.route.value.parent == session;
    if entry.thread == session || viaRoute then Found(entry) else BelongsElsewhere(entry.thread)
  }

  /** The lookup as the source performs it: first by session, then directly. */
  function RequireForSession(t: Table, id: Id, session: Id, runtime: Option<Id>): SessionLookup {
    var matches := Matches(t.entries, IdsOfSession(t, session), id, runtime);
    if |matches| > 1 then Ambiguous
    else if |matches| == 1 then ForSession(matches[0], session)
    else if Direct(t, id, runtime).Some? then ForSession(Direct(t, id, runtime).value, session)
    else Unknown
  }

  function NativeEntry(t: Table, key: NativeKey): Option<Entry> {
    if key in t.byNative && t.byNative[key] in t.entries then Some(t.entries[t.byNative[key]]) else None
  }

  // ---------------------------------------------------------------------------------------------
  // Updates
  // ---------------------------------------------------------------------------------------------

  datatype Registration = Registration(runtime: Id, thread: Id, native: RequestId, route: Option<Route>)

  function EntryFor(t: Table, input: Registration): Entry {
    Entry(t.next, input.runtime, input.thread, input.native, input.route)
  }

  function InputKey(input: Registration): NativeKey {
    (input.runtime, input.thread, RequestKey(input.native))
  }

  predicate IsNew(t: Table, input: Registration) {
    NativeEntry(t, InputKey(input)).None?
  }

  function Added(t: Table, input: Registration): Table {
    if !IsNew(t, input) then t
    else t.(
         entries := t.entries[t.next := EntryFor(t, input)],
         byNative := t.byNative[InputKey(input) := t.next],
         owned := WithId(t.owned, input.thread, t.next),
         mirrored := if input.route.Some? then WithId(t.mirrored, input.route.value.parent, t.next) else t.mirrored,
         next := t.next + 1)
  }

  /** The table without some occurrences and everything kept about them. */
  function WithoutEntries(t: Table, gone: set<Id>): Table {
    t.(entries := t.entries - gone,
       byNative := map k | k in t.byNative && t.byNative[k] !in gone :: t.byNative[k],
       owned := WithoutIds(t.owned, gone),
       mirrored := WithoutIds(t.mirrored, gone),
       turns := t.turns - gone,
       claims := t.claims - gone)
  }

  function Resolved(t: Table, id: Id, runtime: Option<Id>): Table {
    if Direct(t, id, runtime).Some? then WithoutEntries(t, {id}) else t
  }

  function OwnedBy(t: Table, session: Id, runtime: Option<Id>): set<Id> {
    set id | id in t.entries && Owns(t.entries, id, session, runtime)
  }

  function MirroredAt(t: Table, session: Id, runtime: Option<Id>): set<Id> {
    set id | id in t.entries && id in At(t.mirrored, session) && InRuntime(t.entries[id], runtime)
  }

  /** The ids are no longer mirrored, and lose a turn of the session. */
  function Unmirrored(t: Table, ids: set<Id>, session: Id): Table {
    t.(mirrored := WithoutIds(t.mirrored, ids),
       turns := map id | id in t.turns && !(id in ids && t.turns[id].thread == session) :: t.turns[id])
  }

  function ClearedSession(t: Table, session: Id, runtime: Option<Id>): Table {
    Unmirrored(WithoutEntries(t, OwnedBy(t, session, runtime)), MirroredAt(t, session, runtime), session)
  }

  function OfRuntime(t: Table, ids: set<Id>, runtime: Id): set<Id> {
    set id | id in ids && id in t.entries && t.entries[id].runtime == runtime
  }

  function ClearedRuntime(t: Table, runtime: Id): Table {
    WithoutEntries(t, OfRuntime(t, t.entries.Keys, runtime))
  }

  /** A reply may start for an occurrence of the session that has no other reply in flight. */
  predicate MayClaim(t: Table, id: Id, session: Id, runtime: Option<Id>) {
    RequireForSession(t, id, session, runtime).Found? && id !in t.claims
  }

  function Claimed(t: Table, id: Id, session: Id, runtime: Option<Id>): Table {
    if MayClaim(t, id, session, runtime) then t.(claims := t.claims + {id}) else t
  }

  function Released(t: Table, id: Id, runtime: Option<Id>): Table {
    if Direct(t, id, runtime).Some? then t.(claims := t.claims - {id}) else t
  }

  /** One entry learns its route: `Kept` when the route is of no concern, `Conflict` when it differs. */
  datatype RouteEffect = Kept | Conflict | Routed(isNew: bool)

  function RouteEffectOn(t: Table, entry: Entry, route: Route): RouteEffect {
    if route.runtime != entry.runtime || route.child != entry.thread then Kept
    else if entry.route.Some? && entry.route.value != route then Conflict
    else Routed(entry.id !in At(t.mirrored, route.parent))
  }

  function RoutedOne(t: Table, id: Id, route: Route): Table
    requires id in t.entries
  {
    if RouteEffectOn(t, t.entries[id], route).Routed?
    then t.(entries := t.entries[id := t.entries[id].(route := Some(route))],
            mirrored := WithId(t.mirrored, route.parent, t.entries[id].id))
    else t
  }

  datatype RouteApplication = RouteApplication(table: Table, announced: seq<Id>, conflict: bool)

  function ApplyToOne(before: RouteApplication, id: Id, route: Route): RouteApplication {
    if before.conflict || id !in before.table.entries then before
    else
      var effect := RouteEffectOn(before.table, before.table.entries[id], route);
      RouteApplication(
        RoutedOne(before.table, id, route),
        if effect == Routed(true) then before.announced + [id] else before.announced,
        effect == Conflict)
  }

  /** Applies a route to the listed entries in order, and stops at the first conflict. */
  function ApplyTo(t: Table, ids: seq<Id>, route: Route): RouteApplication
    decreases |ids|
  {
    if ids == [] then RouteApplication(t, [], false)
    else ApplyToOne(ApplyTo(t, ids[..|ids| - 1], route), ids[|ids| - 1], route)
  }

  function Applied(t: Table, route: Route): RouteApplication {
    ApplyTo(t, At(t.owned, route.child), route)
  }

  /** Every entry that the session owns or mirrors in the runtime of the turn continues with it. */
  function Bound(t: Table, session: Id, turn: Turn): Table {
    var ids := set id | id in IdsOfSession(t, session) && id in t.entries && t.entries[id].runtime == turn.runtime;
    t.(turns := map id | id in t.turns.Keys + ids :: if id in ids then turn else t.turns[id])
  }

  // ---------------------------------------------------------------------------------------------
  // The invariant
  // ---------------------------------------------------------------------------------------------

  ghost predicate EntriesAreNumbered(t: Table) {
    forall id <- t.entries :: id < t.next && t.entries[id].id == id
  }

  ghost predicate NativeKeysAgree(t: Table) {
    && (forall id <- t.entries :: NativeKeyOf(t.entries[id]) in t.byNative && t.byNative[NativeKeyOf(t.entries[id])] == id)
    && (forall k <- t.byNative :: t.byNative[k] in t.entries && NativeKeyOf(t.entries[t.byNative[k]]) == k)
  }

  ghost predicate OwnersAgree(t: Table) {
    && (forall s <- t.owned :: t.owned[s] != [])
    && forall s: Id :: At(t.owned, s) == Scan(t.entries, t.next, s, None)
  }

  ghost predicate MirrorsAgree(t: Table) {
    forall s <- t.mirrored ::
      && t.mirrored[s] != []
      && Distinct(t.mirrored[s])
      && forall id <- t.mirrored[s] ::
           id in t.entries && t.entries[id].route.Some? && t.entries[id].route.value.parent == s
  }

  ghost predicate OnlyLiveEntries(t: Table) {
    t.turns.Keys <= t.entries.Keys && t.claims <= t.entries.Keys
  }

  ghost predicate Inv(t: Table) {
    && EntriesAreNumbered(t)
    && NativeKeysAgree(t)
    && OwnersAgree(t)
    && MirrorsAgree(t)
    && OnlyLiveEntries(t)
  }

  // ---------------------------------------------------------------------------------------------
  // Runs
  // ---------------------------------------------------------------------------------------------

  datatype Operation =
    | Add(input: Registration)
    | Resolve(id: Id, runtime: Option<Id>)
    | ApplyRoute(route: Route)
    | BindTurn(session: Id, turn: Turn)
    | Claim(id: Id, session: Id, runtime: Option<Id>)
    | Release(id: Id, runtime: Option<Id>)
    | ClearSession(session: Id, runtime: Option<Id>)
    | ClearRuntime(cleared: Id)

  function Step(t: Table, op: Operation): Table {
    match op
    case Add(input) => Added(t, input)
    case Resolve(id, runtime) => Resolved(t, id, runtime)
    case ApplyRoute(route) => Applied(t, route).table
    case BindTurn(session, turn) => Bound(t, session, turn)
    case Claim(id, session, runtime) => Claimed(t, id, session, runtime)
    case Release(id, runtime) => Released(t, id, runtime)
    case ClearSession(session, runtime) => ClearedSession(t, session, runtime)
    case ClearRuntime(runtime) => ClearedRuntime(t, runtime)
  }

  function Run(t: Table, ops: seq<Operation>): Table
    decreases |ops|
  {
    if ops == [] then t else Run(Step(t, ops[0]), ops[1..])
  }
}
