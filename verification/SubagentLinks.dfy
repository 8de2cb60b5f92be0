/**
 * The subagent link state: four indexes over one set of parent-child links, and the status and
 * time merge of an update. `Links` is the value of the state, the functions below say what each
 * operation does to it, and class `SubagentLinkState` performs the operations in place.
 *
 * The source nests two of its maps (parent, then child or item) and drops an inner map when it
 * becomes empty; here such a map is one map over the pair, which has the same contents.
 */
module SubagentLinks {
  import opened Prelude

  datatype Status = Pending | Running | Cancelled | Completed | Error

  function Precedence(status: Status): nat {
    match status
    case Pending => 0
    case Running => 1
    case Cancelled => 2
    case Completed => 3
    case Error => 4
  }

  predicate IsTerminal(status: Status) {
    status.Completed? || status.Cancelled? || status.Error?
  }

  /** `codex-subagent:<parent>:<tail>`; the tail is a child thread or a spawn item. */
  datatype CorrelationKey = CorrelationKey(parent: Id, tail: Id)

  /** A stored link. The stamp stands for the identity of the stored object. */
  datatype Link = Link(
    stamp: nat,
    runtime: Id,
    parent: Id,
    child: Option<Id>,
    key: CorrelationKey,
    status: Status,
    error: Option<string>,
    startedAt: Option<int>,
    endedAt: Option<int>)

  datatype LinkInput = LinkInput(
    runtime: Id,
    parent: Id,
    child: Option<Id>,
    item: Id,
    status: Status,
    error: Option<string>,
    startedAt: Option<int>,
    endedAt: Option<int>,
    preferItemKey: bool,
    allowStatusRestart: bool)

  datatype Route = Route(runtime: Id, parent: Id, child: Id, key: CorrelationKey)

  function RouteOf(link: Link): Option<Route> {
    if link.child.Some? then Some(Route(link.runtime, link.parent, link.child.value, link.key)) else None
  }

  // ---------------------------------------------------------------------------------------------
  // Merging an update into a link
  // ---------------------------------------------------------------------------------------------

  predicate IsPreviousRunTerminalUpdate(existing: Option<Link>, input: LinkInput) {
    && existing.Some?
    && existing.value.status.Running?
    && IsTerminal(input.status)
    && existing.value.startedAt.Some?
    && input.endedAt.Some?
    && input.endedAt.value < existing.value.startedAt.value
  }

  /** The time that a restart must lie after. */
  function LifecycleBoundary(link: Link): Option<int> {
    if link.endedAt.None? && link.status.Completed? then link.startedAt else link.endedAt
  }

  predicate IsExplicitRunningRestart(existing: Option<Link>, input: LinkInput) {
    && input.allowStatusRestart
    && input.status.Running?
    && existing.Some?
    && IsTerminal(existing.value.status)
    && input.startedAt.Some?
    && LifecycleBoundary(existing.value).Some?
    && input.startedAt.value > LifecycleBoundary(existing.value).value
  }

  function ResolveStatus(existing: Option<Link>, input: LinkInput): Status {
    if existing.None? then input.status
    else if IsExplicitRunningRestart(existing, input) then Running
    else if IsPreviousRunTerminalUpdate(existing, input) then Running
    else if Precedence(input.status) > Precedence(existing.value.status) then input.status
    else existing.value.status
  }

  function Max(a: int, b: int): int {
    if a > b then a else b
  }

  function StartedAtOf(link: Option<Link>): Option<int> {
    if link.Some? then link.value.startedAt else None
  }

  function EndedAtOf(link: Option<Link>): Option<int> {
    if link.Some? then link.value.endedAt else None
  }

  function ErrorOf(link: Option<Link>): Option<string> {
    if link.Some? then link.value.error else None
  }

  function ChildOf(link: Option<Link>): Option<Id> {
    if link.Some? then link.value.child else None
  }

  function MergedStartedAt(existing: Option<Link>, input: LinkInput): Option<int> {
    var status := ResolveStatus(existing, input);
    var rejectedRunning := input.status.Running? && !status.Running?;
    if status.Running? && existing.Some? && existing.value.status.Running?
       && existing.value.startedAt.Some? && input.startedAt.Some?
    then Some(Max(existing.value.startedAt.value, input.startedAt.value))
    else if IsPreviousRunTerminalUpdate(existing, input) || rejectedRunning then StartedAtOf(existing)
    else OrElse(input.startedAt, StartedAtOf(existing))
  }

  function MergedEndedAt(existing: Option<Link>, input: LinkInput): Option<int> {
    if IsTerminal(ResolveStatus(existing, input)) && EndedAtOf(existing).Some? && input.endedAt.Some?
    then Some(Max(existing.value.endedAt.value, input.endedAt.value))
    else if IsExplicitRunningRestart(existing, input) || IsPreviousRunTerminalUpdate(existing, input) then None
    else OrElse(input.endedAt, EndedAtOf(existing))
  }

  /** An empty message is stored as no message. */
  function MergedError(existing: Option<Link>, input: LinkInput): Option<string> {
    var error :=
      if IsExplicitRunningRestart(existing, input) then input.error
      else if IsPreviousRunTerminalUpdate(existing, input) then ErrorOf(existing)
      else OrElse(input.error, ErrorOf(existing));
    if error == Some("") then None else error
  }

  function Merge(existing: Option<Link>, input: LinkInput, key: CorrelationKey, stamp: nat): Link {
    Link(
      stamp,
      input.runtime,
      input.parent,
      OrElse(input.child, ChildOf(existing)),
      key,
      ResolveStatus(existing, input),
      MergedError(existing, input),
      MergedStartedAt(existing, input),
      MergedEndedAt(existing, input))
  }

  // ---------------------------------------------------------------------------------------------
  // The indexes
  // ---------------------------------------------------------------------------------------------

  datatype Links = Links(
    byParent: map<(Id, Id, Id), Link>,
    byChild: map<(Id, Id), Link>,
    byKey: map<(Id, CorrelationKey), Link>,
    provisional: map<(Id, Id, Id), Link>,
    nextStamp: nat)

  const NO_LINKS := Links(map[], map[], map[], map[], 0)

  function RouteForChild(s: Links, runtime: Id, child: Id): Option<Route> {
    if (runtime, child) in s.byChild then RouteOf(s.byChild[(runtime, child)]) else None
  }

  function DefaultKey(input: LinkInput): CorrelationKey {
    if input.child.None? || input.preferItemKey
    then CorrelationKey(input.parent, input.item)
    else CorrelationKey(input.parent, input.child.value)
  }

  function Provisional(s: Links, input: LinkInput): Option<Link> {
    Lookup(s.provisional, (input.runtime, input.parent, input.item))
  }

  function LinkedByChild(s: Links, input: LinkInput): Option<Link> {
    if input.child.Some? then Lookup(s.byChild, (input.runtime, input.child.value)) else None
  }

  function ExistingLinked(s: Links, input: LinkInput): Option<Link> {
    if input.child.Some?
    then OrElse(Lookup(s.byParent, (input.runtime, input.parent, input.child.value)), LinkedByChild(s, input))
    else None
  }

  predicate HasConflictingParent(s: Links, input: LinkInput) {
    var linked := LinkedByChild(s, input);
    linked.Some? && linked.value.parent != input.parent
  }

  function SelectedKey(s: Links, input: LinkInput): CorrelationKey {
    if ExistingLinked(s, input).Some? then ExistingLinked(s, input).value.key
    else if Provisional(s, input).Some? then Provisional(s, input).value.key
    else DefaultKey(input)
  }

  function SelectedLink(s: Links, input: LinkInput): Option<Link> {
    OrElse(ExistingLinked(s, input),
           OrElse(Provisional(s, input), Lookup(s.byKey, (input.runtime, SelectedKey(s, input)))))
  }

  /** True when storing `link` for `item` also drops the correlation entry of the displaced link. */
  predicate DropsDisplacedKey(s: Links, link: Link, item: Id) {
    var displaced := Lookup(s.provisional, (link.runtime, link.parent, item));
    && displaced.Some?
    && displaced.value.key != link.key
    && Lookup(s.byKey, (displaced.value.runtime, displaced.value.key)) == displaced
  }

  function Store(s: Links, link: Link, item: Id): Links {
    var place := (link.runtime, link.parent, item);
    var displaced := Lookup(s.provisional, place);
    var kept := if DropsDisplacedKey(s, link, item)
                then s.byKey - {(displaced.value.runtime, displaced.value.key)} else s.byKey;
    var stored := s.(
                  byKey := kept[(link.runtime, link.key) := link],
                  provisional := if link.child.None? || displaced.Some?
                  then s.provisional[place := link] else s.provisional);
    if link.child.None? then stored
    else stored.(
         byParent := s.byParent[(link.runtime, link.parent, link.child.value) := link],
         byChild := s.byChild[(link.runtime, link.child.value) := link])
  }

  /** An update is refused for its parent, or stored; `announced` is the route the listeners learn. */
  datatype Outcome = Refused(parent: Id) | Stored(link: Link, announced: Option<Route>, snapshot: Option<Route>)

  function MergedLink(s: Links, input: LinkInput): Link {
    Merge(SelectedLink(s, input), input, SelectedKey(s, input), s.nextStamp)
  }

  function PreviousRoute(s: Links, input: LinkInput): Option<Route> {
    if input.child.Some? then RouteForChild(s, input.runtime, input.child.value) else None
  }

  function UpsertOutcome(s: Links, input: LinkInput): Outcome {
    if HasConflictingParent(s, input) then Refused(LinkedByChild(s, input).value.parent)
    else
      var link := MergedLink(s, input);
      var existing := SelectedLink(s, input);
      var route := RouteOf(link);
      var isNew := route.Some? && PreviousRoute(s, input) != route;
      var statusChanged := existing.None? || existing.value.status != link.status;
      Stored(link, if isNew then route else None,
             if isNew || (route.Some? && statusChanged) then route else None)
  }

  function Upserted(s: Links, input: LinkInput): Links {
    if HasConflictingParent(s, input) then s
    else Store(s, MergedLink(s, input), input.item).(nextStamp := s.nextStamp + 1)
  }

  /** A thread as the inventory reports it. */
  datatype ThreadSnapshot = ThreadSnapshot(
    id: Id,
    parent: Option<Id>,
    sourceParent: Option<Id>,
    isActive: bool,
    updatedAt: Option<int>)

  /** The update that a recorded thread turns into; none when it names no usable parent. */
  function ThreadInput(s: Links, runtime: Id, thread: ThreadSnapshot): Option<LinkInput> {
    var parent := OrElse(thread.parent, thread.sourceParent);
    var conflicting := thread.parent.Some? && thread.sourceParent.Some? && thread.parent != thread.sourceParent;
    if conflicting || parent.None? || parent.value == thread.id then None
    else
      var existing := Lookup(s.byChild, (runtime, thread.id));
      var wasCancelled := existing.Some? && existing.value.status.Cancelled?;
      Some(LinkInput(
             runtime, parent.value, Some(thread.id), thread.id,
             if thread.isActive then Running else if wasCancelled then Cancelled else Completed,
             None,
             if thread.isActive then thread.updatedAt else None,
             if thread.isActive then None else thread.updatedAt,
             false,
             thread.isActive))
  }

  predicate IsFailableSpawn(link: Link) {
    link.child.None? && !link.status.Cancelled? && !link.status.Error?
  }

  function Failed(link: Link, error: string): Link {
    link.(status := Error, error := Some(error))
  }

  function FailUnlinked(s: Links, runtime: Id, parent: Id, error: string): Links {
    s.(provisional := map k | k in s.provisional ::
        if k.0 == runtime && k.1 == parent && IsFailableSpawn(s.provisional[k])
        then Failed(s.provisional[k], error) else s.provisional[k],
       byKey := map k | k in s.byKey ::
        if k.0 == runtime && k.1.parent == parent && IsFailableSpawn(s.byKey[k])
        then Failed(s.byKey[k], error) else s.byKey[k])
  }

  /** Every entry whose correlation key is in `keys` is gone from all four indexes. */
  function Without(s: Links, keys: set<(Id, CorrelationKey)>): Links {
    s.(byParent := map k | k in s.byParent && (k.0, s.byParent[k].key) !in keys :: s.byParent[k],
       byChild := map k | k in s.byChild && (k.0, s.byChild[k].key) !in keys :: s.byChild[k],
       byKey := map k | k in s.byKey && k !in keys :: s.byKey[k],
       provisional := map k | k in s.provisional && (k.0, s.provisional[k].key) !in keys :: s.provisional[k])
  }

  predicate Touches(link: Link, session: Id) {
    link.parent == session || link.child == Some(session)
  }

  function SessionKeys(s: Links, runtime: Option<Id>, session: Id): set<(Id, CorrelationKey)> {
    set k | k in s.byKey && (runtime == None || runtime == Some(k.0)) && Touches(s.byKey[k], session)
  }

  function RuntimeKeys(s: Links, runtime: Id): set<(Id, CorrelationKey)> {
    set k | k in s.byKey && k.0 == runtime
  }

  // ---------------------------------------------------------------------------------------------
  // Agreement of the four indexes
  // ---------------------------------------------------------------------------------------------

  ghost predicate ParentIndexAgrees(s: Links) {
    forall k <- s.byParent ::
      && (k.0, k.2) in s.byChild
      && s.byChild[(k.0, k.2)] == s.byParent[k]
      && s.byParent[k].parent == k.1
  }

  ghost predicate ChildIndexAgrees(s: Links) {
    forall k <- s.byChild ::
      var link := s.byChild[k];
      && link.runtime == k.0
      && link.child == Some(k.1)
      && (k.0, link.parent, k.1) in s.byParent
      && (k.0, link.key) in s.byKey
      && s.byKey[(k.0, link.key)] == link
  }

  ghost predicate KeyIndexAgrees(s: Links) {
    forall k <- s.byKey ::
      var link := s.byKey[k];
      && link.runtime == k.0
      && link.key == k.1
      && link.parent == k.1.parent
      && match link.child
         case Some(c) => (k.0, c) in s.byChild && s.byChild[(k.0, c)] == link
         case None => (k.0, link.parent, k.1.tail) in s.provisional
                      && s.provisional[(k.0, link.parent, k.1.tail)] == link
  }

  ghost predicate ProvisionalIndexAgrees(s: Links) {
    forall k <- s.provisional ::
      var link := s.provisional[k];
      && link.runtime == k.0
      && link.parent == k.1
      && link.key.parent == k.1
      && (k.0, link.key) in s.byKey
      && s.byKey[(k.0, link.key)].child == link.child
      && (link.child.None? ==> link.key.tail == k.2 && s.byKey[(k.0, link.key)] == link)
  }

  /** The indexes name the same links: one route per child, one holder per correlation key. */
  ghost predicate Agree(s: Links) {
    && ParentIndexAgrees(s)
    && ChildIndexAgrees(s)
    && KeyIndexAgrees(s)
    && ProvisionalIndexAgrees(s)
  }

  /**
   * What a caller can check before an update: the correlation key it will use is free, is held by
   * the same child, or is held by the still unlinked spawn of the same item; and the item's own
   * provisional link, if it gives way to another key, is not the current link of another child.
   */
  predicate NamesOneChild(s: Links, input: LinkInput) {
    var key := SelectedKey(s, input);
    var holder := Lookup(s.byKey, (input.runtime, key));
    var child := OrElse(input.child, ChildOf(SelectedLink(s, input)));
    var displaced := Provisional(s, input);
    && (holder.Some? ==>
          if holder.value.child.Some? then holder.value.child == child else key.tail == input.item)
    && (displaced.Some? && displaced.value.key != key && displaced.value.child.Some? ==>
          Lookup(s.byKey, (input.runtime, displaced.value.key)) != displaced)
  }
}
