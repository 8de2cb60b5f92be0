/**
 * Lifecycle updates of a child whose route is not known yet: only the newest is buffered, and
 * projected on the link of the child once its route becomes known.
 */
module BufferedTurns {
  import opened Prelude
  import opened SubagentLinks
  import opened SubagentLinksProofs
  import opened StatusMerge

  /** A turn of the child started, completed, or failed. */
  datatype Lifecycle = Started(at: int) | Ended(at: int, failed: bool)

  function LifecycleStatus(update: Lifecycle): Status {
    match update
    case Started(_) => Running
    case Ended(_, failed) => if failed then Error else Completed
  }

  predicate IsNewer(existing: Lifecycle, incoming: Lifecycle) {
    if incoming.at != existing.at then incoming.at > existing.at
    else if incoming.Started? != existing.Started? then incoming.Started?
    else Precedence(LifecycleStatus(incoming)) >= Precedence(LifecycleStatus(existing))
  }

  /** The update that stays buffered after a sequence of them. */
  function Buffered(kept: Lifecycle, updates: seq<Lifecycle>): Lifecycle
    decreases |updates|
  {
    if updates == [] then kept
    else Buffered(if IsNewer(kept, updates[0]) then updates[0] else kept, updates[1..])
  }

  function LifecycleInput(link: Link, update: Lifecycle): LinkInput {
    LinkInput(
      link.runtime, link.parent, link.child, if link.child.Some? then link.child.value else link.key.tail, LifecycleStatus(update),
      if update.Ended? && update.failed then Some("Codex subagent turn failed.") else None,
      if update.Started? then Some(update.at) else None,
      if update.Started? then None else Some(update.at),
      false, update.Started?)
  }

  function Projected(link: Link, updates: seq<Lifecycle>): Link
    decreases |updates|
  {
    if updates == [] then link
    else Projected(Merge(Some(link), LifecycleInput(link, updates[0]), link.key, link.stamp), updates[1..])
  }

  function AsInputs(link: Link, updates: seq<Lifecycle>): (inputs: seq<LinkInput>)
    ensures |inputs| == |updates|
  {
    seq(|updates|, i requires 0 <= i < |updates| => LifecycleInput(link, updates[i]))
  }

  /** Projecting lifecycle updates is updating the stored link with them; only its stamp goes on counting. */
  lemma {:induction false} ProjectedIsFolded(link: Link, updates: seq<Lifecycle>, stored: Link, stamp: nat)
    requires stored == link.(stamp := stored.stamp)
    ensures var folded := Folded(stored, AsInputs(link, updates), stamp);
            Projected(link, updates) == folded.(stamp := link.stamp)
    ensures forall input <- AsInputs(link, updates) :: Names(link, input)
    decreases |updates|
  {
    if updates == [] {
    } else {
      var input := LifecycleInput(link, updates[0]);
      var next := Merge(Some(link), input, link.key, link.stamp);
      ProjectedIsFolded(next, updates[1..], Merge(Some(stored), input, link.key, stamp), stamp + 1);
      assert AsInputs(link, updates)[1..] == AsInputs(next, updates[1..]);
      assert AsInputs(link, updates)[0] == input;
    }
  }

  /**
   * Turns in order: times increase, and an end follows a start. A start may follow a start, because
   * the end of an interrupted turn gives no update.
   */
  predicate InOrder(updates: seq<Lifecycle>) {
    forall i | 0 < i < |updates| :: Follows(updates[i - 1], updates[i])
  }

  predicate Follows(before: Lifecycle, after: Lifecycle) {
    before.at < after.at && (before.Started? || after.Started?)
  }

  lemma RestIsInOrder(turns: seq<Lifecycle>)
    requires InOrder(turns) && turns != []
    ensures InOrder(turns[1..])
  {
    forall i | 0 < i < |turns| - 1 ensures Follows(turns[1..][i - 1], turns[1..][i]) {
      assert Follows(turns[i], turns[i + 1]);
    }
  }

  lemma {:induction false} NewestStaysBuffered(kept: Lifecycle, updates: seq<Lifecycle>)
    requires InOrder([kept] + updates)
    ensures Buffered(kept, updates) == ([kept] + updates)[|updates|]
    decreases |updates|
  {
    if updates == [] {
    } else {
      RestIsInOrder([kept] + updates);
      assert ([kept] + updates)[1..] == updates && [updates[0]] + updates[1..] == updates;
      assert Follows(([kept] + updates)[0], ([kept] + updates)[1]);
      NewestStaysBuffered(updates[0], updates[1..]);
    }
  }

  /** A link that is not ended has no end time. */
  predicate EndsOnlyWhenTerminal(link: Link) {
    link.endedAt.Some? ==> IsTerminal(link.status)
  }

  /** The state of a link after in-order updates, when it was not ended before them. */
  ghost predicate Tracks(start: Option<int>, link: Link, last: Lifecycle) {
    if start.Some? && last.at < start.value
    then link.status.Running? && link.startedAt == start && link.endedAt.None?
    else if last.Started?
    then link.status.Running? && link.startedAt.Some? && link.startedAt.value == last.at && link.endedAt.None?
    else link.status == LifecycleStatus(last) && link.endedAt == Some(last.at)
  }

  /** The start that terminals are compared with; a pending link has none in force. */
  function RunningStart(link: Link): Option<int> {
    if link.status.Running? then link.startedAt else None
  }

  lemma {:induction false} UpdatesTrackTheLast(start: Option<int>, link: Link, last: Lifecycle, updates: seq<Lifecycle>)
    requires Tracks(start, link, last)
    requires InOrder([last] + updates)
    ensures Tracks(start, Projected(link, updates), ([last] + updates)[|updates|])
    decreases |updates|
  {
    if updates == [] {
    } else {
      RestIsInOrder([last] + updates);
      assert ([last] + updates)[1..] == updates && [updates[0]] + updates[1..] == updates;
      assert Follows(([last] + updates)[0], ([last] + updates)[1]);
      var next := Merge(Some(link), LifecycleInput(link, updates[0]), link.key, link.stamp);
      assert Tracks(start, next, updates[0]);
      UpdatesTrackTheLast(start, next, updates[0], updates[1..]);
    }
  }

  lemma FirstUpdateTracks(link: Link, update: Lifecycle)
    requires !IsTerminal(link.status) && EndsOnlyWhenTerminal(link)
    ensures Tracks(RunningStart(link), Projected(link, [update]), update)
  {
    assert Projected(link, [update])
           == Merge(Some(link), LifecycleInput(link, update), link.key, link.stamp);
  }

  ghost predicate NewestSuffices(link: Link, first: Lifecycle, rest: seq<Lifecycle>) {
    Projected(link, [first] + rest).status == Projected(link, [Buffered(first, rest)]).status
  }

  lemma OpenLinkNeedsOnlyTheNewest(link: Link, first: Lifecycle, rest: seq<Lifecycle>)
    requires !IsTerminal(link.status) && EndsOnlyWhenTerminal(link)
    requires InOrder([first] + rest)
    ensures NewestSuffices(link, first, rest)
  {
    NewestStaysBuffered(first, rest);
    var last := Buffered(first, rest);
    FirstUpdateTracks(link, first);
    FirstUpdateTracks(link, last);
    assert [first][1..] == [] && ([first] + rest)[1..] == rest;
    UpdatesTrackTheLast(RunningStart(link), Projected(link, [first]), first, rest);
    assert Projected(link, [first] + rest) == Projected(Projected(link, [first]), rest);
  }

  /** In-order turns after which buffering only the newest gives an ended link another status. */
  function LosingTurns(link: Link): seq<Lifecycle> {
    match LifecycleBoundary(link)
    case None => [Ended(0, false), Started(1)]
    case Some(boundary) =>
      if link.status.Error? then [Started(boundary + 1), Ended(boundary + 2, false)]
      else [Ended(boundary - 2, true), Started(boundary - 1)]
  }

  lemma EndedLinkCanNeedMore(link: Link)
    requires IsTerminal(link.status)
    ensures InOrder(LosingTurns(link))
    ensures !NewestSuffices(link, LosingTurns(link)[0], LosingTurns(link)[1..])
  {
    var turns := LosingTurns(link);
    var first, last := turns[0], turns[1];
    assert turns == [first, last] && turns[1..] == [last] && [first] + [last] == turns;
    assert Buffered(first, [last]) == last by { assert Buffered(last, []) == last; }
    var one := Merge(Some(link), LifecycleInput(link, first), link.key, link.stamp);
    var both := Merge(Some(one), LifecycleInput(one, last), link.key, link.stamp);
    assert Projected(link, turns) == both by {
      assert Projected(link, turns) == Projected(one, [last]);
      assert Projected(one, [last]) == Projected(both, []);
    }
    assert Projected(link, [last]) == Merge(Some(link), LifecycleInput(link, last), link.key, link.stamp);
  }

  // ---------------------------------------------------------------------------------------------
  // Which turns an ended link may miss
  // ---------------------------------------------------------------------------------------------

  function Higher(a: Status, b: Status): Status {
    if Precedence(b) > Precedence(a) then b else a
  }

  /**
   * The start of turn `i` reopens the ended link, unless an earlier one did: it lies after the end in
   * force, which is that of the link, or, if that has none, that of a turn before.
   */
  predicate Reopens(link: Link, turns: seq<Lifecycle>, i: nat)
    requires i < |turns|
  {
    && turns[i].Started?
    && (link.endedAt.Some? || (forall j | 0 <= j < i :: turns[j].Started?) ==>
          LifecycleBoundary(link).Some? && LifecycleBoundary(link).value < turns[i].at)
  }

  predicate IsReopened(link: Link, turns: seq<Lifecycle>) {
    exists i | 0 <= i < |turns| :: Reopens(link, turns, i)
  }

  ghost predicate IsHighestTurn(status: Status, link: Link, turns: seq<Lifecycle>) {
    && (status == link.status || exists turn <- turns :: LifecycleStatus(turn) == status)
    && Precedence(link.status) <= Precedence(status)
    && forall turn <- turns :: Precedence(LifecycleStatus(turn)) <= Precedence(status)
  }

  /** In-order turns give an ended link the status of the last one if some start reopens it, and else the highest. */
  lemma {:induction false} TurnsAfterEnd(link: Link, turns: seq<Lifecycle>)
    requires IsTerminal(link.status) && InOrder(turns) && turns != []
    ensures var final := Projected(link, turns).status;
            if IsReopened(link, turns) then final == LifecycleStatus(turns[|turns| - 1])
            else IsHighestTurn(final, link, turns)
    decreases |turns|
  {
    var first, rest := turns[0], turns[1..];
    var next := Merge(Some(link), LifecycleInput(link, first), link.key, link.stamp);
    assert Projected(link, turns) == Projected(next, rest);
    if Reopens(link, turns, 0) {
      assert Tracks(None, next, first) && [first] + rest == turns;
      UpdatesTrackTheLast(None, next, first, rest);
    } else if rest == [] {
      assert Projected(next, []) == next;
    } else {
      RestIsInOrder(turns);
      TurnsAfterEnd(next, rest);
      ReopenedInRest(link, next, turns);
      HighestWithFirst(link, next, turns, Projected(next, rest).status);
    }
  }

  lemma {:induction false} LaterTurns(turns: seq<Lifecycle>, i: nat)
    requires InOrder(turns) && 0 < i < |turns|
    ensures turns[0].at < turns[i].at
  {
    assert Follows(turns[i - 1], turns[i]);
    if i == 1 {
    } else {
      LaterTurns(turns, i - 1);
    }
  }

  lemma ReopenedInRest(link: Link, next: Link, turns: seq<Lifecycle>)
    requires IsTerminal(link.status) && InOrder(turns) && |turns| > 1 && !Reopens(link, turns, 0)
    requires next == Merge(Some(link), LifecycleInput(link, turns[0]), link.key, link.stamp)
    ensures IsReopened(link, turns) <==> IsReopened(next, turns[1..])
  {
    assert Follows(turns[0], turns[1]);
    forall i | 0 < i < |turns| ensures Reopens(link, turns, i) <==> Reopens(next, turns[1..], i - 1) {
      LaterTurns(turns, i);
      assert turns[1..][i - 1] == turns[i];
      assert (forall j | 0 <= j < i :: turns[j].Started?)
        <==> turns[0].Started? && forall j | 0 <= j < i - 1 :: turns[1..][j].Started?;
    }
    if IsReopened(link, turns) {
      var i :| 0 <= i < |turns| && Reopens(link, turns, i);
      assert Reopens(next, turns[1..], i - 1);
    }
    if IsReopened(next, turns[1..]) {
      var i :| 0 <= i < |turns| - 1 && Reopens(next, turns[1..], i);
      assert Reopens(link, turns, i + 1);
    }
  }

  lemma HighestWithFirst(link: Link, next: Link, turns: seq<Lifecycle>, status: Status)
    requires IsTerminal(link.status) && turns != [] && !Reopens(link, turns, 0)
    requires next == Merge(Some(link), LifecycleInput(link, turns[0]), link.key, link.stamp)
    ensures IsTerminal(next.status)
    ensures IsHighestTurn(status, next, turns[1..]) ==> IsHighestTurn(status, link, turns)
  {
    assert next.status == Higher(link.status, LifecycleStatus(turns[0]));
    assert turns[0] in turns;
    assert forall turn :: turn in turns <==> turn == turns[0] || turn in turns[1..];
  }

  /** What a caller can read off an ended link and its turns before it drops all of them but the last. */
  ghost predicate MayMissAllButLast(link: Link, turns: seq<Lifecycle>)
    requires turns != []
  {
    var last := turns[|turns| - 1];
    if IsReopened(link, turns)
    then if last.Started? then Reopens(link, [last], 0)
         else Precedence(link.status) <= Precedence(LifecycleStatus(last))
    else forall turn <- turns ::
           Precedence(LifecycleStatus(turn)) <= Precedence(Higher(link.status, LifecycleStatus(last)))
  }

  lemma NewestOfTurns(link: Link, first: Lifecycle, rest: seq<Lifecycle>)
    requires InOrder([first] + rest)
    ensures var turns := [first] + rest;
            NewestSuffices(link, first, rest)
            <==> Projected(link, turns).status == Projected(link, [turns[|turns| - 1]]).status
  {
    NewestStaysBuffered(first, rest);
  }

  /** The comparison of the two outcomes that `TurnsAfterEnd` allows. */
  lemma SameOutcomeIff(link: Link, turns: seq<Lifecycle>, all: Status, newest: Status)
    requires IsTerminal(link.status) && turns != []
    requires var last := turns[|turns| - 1];
             && (if IsReopened(link, turns) then all == LifecycleStatus(last) else IsHighestTurn(all, link, turns))
             && (if Reopens(link, [last], 0) then newest == LifecycleStatus(last) else IsHighestTurn(newest, link, [last]))
             && (Reopens(link, [last], 0) ==> IsReopened(link, turns))
    ensures all == newest <==> MayMissAllButLast(link, turns)
  {
    hide IsReopened;
    var last := turns[|turns| - 1];
    assert last in turns && last in [last];
  }

  /** For an ended link, buffering only the newest of given in-order turns loses nothing exactly then. */
  lemma EndedLinkMayMissTurnsIff(link: Link, first: Lifecycle, rest: seq<Lifecycle>)
    requires IsTerminal(link.status) && InOrder([first] + rest)
    ensures NewestSuffices(link, first, rest) <==> MayMissAllButLast(link, [first] + rest)
  {
    var turns := [first] + rest;
    var last := turns[|turns| - 1];
    NewestOfTurns(link, first, rest);
    TurnsAfterEnd(link, turns);
    TurnsAfterEnd(link, [last]);
    OnlyTurnReopensIff(link, last);
    if Reopens(link, [last], 0) {
      if rest == [] {
        assert turns == [last];
      } else {
        LastReopens(link, turns);
      }
    }
    hide *;
    SameOutcomeIff(link, turns, Projected(link, turns).status, Projected(link, [last]).status);
  }

  lemma OnlyTurnReopensIff(link: Link, last: Lifecycle)
    ensures IsReopened(link, [last]) <==> Reopens(link, [last], 0)
  {
  }

  /** A start that reopens the link by itself also reopens it after others. */
  lemma LastReopens(link: Link, turns: seq<Lifecycle>)
    requires turns != [] && Reopens(link, [turns[|turns| - 1]], 0)
    ensures IsReopened(link, turns)
  {
    assert Reopens(link, turns, |turns| - 1);
  }

  // ---------------------------------------------------------------------------------------------
  // Which turns an open link may miss
  // ---------------------------------------------------------------------------------------------

  /** The turn ends the open child; one that ended before its run started does not. */
  predicate EndsChild(link: Link, turn: Lifecycle) {
    turn.Ended? && (RunningStart(link).Some? ==> RunningStart(link).value <= turn.at)
  }

  /** The place of the first end among the turns. */
  function FirstEnd(turns: seq<Lifecycle>): (f: nat)
    ensures f <= |turns|
    ensures f < |turns| ==> turns[f].Ended?
  {
    if turns == [] || turns[0].Ended? then 0 else 1 + FirstEnd(turns[1..])
  }

  /** A start after the end that the link carries. */
  predicate StartsLater(link: Link, turns: seq<Lifecycle>) {
    link.endedAt.None? || exists turn <- turns :: turn.Started? && link.endedAt.value < turn.at
  }

  /**
   * What a caller can read off an open link and its turns: no turn ends the child, or a later start
   * lies after the end that the link carries, or the last turn ends the child with the highest status.
   */
  ghost predicate MayMissWhileOpen(link: Link, turns: seq<Lifecycle>)
    requires turns != []
  {
    var f, last := FirstEnd(turns), turns[|turns| - 1];
    || f == |turns| || !EndsChild(link, turns[f])
    || StartsLater(link, turns[f..])
    || (last.Ended? && forall turn <- turns :: Precedence(LifecycleStatus(turn)) <= Precedence(LifecycleStatus(last)))
  }

  function After(link: Link, turn: Lifecycle): Link {
    Merge(Some(link), LifecycleInput(link, turn), link.key, link.stamp)
  }

  lemma ProjectedOne(link: Link, turn: Lifecycle)
    ensures Projected(link, [turn]) == After(link, turn)
  {
    assert Projected(link, [turn]) == Projected(After(link, turn), []);
  }

  lemma StatusOfOne(link: Link, turn: Lifecycle)
    requires !IsTerminal(link.status)
    ensures Projected(link, [turn]).status == if EndsChild(link, turn) then LifecycleStatus(turn) else Running
  {
    ProjectedOne(link, turn);
  }

  lemma StartFirst(link: Link, turns: seq<Lifecycle>)
    requires !IsTerminal(link.status) && InOrder(turns) && |turns| > 1 && turns[0].Started?
    ensures var next, last := After(link, turns[0]), turns[|turns| - 1];
            && !IsTerminal(next.status) && next.endedAt == link.endedAt
            && Projected(next, [last]).status == Projected(link, [last]).status
            && (MayMissWhileOpen(next, turns[1..]) <==> MayMissWhileOpen(link, turns))
  {
    var next, last, rest := After(link, turns[0]), turns[|turns| - 1], turns[1..];
    forall i | 0 < i < |turns| ensures turns[0].at < turns[i].at {
      LaterTurns(turns, i);
    }
    forall turn <- rest ensures EndsChild(next, turn) <==> EndsChild(link, turn) {
      var i :| 0 <= i < |rest| && rest[i] == turn;
      assert turns[i + 1] == turn;
    }
    assert last == rest[|rest| - 1] && last in rest;
    StatusOfOne(link, last);
    StatusOfOne(next, last);
    assert FirstEnd(turns) == 1 + FirstEnd(rest);
    assert turns[FirstEnd(turns)..] == rest[FirstEnd(rest)..];
    assert forall turn :: turn in turns <==> turn == turns[0] || turn in rest;
    if FirstEnd(rest) < |rest| {
      assert turns[FirstEnd(turns)] == rest[FirstEnd(rest)] && rest[FirstEnd(rest)] in rest;
    }
  }

  lemma StaleEndFirst(link: Link, turns: seq<Lifecycle>)
    requires !IsTerminal(link.status) && InOrder(turns) && |turns| > 1
    requires turns[0].Ended? && !EndsChild(link, turns[0])
    ensures Projected(link, turns).status == Projected(link, [turns[|turns| - 1]]).status
    ensures MayMissWhileOpen(link, turns)
  {
    var next, rest := After(link, turns[0]), turns[1..];
    RestIsInOrder(turns);
    assert rest == [rest[0]] + rest[1..];
    OpenLinkNeedsOnlyTheNewest(next, rest[0], rest[1..]);
    NewestOfTurns(next, rest[0], rest[1..]);
    StatusOfOne(link, rest[|rest| - 1]);
    StatusOfOne(next, rest[|rest| - 1]);
    assert FirstEnd(turns) == 0;
  }

  /** The comparison of the outcomes after a first turn that ends the child. */
  lemma EndFirstOutcomes(link: Link, next: Link, turns: seq<Lifecycle>, all: Status)
    requires |turns| > 1 && turns[0].Ended? && EndsChild(link, turns[0])
    requires next.status == LifecycleStatus(turns[0])
    requires var last := turns[|turns| - 1];
             && (last.Ended? ==> EndsChild(link, last))
             && if StartsLater(link, turns) then all == LifecycleStatus(last) else IsHighestTurn(all, next, turns[1..])
    ensures all == (if EndsChild(link, turns[|turns| - 1]) then LifecycleStatus(turns[|turns| - 1]) else Running)
       <==> MayMissWhileOpen(link, turns)
  {
    var last, rest := turns[|turns| - 1], turns[1..];
    assert FirstEnd(turns) == 0 && turns[0..] == turns;
    assert rest[|rest| - 1] == last && last in rest;
    assert forall turn :: turn in turns <==> turn == turns[0] || turn in rest;
    hide StartsLater;
  }

  lemma EndFirst(link: Link, turns: seq<Lifecycle>)
    requires !IsTerminal(link.status) && InOrder(turns) && |turns| > 1 && EndsChild(link, turns[0])
    ensures Projected(link, turns).status == Projected(link, [turns[|turns| - 1]]).status
       <==> MayMissWhileOpen(link, turns)
  {
    var next, rest, last := After(link, turns[0]), turns[1..], turns[|turns| - 1];
    assert Projected(link, turns) == Projected(next, rest);
    EndFirstReopensIff(link, turns);
    LaterTurns(turns, |turns| - 1);
    StatusOfOne(link, last);
    RestIsInOrder(turns);
    assert rest[|rest| - 1] == last;
    assert link.endedAt.None? ==> StartsLater(link, turns);
    hide IsReopened, StartsLater, InOrder, Projected, MayMissWhileOpen, IsHighestTurn, After;
    TurnsAfterEnd(next, rest);
    EndFirstOutcomes(link, next, turns, Projected(next, rest).status);
  }

  lemma EndFirstReopensIff(link: Link, turns: seq<Lifecycle>)
    requires !IsTerminal(link.status) && InOrder(turns) && |turns| > 1 && EndsChild(link, turns[0])
    ensures var next := After(link, turns[0]);
            && next.status == LifecycleStatus(turns[0])
            && (link.endedAt.Some? ==> (IsReopened(next, turns[1..]) <==> StartsLater(link, turns)))
            && (link.endedAt.None? ==> IsReopened(next, turns[1..]))
  {
    var next, rest := After(link, turns[0]), turns[1..];
    assert next.endedAt == Some(if link.endedAt.Some? then Max(link.endedAt.value, turns[0].at) else turns[0].at);
    assert Follows(turns[0], turns[1]);
    forall i | 0 <= i < |rest|
      ensures Reopens(next, rest, i) <==> rest[i].Started? && (link.endedAt.Some? ==> link.endedAt.value < rest[i].at)
    {
      LaterTurns(turns, i + 1);
    }
    if link.endedAt.None? {
      assert Reopens(next, rest, 0);
    } else {
      if StartsLater(link, turns) {
        var turn :| turn in turns && turn.Started? && link.endedAt.value < turn.at;
        var i :| 0 <= i < |turns| && turns[i] == turn;
        assert Reopens(next, rest, i - 1);
      }
      if IsReopened(next, rest) {
        var i :| 0 <= i < |rest| && Reopens(next, rest, i);
        assert rest[i] in turns;
      }
    }
  }

  lemma {:induction false} OpenTurnsIff(link: Link, turns: seq<Lifecycle>)
    requires !IsTerminal(link.status) && InOrder(turns) && turns != []
    ensures Projected(link, turns).status == Projected(link, [turns[|turns| - 1]]).status
       <==> MayMissWhileOpen(link, turns)
    decreases |turns|
  {
    if |turns| == 1 {
      assert turns == [turns[0]];
      assert FirstEnd(turns) == if turns[0].Ended? then 0 else 1;
    } else if turns[0].Started? {
      RestIsInOrder(turns);
      StartFirst(link, turns);
      OpenTurnsIff(After(link, turns[0]), turns[1..]);
    } else if EndsChild(link, turns[0]) {
      EndFirst(link, turns);
    } else {
      StaleEndFirst(link, turns);
    }
  }

  /** For an open link, buffering only the newest of given in-order turns loses nothing exactly then. */
  lemma OpenLinkMayMissTurnsIff(link: Link, first: Lifecycle, rest: seq<Lifecycle>)
    requires !IsTerminal(link.status) && InOrder([first] + rest)
    ensures NewestSuffices(link, first, rest) <==> MayMissWhileOpen(link, [first] + rest)
  {
    NewestOfTurns(link, first, rest);
    OpenTurnsIff(link, [first] + rest);
  }

  // ---------------------------------------------------------------------------------------------
  // Which links may miss all turns but the last
  // ---------------------------------------------------------------------------------------------

  /** The child has not ended, and its link carries no end, or none after the start of its run. */
  predicate NeedsOnlyTheNewest(link: Link) {
    && !IsTerminal(link.status)
    && (link.endedAt.Some? ==> RunningStart(link).Some? && link.endedAt.value <= RunningStart(link).value)
  }

  /** In-order turns after which buffering only the newest gives an open link another status. */
  function LosingWhileOpen(link: Link): seq<Lifecycle>
    requires !IsTerminal(link.status) && link.endedAt.Some?
  {
    var at := if RunningStart(link).Some? then RunningStart(link).value else link.endedAt.value - 1;
    [Ended(at, false), Started(at + 1)]
  }

  lemma OpenLinkCanNeedMore(link: Link)
    requires !IsTerminal(link.status) && !NeedsOnlyTheNewest(link)
    ensures InOrder(LosingWhileOpen(link))
    ensures !NewestSuffices(link, LosingWhileOpen(link)[0], LosingWhileOpen(link)[1..])
  {
    var turns := LosingWhileOpen(link);
    assert [turns[0]] + turns[1..] == turns && turns[0..] == turns;
    OpenLinkMayMissTurnsIff(link, turns[0], turns[1..]);
    assert turns[1] in turns;
  }

  lemma OpenLinkMissesNothing(link: Link, first: Lifecycle, rest: seq<Lifecycle>)
    requires NeedsOnlyTheNewest(link) && InOrder([first] + rest)
    ensures NewestSuffices(link, first, rest)
  {
    var turns := [first] + rest;
    var f := FirstEnd(turns);
    OpenLinkMayMissTurnsIff(link, first, rest);
    hide NewestSuffices;
    if f < |turns| && EndsChild(link, turns[f]) && link.endedAt.Some? {
      if f + 1 < |turns| {
        assert Follows(turns[f], turns[f + 1]);
        assert turns[f..][1] == turns[f + 1] && turns[f + 1] in turns[f..];
      } else {
        OnlyOneEnd(turns);
      }
    }
  }

  lemma {:induction false} OnlyOneEnd(turns: seq<Lifecycle>)
    requires turns != [] && FirstEnd(turns) == |turns| - 1
    ensures forall turn <- turns :: turn == turns[|turns| - 1] || turn.Started?
    decreases |turns|
  {
    if |turns| == 1 {
    } else {
      OnlyOneEnd(turns[1..]);
      assert forall turn :: turn in turns <==> turn == turns[0] || turn in turns[1..];
    }
  }

  /**
   * Buffering only the newest of in-order turns loses nothing, whatever the turns, if and only if the
   * child has not ended, and its link carries no end after the start of its run.
   */
  lemma NewestSufficesIff(link: Link)
    ensures NeedsOnlyTheNewest(link)
       <==> forall first, rest | InOrder([first] + rest) :: NewestSuffices(link, first, rest)
  {
    if NeedsOnlyTheNewest(link) {
      forall first, rest | InOrder([first] + rest) ensures NewestSuffices(link, first, rest) {
        OpenLinkMissesNothing(link, first, rest);
      }
    } else {
      var turns := if IsTerminal(link.status) then LosingTurns(link) else LosingWhileOpen(link);
      if IsTerminal(link.status) {
        EndedLinkCanNeedMore(link);
      } else {
        OpenLinkCanNeedMore(link);
      }
      assert [turns[0]] + turns[1..] == turns;
    }
  }

  /**
   * The link of a child that runs on after the tool call that names it: it carries the end of the
   * call, and the turns up to that end are judged by it.
   */
  lemma SpawnedLinkCanNeedMore()
    ensures var linked := Step(NO_LINKS, Update(ToolCall(10)));
            && (0, 9) in linked.byChild
            && var link := linked.byChild[(0, 9)];
            && link.status.Running? && link.startedAt == Some(1) && link.endedAt == Some(10)
            && Projected(link, [Ended(5, false), Started(7)]).status.Completed?
            && Projected(link, [Buffered(Ended(5, false), [Started(7)])]).status.Running?
  {
    var link := Step(NO_LINKS, Update(ToolCall(10))).byChild[(0, 9)];
    var first, last := Ended(5, false), Started(7);
    assert [first, last][1..] == [last];
    assert Projected(link, [first, last]) == Projected(After(link, first), [last]);
    ProjectedOne(After(link, first), last);
    ProjectedOne(link, last);
    assert Buffered(first, [last]) == last by { assert Buffered(last, []) == last; }
  }
}
