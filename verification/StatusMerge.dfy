/**
 * What a sequence of updates does to the status and times of one linked child, and what is lost
 * when only the newest lifecycle update is buffered until the route of the child is known.
 */
module StatusMerge {
  import opened Prelude
  import opened SubagentLinks
  import opened SubagentLinksProofs

  /** The link after a sequence of updates that all name its child. */
  function Folded(link: Link, updates: seq<LinkInput>, stamp: nat): Link
    decreases |updates|
  {
    if updates == [] then link
    else Folded(Merge(Some(link), updates[0], link.key, stamp), updates[1..], stamp + 1)
  }

  predicate Names(link: Link, input: LinkInput) {
    input.runtime == link.runtime && input.parent == link.parent && input.child == link.child
  }

  function AsOperations(updates: seq<LinkInput>): (ops: seq<Operation>)
    ensures |ops| == |updates|
  {
    seq(|updates|, i requires 0 <= i < |updates| => Update(updates[i]))
  }

  /** Updates that name a linked child reach its stored link, and nothing else decides its fields. */
  lemma {:induction false} UpdatesFoldIntoTheLink(s: Links, link: Link, updates: seq<LinkInput>)
    requires link.child.Some? && RouteOf(link).Some?
    requires Lookup(s.byChild, (link.runtime, link.child.value)) == Some(link)
    requires Lookup(s.byParent, (link.runtime, link.parent, link.child.value)) == Some(link)
    requires forall u <- updates :: Names(link, u)
    ensures Lookup(Run(s, AsOperations(updates)).byChild, (link.runtime, link.child.value))
            == Some(Folded(link, updates, s.nextStamp))
    decreases |updates|
  {
    if updates == [] {
    } else {
      assert Names(link, updates[0]) && forall u <- updates[1..] :: u in updates;
      var next := Step(s, Update(updates[0]));
      var merged := Merge(Some(link), updates[0], link.key, s.nextStamp);
      assert MergedLink(s, updates[0]) == merged;
      UpdatesFoldIntoTheLink(next, merged, updates[1..]);
      assert AsOperations(updates)[1..] == AsOperations(updates[1..]);
    }
  }

  // ---------------------------------------------------------------------------------------------
  // One run of the child: the highest status wins, in any order
  // ---------------------------------------------------------------------------------------------

  /** An update that can be a restart: a turn has started, or a thread is active again. */
  predicate MayRestart(update: LinkInput) {
    update.allowStatusRestart && update.status.Running? && update.startedAt.Some?
  }

  predicate IsCompletedWithoutEnd(status: Status, endedAt: Option<int>) {
    status.Completed? && endedAt.None?
  }

  predicate StartsBy(start: Option<int>, end: Option<int>) {
    start.Some? && end.Some? ==> start.value <= end.value
  }

  ghost predicate EveryTerminalHasEnd(link: Link, updates: seq<LinkInput>) {
    && (IsTerminal(link.status) ==> link.endedAt.Some?)
    && forall u <- updates :: IsTerminal(u.status) ==> u.endedAt.Some?
  }

  /**
   * The update never reopens the child. Where a terminal status comes without an end, the child may
   * take its end from any other update, and then the start must lie before all of them.
   */
  ghost predicate RestartsNothing(link: Link, updates: seq<LinkInput>, update: LinkInput) {
    && (IsTerminal(link.status) ==> StartsBy(update.startedAt, link.endedAt))
    && (!EveryTerminalHasEnd(link, updates) ==>
          && StartsBy(update.startedAt, link.endedAt)
          && !IsCompletedWithoutEnd(link.status, link.endedAt)
          && forall u <- updates ::
               StartsBy(update.startedAt, u.endedAt) && !IsCompletedWithoutEnd(u.status, u.endedAt))
  }

  /** Nothing that the child is told starts after this terminal update ends. */
  ghost predicate EndsTheRun(link: Link, updates: seq<LinkInput>, update: LinkInput) {
    && StartsBy(link.startedAt, update.endedAt)
    && forall u <- updates :: StartsBy(u.startedAt, update.endedAt)
  }

  /** The updates tell of one run of the child. Updates of any status may carry an end. */
  ghost predicate OneRun(link: Link, updates: seq<LinkInput>) {
    && (forall u <- updates | MayRestart(u) :: RestartsNothing(link, updates, u))
    && (forall u <- updates | IsTerminal(u.status) :: EndsTheRun(link, updates, u))
  }

  ghost predicate IsHighestStatus(status: Status, link: Link, updates: seq<LinkInput>) {
    && (status == link.status || exists u <- updates :: u.status == status)
    && Precedence(link.status) <= Precedence(status)
    && forall u <- updates :: Precedence(u.status) <= Precedence(status)
  }

  /** Within one run a merge takes the higher status, and the later end once the child has ended. */
  lemma MergeInOneRun(link: Link, update: LinkInput, stamp: nat)
    requires OneRun(link, [update])
    ensures var merged := Merge(Some(link), update, link.key, stamp);
            && merged.status == (if Precedence(update.status) > Precedence(link.status) then update.status else link.status)
            && merged.endedAt == (if IsTerminal(merged.status) && link.endedAt.Some? && update.endedAt.Some?
                                  then Some(Max(link.endedAt.value, update.endedAt.value))
                                  else OrElse(update.endedAt, link.endedAt))
            && (merged.startedAt == link.startedAt || merged.startedAt == update.startedAt)
  {
    assert update in [update];
  }

  /** What is left of one run after its first update is one run of the merged link. */
  lemma RestIsOneRun(link: Link, updates: seq<LinkInput>, stamp: nat)
    requires OneRun(link, updates) && updates != []
    ensures OneRun(link, [updates[0]])
    ensures OneRun(Merge(Some(link), updates[0], link.key, stamp), updates[1..])
  {
    var first := updates[0];
    assert forall u <- [first] :: u == first;
    assert first in updates && forall u <- updates[1..] :: u in updates;
    assert OneRun(link, [first]);
    MergeInOneRun(link, first, stamp);
  }

  /** Whatever the order, the child ends in the highest status seen. */
  lemma {:induction false} HighestStatus(link: Link, updates: seq<LinkInput>, stamp: nat)
    requires OneRun(link, updates)
    ensures IsHighestStatus(Folded(link, updates, stamp).status, link, updates)
    decreases |updates|
  {
    if updates == [] {
    } else {
      var first, rest := updates[0], updates[1..];
      RestIsOneRun(link, updates, stamp);
      MergeInOneRun(link, first, stamp);
      HighestStatus(Merge(Some(link), first, link.key, stamp), rest, stamp + 1);
      assert forall u <- updates :: u == first || u in rest;
    }
  }

  // ---------------------------------------------------------------------------------------------
  // One run of the child: which end wins
  // ---------------------------------------------------------------------------------------------

  /** The end of the link, and then the end that each update brings. */
  function Ends(link: Link, updates: seq<LinkInput>): (ends: seq<Option<int>>)
    ensures |ends| == |updates| + 1
  {
    [link.endedAt] + seq(|updates|, i requires 0 <= i < |updates| => updates[i].endedAt)
  }

  /** None of the first updates, nor the link before them, says that the child has ended. */
  predicate IsOpenAfter(link: Link, updates: seq<LinkInput>, n: nat)
    requires n <= |updates|
  {
    !IsTerminal(link.status) && forall i | 0 <= i < n :: !IsTerminal(updates[i].status)
  }

  predicate IsLatest(end: Option<int>, ends: seq<Option<int>>) {
    end in ends && forall e <- ends :: e.Some? ==> end.Some? && e.value <= end.value
  }

  /** While the child is open an end replaces the one before; once it has ended the later one is kept. */
  function EndAfter(link: Link, updates: seq<LinkInput>): Option<int>
    decreases |updates|
  {
    if updates == [] then link.endedAt
    else
      var before, end := EndAfter(link, updates[..|updates| - 1]), updates[|updates| - 1].endedAt;
      if !IsOpenAfter(link, updates, |updates|) && before.Some? && end.Some? then Some(Max(before.value, end.value))
      else OrElse(end, before)
  }

  lemma {:induction false} FoldedMore(link: Link, front: seq<LinkInput>, last: LinkInput, stamp: nat)
    ensures Folded(link, front + [last], stamp)
         == Merge(Some(Folded(link, front, stamp)), last, link.key, stamp + |front|)
    decreases |front|
  {
    if front == [] {
      assert Folded(link, [last], stamp) == Folded(Merge(Some(link), last, link.key, stamp), [], stamp + 1);
    } else {
      assert (front + [last])[1..] == front[1..] + [last];
      FoldedMore(Merge(Some(link), front[0], link.key, stamp), front[1..], last, stamp + 1);
    }
  }

  lemma {:induction false} LastIsOneRun(link: Link, front: seq<LinkInput>, last: LinkInput, stamp: nat)
    requires OneRun(link, front + [last])
    ensures OneRun(Folded(link, front, stamp), [last])
    decreases |front|
  {
    if front == [] {
    } else {
      assert (front + [last])[1..] == front[1..] + [last];
      RestIsOneRun(link, front + [last], stamp);
      LastIsOneRun(Merge(Some(link), front[0], link.key, stamp), front[1..], last, stamp + 1);
    }
  }

  lemma FrontIsOneRun(link: Link, updates: seq<LinkInput>)
    requires OneRun(link, updates) && updates != []
    ensures OneRun(link, updates[..|updates| - 1])
  {
  }

  lemma {:induction false} FoldedEnd(link: Link, updates: seq<LinkInput>, stamp: nat)
    requires OneRun(link, updates)
    ensures Folded(link, updates, stamp).endedAt == EndAfter(link, updates)
    ensures !IsTerminal(Folded(link, updates, stamp).status) <==> IsOpenAfter(link, updates, |updates|)
    decreases |updates|
  {
    if updates == [] {
    } else {
      var front, last := updates[..|updates| - 1], updates[|updates| - 1];
      assert updates == front + [last];
      FrontIsOneRun(link, updates);
      FoldedEnd(link, front, stamp);
      FoldedMore(link, front, last, stamp);
      LastIsOneRun(link, front, last, stamp);
      hide OneRun;
      MergeInOneRun(Folded(link, front, stamp), last, stamp + |front|);
    }
  }

  /** After the given end, none arrives while the child is open. */
  predicate IsKept(link: Link, updates: seq<LinkInput>, k: nat) {
    forall i | k < i <= |updates| :: Ends(link, updates)[i].Some? ==> !IsOpenAfter(link, updates, i)
  }

  /** A latest end that is kept, by its place. */
  ghost predicate KeepsAt(link: Link, updates: seq<LinkInput>, k: nat)
    requires k <= |updates|
  {
    Ends(link, updates)[k].Some? && IsLatest(Ends(link, updates)[k], Ends(link, updates)) && IsKept(link, updates, k)
  }

  /** There is no end; or after a latest one, none arrives while the child is open. */
  ghost predicate KeepsLatestEnd(link: Link, updates: seq<LinkInput>) {
    IsLatest(None, Ends(link, updates)) || exists k | 0 <= k <= |updates| :: KeepsAt(link, updates, k)
  }

  lemma EndsOfFront(link: Link, updates: seq<LinkInput>)
    requires updates != []
    ensures var front := updates[..|updates| - 1];
            && Ends(link, updates) == Ends(link, front) + [updates[|updates| - 1].endedAt]
            && (forall i | 0 <= i <= |front| :: IsOpenAfter(link, updates, i) == IsOpenAfter(link, front, i))
  {
  }

  lemma KeptInFront(link: Link, updates: seq<LinkInput>, k: nat)
    requires k < |updates|
    ensures var front, end := updates[..|updates| - 1], updates[|updates| - 1].endedAt;
            IsKept(link, updates, k)
            <==> IsKept(link, front, k) && (end.Some? ==> !IsOpenAfter(link, updates, |updates|))
  {
    EndsOfFront(link, updates);
    hide IsOpenAfter, Ends;
  }

  lemma KeepsAtMore(link: Link, updates: seq<LinkInput>, k: nat)
    requires k < |updates|
    ensures var front, end := updates[..|updates| - 1], updates[|updates| - 1].endedAt;
            KeepsAt(link, updates, k)
            <==> KeepsAt(link, front, k)
                 && (end.Some? ==> end.value <= Ends(link, front)[k].value && !IsOpenAfter(link, updates, |updates|))
  {
    var front, end := updates[..|updates| - 1], updates[|updates| - 1].endedAt;
    KeptInFront(link, updates, k);
    EndsOfFront(link, updates);
    hide IsKept, IsOpenAfter, Ends;
    var ends := Ends(link, front);
    assert forall e :: e in ends + [end] <==> e in ends || e == end;
    assert ends[k] in ends;
  }

  lemma KeepsLast(link: Link, updates: seq<LinkInput>)
    ensures var ends := Ends(link, updates);
            KeepsAt(link, updates, |updates|) <==> ends[|updates|].Some? && IsLatest(ends[|updates|], ends)
  {
  }

  lemma LatestOfMore(ends: seq<Option<int>>, end: Option<int>, known: Option<int>)
    requires known in ends
    ensures IsLatest(end, ends + [end]) <==> forall e <- ends :: e.Some? ==> end.Some? && e.value <= end.value
    ensures IsLatest(known, ends + [end])
       <==> IsLatest(known, ends) && (end.Some? ==> known.Some? && end.value <= known.value)
    ensures IsLatest(None, ends + [end]) <==> end.None? && forall e <- ends :: e.None?
  {
    assert forall e :: e in ends + [end] <==> e in ends || e == end;
  }

  /** The last update brings no end, and so changes nothing about ends. */
  lemma WithoutLastEnd(link: Link, updates: seq<LinkInput>)
    requires updates != [] && updates[|updates| - 1].endedAt.None?
    ensures KeepsLatestEnd(link, updates) <==> KeepsLatestEnd(link, updates[..|updates| - 1])
    ensures EndAfter(link, updates) == EndAfter(link, updates[..|updates| - 1])
  {
    var front := updates[..|updates| - 1];
    EndsOfFront(link, updates);
    KeepsLast(link, updates);
    LatestOfMore(Ends(link, front), None, link.endedAt);
    forall k | 0 <= k < |updates| ensures KeepsAt(link, updates, k) <==> KeepsAt(link, front, k) {
      KeepsAtMore(link, updates, k);
    }
    hide KeepsAt, IsOpenAfter, Ends;
    if KeepsLatestEnd(link, front) && !IsLatest(None, Ends(link, front)) {
      var k :| 0 <= k <= |front| && KeepsAt(link, front, k);
      assert KeepsAt(link, updates, k);
    }
  }

  /** The last update brings an end while the child is open: it replaces whatever there was. */
  lemma WithReplacingEnd(link: Link, updates: seq<LinkInput>)
    requires updates != [] && updates[|updates| - 1].endedAt.Some? && IsOpenAfter(link, updates, |updates|)
    ensures KeepsLatestEnd(link, updates) <==> IsLatest(EndAfter(link, updates), Ends(link, updates))
  {
    EndsOfFront(link, updates);
    KeepsLast(link, updates);
    forall k | 0 <= k < |updates| ensures !KeepsAt(link, updates, k) {
      KeepsAtMore(link, updates, k);
    }
    hide KeepsAt, IsOpenAfter;
  }

  /** The last update brings an end when the child has ended: the later one is kept. */
  lemma WithLaterEnd(link: Link, updates: seq<LinkInput>)
    requires updates != [] && updates[|updates| - 1].endedAt.Some? && !IsOpenAfter(link, updates, |updates|)
    requires var front := updates[..|updates| - 1];
             && EndAfter(link, front) in Ends(link, front)
             && (EndAfter(link, front).None? ==> IsLatest(None, Ends(link, front)))
             && (IsLatest(EndAfter(link, front), Ends(link, front)) <==> KeepsLatestEnd(link, front))
    ensures KeepsLatestEnd(link, updates) <==> IsLatest(EndAfter(link, updates), Ends(link, updates))
  {
    var front := updates[..|updates| - 1];
    var ends, end, known := Ends(link, front), updates[|updates| - 1].endedAt, EndAfter(link, front);
    EndsOfFront(link, updates);
    KeepsLast(link, updates);
    LatestOfMore(ends, end, known);
    if k :| 0 <= k < |updates| && KeepsAt(link, updates, k) {
      KeepsAtMore(link, updates, k);
      SameLatest(ends, known, ends[k]);
      hide KeepsAt, IsOpenAfter;
    } else if KeepsLatestEnd(link, front) && known.Some? && end.value <= known.value {
      var k :| 0 <= k < |updates| && KeepsAt(link, front, k);
      SameLatest(ends, known, ends[k]);
      KeepsAtMore(link, updates, k);
      assert false;
    } else {
      hide KeepsAt, IsOpenAfter;
    }
  }

  lemma SameLatest(ends: seq<Option<int>>, a: Option<int>, b: Option<int>)
    ensures IsLatest(a, ends) && IsLatest(b, ends) ==> a == b
  {
  }

  lemma {:induction false} EndAfterIsLatestIff(link: Link, updates: seq<LinkInput>)
    ensures EndAfter(link, updates) in Ends(link, updates)
    ensures EndAfter(link, updates).None? ==> IsLatest(None, Ends(link, updates))
    ensures IsLatest(EndAfter(link, updates), Ends(link, updates)) <==> KeepsLatestEnd(link, updates)
    decreases |updates|
  {
    if updates == [] {
      assert Ends(link, updates) == [link.endedAt];
      KeepsLast(link, updates);
    } else {
      EndAfterIsLatestIff(link, updates[..|updates| - 1]);
      EndsOfFront(link, updates);
      hide KeepsLatestEnd, IsOpenAfter, Ends;
      if updates[|updates| - 1].endedAt.None? {
        WithoutLastEnd(link, updates);
      } else if IsOpenAfter(link, updates, |updates|) {
        WithReplacingEnd(link, updates);
      } else {
        WithLaterEnd(link, updates);
      }
    }
  }

  // ---------------------------------------------------------------------------------------------
  // One run of the child: what the order of delivery decides
  // ---------------------------------------------------------------------------------------------

  ghost predicate IsReordering(updates: seq<LinkInput>, reordered: seq<LinkInput>) {
    multiset(updates) == multiset(reordered)
  }

  lemma SameElements(updates: seq<LinkInput>, reordered: seq<LinkInput>)
    requires IsReordering(updates, reordered)
    ensures forall u :: u in updates <==> u in reordered
  {
    assert forall u :: u in updates <==> u in multiset(updates);
    assert forall u :: u in reordered <==> u in multiset(reordered);
  }

  lemma EndsAreOf(link: Link, updates: seq<LinkInput>)
    ensures forall e :: e in Ends(link, updates) <==> e == link.endedAt || exists u <- updates :: u.endedAt == e
  {
    var ends := Ends(link, updates);
    assert ends[0] == link.endedAt;
    forall u <- updates ensures u.endedAt in ends {
      var i :| 0 <= i < |updates| && updates[i] == u;
      assert ends[i + 1] == u.endedAt;
    }
    forall e <- ends ensures e == link.endedAt || exists u <- updates :: u.endedAt == e {
      var i :| 0 <= i < |ends| && ends[i] == e;
      if i > 0 {
        assert updates[i - 1] in updates;
      }
    }
  }

  lemma SameEnds(link: Link, updates: seq<LinkInput>, reordered: seq<LinkInput>)
    requires IsReordering(updates, reordered)
    ensures forall end :: IsLatest(end, Ends(link, updates)) <==> IsLatest(end, Ends(link, reordered))
  {
    SameElements(updates, reordered);
    EndsAreOf(link, updates);
    EndsAreOf(link, reordered);
    assert forall e :: e in Ends(link, updates) <==> e in Ends(link, reordered);
  }

  lemma ReorderedIsOneRun(link: Link, updates: seq<LinkInput>, reordered: seq<LinkInput>)
    requires OneRun(link, updates) && IsReordering(updates, reordered)
    ensures OneRun(link, reordered)
  {
    SameElements(updates, reordered);
  }

  /** An end that an update brings while the child may still be open. */
  predicate IsOpenEnd(update: LinkInput) {
    !IsTerminal(update.status) && update.endedAt.Some?
  }

  predicate HasLatestEnd(link: Link, updates: seq<LinkInput>, update: LinkInput) {
    update.endedAt.Some? && IsLatest(update.endedAt, Ends(link, updates))
  }

  /**
   * What is known before the updates are delivered: the child has ended, or a terminal update brings
   * the latest end, or no other update brings an end that is not the latest.
   */
  ghost predicate KeepsLatestInAnyOrder(link: Link, updates: seq<LinkInput>) {
    || IsTerminal(link.status)
    || (exists u <- updates :: IsTerminal(u.status) && HasLatestEnd(link, updates, u))
    || forall u <- updates :: IsOpenEnd(u) ==> HasLatestEnd(link, updates, u)
  }

  lemma {:induction false} SomeEndIsLatest(ends: seq<Option<int>>)
    requires ends != []
    ensures IsLatest(None, ends) || exists k | 0 <= k < |ends| :: ends[k].Some? && IsLatest(ends[k], ends)
    decreases |ends|
  {
    var front, last := ends[..|ends| - 1], ends[|ends| - 1];
    assert ends == front + [last] && ends[|ends| - 1] == last;
    if front == [] {
    } else {
      SomeEndIsLatest(front);
      if k :| 0 <= k < |front| && front[k].Some? && IsLatest(front[k], front) {
        LatestOfMore(front, last, front[k]);
        assert ends[k] == front[k];
      } else {
        LatestOfMore(front, last, front[0]);
      }
    }
  }

  lemma {:induction false} LastWithEnd(ends: seq<Option<int>>, end: Option<int>)
    requires end in ends
    ensures exists k | 0 <= k < |ends| :: ends[k] == end && forall i | k < i < |ends| :: ends[i] != end
    decreases |ends|
  {
    var n := |ends| - 1;
    if ends[n] == end {
    } else {
      LastWithEnd(ends[..n], end);
      var k :| 0 <= k < n && ends[k] == end && forall i | k < i < n :: ends[..n][i] != end;
      assert forall i | k < i < |ends| :: ends[i] != end;
    }
  }

  /** The last of the latest ends is kept, if every other end that arrives meets an ended child. */
  lemma LatestIsKeptInAnyOrder(link: Link, updates: seq<LinkInput>)
    requires KeepsLatestInAnyOrder(link, updates)
    ensures KeepsLatestEnd(link, updates)
  {
    var ends := Ends(link, updates);
    SomeEndIsLatest(ends);
    if !IsLatest(None, ends) {
      if j :| 0 <= j < |updates| && IsTerminal(updates[j].status) && HasLatestEnd(link, updates, updates[j]) {
        assert ends[j + 1] == updates[j].endedAt;
        assert KeepsAt(link, updates, j + 1);
      } else {
        var m :| 0 <= m < |ends| && ends[m].Some? && IsLatest(ends[m], ends);
        LastWithEnd(ends, ends[m]);
        var k :| 0 <= k < |ends| && ends[k] == ends[m] && forall i | k < i < |ends| :: ends[i] != ends[m];
        forall i | k < i <= |updates| && ends[i].Some? ensures !IsOpenAfter(link, updates, i) {
          assert updates[i - 1] in updates && ends[i] == updates[i - 1].endedAt;
        }
        assert KeepsAt(link, updates, k);
      }
    }
  }

  function OpenOnes(updates: seq<LinkInput>): (open: seq<LinkInput>)
    ensures forall u <- open :: !IsTerminal(u.status)
  {
    if updates == [] then []
    else if IsTerminal(updates[0].status) then OpenOnes(updates[1..]) else [updates[0]] + OpenOnes(updates[1..])
  }

  function TerminalOnes(updates: seq<LinkInput>): (terminal: seq<LinkInput>)
    ensures forall u <- terminal :: IsTerminal(u.status)
  {
    if updates == [] then []
    else if IsTerminal(updates[0].status) then [updates[0]] + TerminalOnes(updates[1..]) else TerminalOnes(updates[1..])
  }

  lemma {:induction false} OpenAndTerminal(updates: seq<LinkInput>)
    ensures IsReordering(updates, OpenOnes(updates) + TerminalOnes(updates))
    decreases |updates|
  {
    if updates == [] {
    } else {
      OpenAndTerminal(updates[1..]);
      assert updates == [updates[0]] + updates[1..];
    }
  }

  /** All open updates first, the given one last among them, and then the terminal ones. */
  function WithLastOpen(updates: seq<LinkInput>, i: nat): seq<LinkInput>
    requires i < |updates|
  {
    var rest := updates[..i] + updates[i + 1..];
    OpenOnes(rest) + [updates[i]] + TerminalOnes(rest)
  }

  lemma WithLastOpenReorders(updates: seq<LinkInput>, i: nat)
    requires i < |updates|
    ensures IsReordering(updates, WithLastOpen(updates, i))
  {
    var rest := updates[..i] + updates[i + 1..];
    OpenAndTerminal(rest);
    assert updates == updates[..i] + [updates[i]] + updates[i + 1..];
    assert multiset(updates) == multiset(rest) + multiset{updates[i]};
    assert multiset(rest) == multiset(OpenOnes(rest)) + multiset(TerminalOnes(rest));
  }

  predicate MeetsEndedChild(link: Link, updates: seq<LinkInput>, order: seq<LinkInput>, j: nat)
    requires j < |order|
  {
    && IsTerminal(order[j].status) && order[j] in updates
    && Ends(link, order)[j + 1] == order[j].endedAt && !IsOpenAfter(link, order, j + 1)
  }

  lemma PlacesWithLastOpen(link: Link, updates: seq<LinkInput>, i: nat)
    requires i < |updates| && !IsTerminal(link.status) && !IsTerminal(updates[i].status)
    ensures var order, p := WithLastOpen(updates, i), |OpenOnes(updates[..i] + updates[i + 1..])| + 1;
            && p <= |order| && Ends(link, order)[p] == updates[i].endedAt && IsOpenAfter(link, order, p)
            && forall j | p <= j < |order| :: MeetsEndedChild(link, updates, order, j)
  {
    var rest := updates[..i] + updates[i + 1..];
    var order, p := WithLastOpen(updates, i), |OpenOnes(rest)| + 1;
    forall j | 0 <= j < p ensures !IsTerminal(order[j].status) {
      if j < p - 1 {
        assert order[j] == OpenOnes(rest)[j] && OpenOnes(rest)[j] in OpenOnes(rest);
      }
    }
    WithLastOpenReorders(updates, i);
    SameElements(updates, order);
    forall j | p <= j < |order|
      ensures MeetsEndedChild(link, updates, order, j)
    {
      assert order[j] == TerminalOnes(rest)[j - p] && TerminalOnes(rest)[j - p] in TerminalOnes(rest);
      assert order[j] in order;
    }
  }

  /** With a given open end last, the latest end is kept if it is that one, or if a terminal update brings it. */
  lemma LastOpenEndDecides(link: Link, updates: seq<LinkInput>, i: nat)
    requires i < |updates| && IsOpenEnd(updates[i]) && !IsTerminal(link.status)
    requires forall u <- updates :: !(IsTerminal(u.status) && HasLatestEnd(link, updates, u))
    ensures KeepsLatestEnd(link, WithLastOpen(updates, i)) <==> HasLatestEnd(link, updates, updates[i])
  {
    var order, p := WithLastOpen(updates, i), |OpenOnes(updates[..i] + updates[i + 1..])| + 1;
    WithLastOpenReorders(updates, i);
    SameEnds(link, updates, order);
    PlacesWithLastOpen(link, updates, i);
    hide WithLastOpen, IsReordering, IsOpenAfter, IsTerminal;
    var ends := Ends(link, order);
    assert ends[p] in ends && ends[p].Some?;
    forall k | 0 <= k <= |order| && KeepsAt(link, order, k) ensures k == p {
      assert IsKept(link, order, k);
      assert k > p ==> MeetsEndedChild(link, updates, order, k - 1);
    }
    if HasLatestEnd(link, updates, updates[i]) {
      forall j | p < j <= |order| ensures !IsOpenAfter(link, order, j) {
        assert MeetsEndedChild(link, updates, order, j - 1);
      }
      assert KeepsAt(link, order, p);
    }
  }

  /** The end that is left is the latest one exactly when a latest end is kept. */
  lemma LatestEndIff(link: Link, updates: seq<LinkInput>, stamp: nat)
    requires OneRun(link, updates)
    ensures IsLatest(Folded(link, updates, stamp).endedAt, Ends(link, updates)) <==> KeepsLatestEnd(link, updates)
  {
    FoldedEnd(link, updates, stamp);
    EndAfterIsLatestIff(link, updates);
  }

  lemma StatusIgnoresOrder(link: Link, updates: seq<LinkInput>, reordered: seq<LinkInput>, stamp: nat)
    requires OneRun(link, updates) && IsReordering(updates, reordered)
    ensures Folded(link, updates, stamp).status == Folded(link, reordered, stamp).status
  {
    SameElements(updates, reordered);
    ReorderedIsOneRun(link, updates, reordered);
    hide OneRun;
    HighestStatus(link, updates, stamp);
    HighestStatus(link, reordered, stamp);
  }

  lemma KeptInReordering(link: Link, updates: seq<LinkInput>, reordered: seq<LinkInput>)
    requires KeepsLatestInAnyOrder(link, updates) && IsReordering(updates, reordered)
    ensures KeepsLatestEnd(link, reordered)
  {
    SameElements(updates, reordered);
    SameEnds(link, updates, reordered);
    hide IsReordering, IsLatest, Ends;
    assert KeepsLatestInAnyOrder(link, reordered);
    LatestIsKeptInAnyOrder(link, reordered);
  }

  /** The latest end is left whatever the order of delivery, if and only if the updates meet the condition. */
  lemma LatestEndInAnyOrderIff(link: Link, updates: seq<LinkInput>, stamp: nat)
    requires OneRun(link, updates)
    ensures (forall order | IsReordering(updates, order) ::
               IsLatest(Folded(link, order, stamp).endedAt, Ends(link, updates)))
            <==> KeepsLatestInAnyOrder(link, updates)
  {
    forall order | IsReordering(updates, order)
      ensures IsLatest(Folded(link, order, stamp).endedAt, Ends(link, updates)) <==> KeepsLatestEnd(link, order)
    {
      LatestEndOfReordering(link, updates, order, stamp);
    }
    hide OneRun, KeepsLatestEnd, IsLatest, IsReordering, Folded;
    if KeepsLatestInAnyOrder(link, updates) {
      forall order | IsReordering(updates, order) ensures KeepsLatestEnd(link, order) {
        KeptInReordering(link, updates, order);
      }
    } else {
      var i :| 0 <= i < |updates| && IsOpenEnd(updates[i]) && !HasLatestEnd(link, updates, updates[i]);
      WithLastOpenReorders(updates, i);
      LastOpenEndDecides(link, updates, i);
    }
  }

  lemma LatestEndOfReordering(link: Link, updates: seq<LinkInput>, order: seq<LinkInput>, stamp: nat)
    requires OneRun(link, updates) && IsReordering(updates, order)
    ensures IsLatest(Folded(link, order, stamp).endedAt, Ends(link, updates)) <==> KeepsLatestEnd(link, order)
  {
    ReorderedIsOneRun(link, updates, order);
    SameEnds(link, updates, order);
    hide OneRun, IsReordering, IsLatest;
    LatestEndIff(link, order, stamp);
  }

  /** No update is terminal, and those that bring an end bring the same one. */
  ghost predicate BringsOneOpenEnd(updates: seq<LinkInput>) {
    && (forall u <- updates :: !IsTerminal(u.status))
    && forall u <- updates, v <- updates :: u.endedAt.Some? && v.endedAt.Some? ==> u.endedAt == v.endedAt
  }

  lemma {:induction false} OpenEndIs(link: Link, updates: seq<LinkInput>, end: Option<int>)
    requires !IsTerminal(link.status) && forall u <- updates :: !IsTerminal(u.status) && (u.endedAt.None? || u.endedAt == end)
    ensures EndAfter(link, updates) == if exists u <- updates :: u.endedAt.Some? then end else link.endedAt
    decreases |updates|
  {
    if updates == [] {
    } else {
      var front, last := updates[..|updates| - 1], updates[|updates| - 1];
      assert last in updates && forall u <- front :: u in updates;
      OpenEndIs(link, front, end);
      assert forall u :: u in updates <==> u in front || u == last;
    }
  }

  lemma OneOpenEndIgnoresOrder(link: Link, updates: seq<LinkInput>, order: seq<LinkInput>)
    requires !IsTerminal(link.status) && BringsOneOpenEnd(updates) && IsReordering(updates, order)
    ensures EndAfter(link, order) == EndAfter(link, updates)
  {
    SameElements(updates, order);
    hide IsReordering;
    if u :| u in updates && u.endedAt.Some? {
      OpenEndIs(link, updates, u.endedAt);
      OpenEndIs(link, order, u.endedAt);
    } else {
      OpenEndIs(link, updates, None);
      OpenEndIs(link, order, None);
    }
  }

  lemma LastOpenEndOf(link: Link, updates: seq<LinkInput>, i: nat)
    requires i < |updates| && IsOpenEnd(updates[i]) && !IsTerminal(link.status)
    requires forall u <- updates :: !IsTerminal(u.status)
    ensures EndAfter(link, WithLastOpen(updates, i)) == updates[i].endedAt
  {
    var rest := updates[..i] + updates[i + 1..];
    assert forall u <- rest :: u in updates;
    NoTerminalOnes(rest);
    var order := WithLastOpen(updates, i);
    assert order == OpenOnes(rest) + [updates[i]];
    assert order[|order| - 1] == updates[i] && IsOpenAfter(link, order, |order|) by {
      PlacesWithLastOpen(link, updates, i);
    }
  }

  lemma {:induction false} NoTerminalOnes(updates: seq<LinkInput>)
    requires forall u <- updates :: !IsTerminal(u.status)
    ensures TerminalOnes(updates) == []
    decreases |updates|
  {
    if updates == [] {
    } else {
      assert updates[0] in updates && forall u <- updates[1..] :: u in updates;
      NoTerminalOnes(updates[1..]);
    }
  }

  /** The terminal updates before all others keep the end that the link has. */
  lemma TerminalsFirstKeep(link: Link, updates: seq<LinkInput>)
    requires link.endedAt.Some? && IsLatest(link.endedAt, Ends(link, updates))
    requires exists u <- updates :: IsTerminal(u.status)
    ensures var order := TerminalOnes(updates) + OpenOnes(updates);
            IsReordering(updates, order) && KeepsLatestEnd(link, order)
  {
    var order := TerminalOnes(updates) + OpenOnes(updates);
    OpenAndTerminal(updates);
    assert multiset(order) == multiset(OpenOnes(updates) + TerminalOnes(updates));
    SameEnds(link, updates, order);
    SomeTerminalOnes(updates);
    assert IsTerminal(order[0].status) by {
      assert order[0] == TerminalOnes(updates)[0] && TerminalOnes(updates)[0] in TerminalOnes(updates);
    }
    assert KeepsAt(link, order, 0);
  }

  lemma {:induction false} SomeTerminalOnes(updates: seq<LinkInput>)
    requires exists u <- updates :: IsTerminal(u.status)
    ensures TerminalOnes(updates) != []
    decreases |updates|
  {
    if IsTerminal(updates[0].status) {
    } else {
      SomeTerminalOnes(updates[1..]);
    }
  }

  ghost predicate EndIgnoresOrder(link: Link, updates: seq<LinkInput>, stamp: nat) {
    forall a, b | IsReordering(updates, a) && IsReordering(updates, b) ::
      Folded(link, a, stamp).endedAt == Folded(link, b, stamp).endedAt
  }

  lemma EndOfReordering(link: Link, updates: seq<LinkInput>, order: seq<LinkInput>, stamp: nat)
    requires OneRun(link, updates) && IsReordering(updates, order)
    ensures Folded(link, order, stamp).endedAt == EndAfter(link, order)
  {
    ReorderedIsOneRun(link, updates, order);
    hide OneRun, IsReordering;
    FoldedEnd(link, order, stamp);
  }

  /** If some order loses the latest end, another order leaves another end, unless all orders bring one and the same. */
  lemma OrdersDiffer(link: Link, updates: seq<LinkInput>) returns (a: seq<LinkInput>, b: seq<LinkInput>)
    requires !KeepsLatestInAnyOrder(link, updates) && !BringsOneOpenEnd(updates)
    ensures IsReordering(updates, a) && IsReordering(updates, b) && EndAfter(link, a) != EndAfter(link, b)
  {
    var i :| 0 <= i < |updates| && IsOpenEnd(updates[i]) && !HasLatestEnd(link, updates, updates[i]);
    a := WithLastOpen(updates, i);
    WithLastOpenReorders(updates, i);
    LastOpenEndDecides(link, updates, i);
    SameEnds(link, updates, a);
    EndAfterIsLatestIff(link, a);
    if j :| 0 <= j < |updates| && HasLatestEnd(link, updates, updates[j]) {
      b := WithLastOpen(updates, j);
      WithLastOpenReorders(updates, j);
      LastOpenEndDecides(link, updates, j);
      SameEnds(link, updates, b);
      EndAfterIsLatestIff(link, b);
    } else if u :| u in updates && IsTerminal(u.status) {
      LinkHasLatest(link, updates, i);
      b := TerminalOnes(updates) + OpenOnes(updates);
      TerminalsFirstKeep(link, updates);
      SameEnds(link, updates, b);
      EndAfterIsLatestIff(link, b);
    } else {
      var j :| 0 <= j < |updates| && updates[j].endedAt.Some? && updates[j].endedAt != updates[i].endedAt;
      b := WithLastOpen(updates, j);
      WithLastOpenReorders(updates, j);
      LastOpenEndOf(link, updates, i);
      LastOpenEndOf(link, updates, j);
    }
  }

  lemma LinkHasLatest(link: Link, updates: seq<LinkInput>, i: nat)
    requires i < |updates| && updates[i].endedAt.Some?
    requires forall u <- updates :: !HasLatestEnd(link, updates, u)
    ensures link.endedAt.Some? && IsLatest(link.endedAt, Ends(link, updates))
  {
    var ends := Ends(link, updates);
    assert ends[i + 1] == updates[i].endedAt;
    SomeEndIsLatest(ends);
    var k :| 0 <= k < |ends| && ends[k].Some? && IsLatest(ends[k], ends);
    assert k > 0 ==> updates[k - 1] in updates && ends[k] == updates[k - 1].endedAt;
  }

  /**
   * The order of delivery decides the end of the child, unless every order leaves the latest end, or
   * no update is terminal and all bring one and the same end.
   */
  lemma EndIgnoresOrderIff(link: Link, updates: seq<LinkInput>, stamp: nat)
    requires OneRun(link, updates)
    ensures EndIgnoresOrder(link, updates, stamp)
            <==> KeepsLatestInAnyOrder(link, updates) || BringsOneOpenEnd(updates)
  {
    forall order | IsReordering(updates, order) ensures Folded(link, order, stamp).endedAt == EndAfter(link, order) {
      EndOfReordering(link, updates, order, stamp);
    }
    hide OneRun, IsReordering, Folded;
    if KeepsLatestInAnyOrder(link, updates) {
      forall order | IsReordering(updates, order) ensures IsLatest(EndAfter(link, order), Ends(link, updates)) {
        KeptInReordering(link, updates, order);
        EndAfterIsLatestIff(link, order);
        SameEnds(link, updates, order);
      }
      forall a, b | IsReordering(updates, a) && IsReordering(updates, b) ensures EndAfter(link, a) == EndAfter(link, b) {
        SameLatest(Ends(link, updates), EndAfter(link, a), EndAfter(link, b));
      }
    } else if BringsOneOpenEnd(updates) {
      forall order | IsReordering(updates, order) ensures EndAfter(link, order) == EndAfter(link, updates) {
        OneOpenEndIgnoresOrder(link, updates, order);
      }
    } else {
      var a, b := OrdersDiffer(link, updates);
      assert Folded(link, a, stamp).endedAt != Folded(link, b, stamp).endedAt;
    }
  }

  /** The completed tool call of a running child: its end is the end of the call. */
  function ToolCall(end: int): LinkInput {
    SpawnUpdate(Some(9), Running).(startedAt := Some(1), endedAt := Some(end))
  }

  /** Two completed tool calls leave the running child with the end that came last. */
  lemma LaterEndCanBeLost()
    ensures var linked := Step(NO_LINKS, Update(SpawnUpdate(Some(9), Running)));
            var link := linked.byChild[(0, 9)];
            && OneRun(link, [ToolCall(10), ToolCall(5)])
            && Folded(link, [ToolCall(10), ToolCall(5)], 1).endedAt == Some(5)
            && Folded(link, [ToolCall(5), ToolCall(10)], 1).endedAt == Some(10)
  {
    var link := Step(NO_LINKS, Update(SpawnUpdate(Some(9), Running))).byChild[(0, 9)];
    FoldedMore(link, [ToolCall(10)], ToolCall(5), 1);
    FoldedMore(link, [ToolCall(5)], ToolCall(10), 1);
    assert [ToolCall(10)] + [ToolCall(5)] == [ToolCall(10), ToolCall(5)];
    assert [ToolCall(5)] + [ToolCall(10)] == [ToolCall(5), ToolCall(10)];
  }

  /**
   * An update that names no child merges into the copy kept for its spawn item. It lowers the status
   * of the linked child exactly when both the update and that copy rank below the current status; or,
   * for a restart of the copy or a terminal of an earlier run than the copy shows, when the child has
   * ended.
   */
  lemma ChildlessUpdateLowersStatusIff(s: Links, input: LinkInput, child: Id)
    requires Agree(s) && input.child.None? && MergedLink(s, input).child == Some(child)
    ensures SelectedLink(s, input).Some? && (input.runtime, child) in s.byChild
    ensures (input.runtime, child) in Upserted(s, input).byChild
    ensures var copy, current := SelectedLink(s, input), s.byChild[(input.runtime, child)].status;
            Precedence(Upserted(s, input).byChild[(input.runtime, child)].status) < Precedence(current)
            <==> if IsExplicitRunningRestart(copy, input) || IsPreviousRunTerminalUpdate(copy, input)
                 then IsTerminal(current)
                 else Precedence(input.status) < Precedence(current)
                      && Precedence(copy.value.status) < Precedence(current)
  {
    ChildlessUpdateReachesLinkedChild(s, input);
  }

  /**
   * An update that names only the spawn item merges into the older copy kept for that item, so a
   * completed child can show as running again without a restart.
   */
  lemma ChildlessUpdateCanUndoCompletion()
    ensures var linked := Run(NO_LINKS, [Update(SpawnUpdate(None, Running)), Update(SpawnUpdate(Some(9), Running))]);
            var completed := Step(linked, Update(SpawnUpdate(Some(9), Completed).(item := 9)));
            var reopened := Step(completed, Update(SpawnUpdate(None, Running)));
            && (0, 9) in completed.byChild && completed.byChild[(0, 9)].status.Completed?
            && (0, 9) in reopened.byChild && reopened.byChild[(0, 9)].status.Running?
  {
    var first, second := Update(SpawnUpdate(None, Running)), Update(SpawnUpdate(Some(9), Running));
    var s1 := Step(NO_LINKS, first);
    assert [first, second][1..] == [second];
    assert Run(NO_LINKS, [first, second]) == Run(s1, [second]);
    assert Run(s1, [second]) == Run(Step(s1, second), []);
  }

  // ---------------------------------------------------------------------------------------------
  // Restart
  // ---------------------------------------------------------------------------------------------

  /** A restart of an ended child: it may reopen the child, and says when the new run started. */
  predicate IsRestartOf(link: Link, restart: LinkInput) {
    MayRestart(restart) && IsTerminal(link.status)
  }

  lemma RestartMerges(link: Link, restart: LinkInput, stamp: nat)
    requires IsRestartOf(link, restart)
    ensures var reopened, boundary := Merge(Some(link), restart, link.key, stamp), LifecycleBoundary(link);
            if boundary.Some? && boundary.value < restart.startedAt.value
            then reopened.status.Running? && reopened.startedAt == restart.startedAt && reopened.endedAt.None?
                 && reopened.error == (if restart.error == Some("") then None else restart.error)
            else reopened.status == link.status && reopened.startedAt == link.startedAt
  {
  }

  /** Terminal updates of the previous run, possibly with the times of that run. */
  ghost predicate EndBefore(updates: seq<LinkInput>, start: int) {
    forall u <- updates ::
      && IsTerminal(u.status)
      && u.endedAt.Some? && u.endedAt.value < start
      && (u.startedAt.Some? ==> u.startedAt.value <= u.endedAt.value)
  }

  /** The link as it is stored again: an empty message is stored as no message. */
  function Restored(link: Link, endedAt: Option<int>): Link {
    link.(endedAt := endedAt, error := if link.error == Some("") then None else link.error)
  }

  /** Terminals that ended before the current run started erase the end of the link, and change nothing else. */
  lemma {:induction false} EarlierTerminalsEraseTheEnd(link: Link, updates: seq<LinkInput>, stamp: nat)
    requires link.status.Running? && link.startedAt.Some? && updates != []
    requires EndBefore(updates, link.startedAt.value) && forall u <- updates :: Names(link, u)
    ensures Folded(link, updates, stamp).(stamp := link.stamp) == Restored(link, None)
    decreases |updates|
  {
    var first, rest := updates[0], updates[1..];
    assert first in updates && forall u <- rest :: u in updates;
    var merged := Merge(Some(link), first, link.key, stamp);
    assert merged.(stamp := link.stamp) == Restored(link, None);
    if rest == [] {
      assert Folded(merged, rest, stamp + 1) == merged;
    } else {
      EarlierTerminalsEraseTheEnd(merged, rest, stamp + 1);
    }
  }

  /** Such terminals change no field exactly when there are none, or the link carries no end and no empty message. */
  lemma EarlierTerminalsChangeNothingIff(link: Link, updates: seq<LinkInput>, stamp: nat)
    requires link.status.Running? && link.startedAt.Some?
    requires EndBefore(updates, link.startedAt.value) && forall u <- updates :: Names(link, u)
    ensures Folded(link, updates, stamp).(stamp := link.stamp) == link
       <==> updates == [] || (link.endedAt.None? && link.error != Some(""))
  {
    if updates != [] {
      EarlierTerminalsEraseTheEnd(link, updates, stamp);
    }
  }

  /** The end of a tool call, erased by a completion that came before the run started. */
  lemma EarlierTerminalCanEraseEnd()
    ensures var call := SpawnUpdate(Some(9), Running).(startedAt := Some(6), endedAt := Some(10));
            var early := SpawnUpdate(Some(9), Completed).(endedAt := Some(5));
            var linked := Step(NO_LINKS, Update(call));
            var after := Step(linked, Update(early));
            && (0, 9) in linked.byChild && linked.byChild[(0, 9)].endedAt == Some(10)
            && (0, 9) in after.byChild && after.byChild[(0, 9)].endedAt.None?
            && after.byChild[(0, 9)].status.Running?
  {
  }

  lemma {:induction false} TerminalsKeepChildEnded(link: Link, updates: seq<LinkInput>, stamp: nat)
    requires IsTerminal(link.status) && forall u <- updates :: IsTerminal(u.status)
    ensures IsTerminal(Folded(link, updates, stamp).status)
    decreases |updates|
  {
    if updates == [] {
    } else {
      assert updates[0] in updates && forall u <- updates[1..] :: u in updates;
      TerminalsKeepChildEnded(Merge(Some(link), updates[0], link.key, stamp), updates[1..], stamp + 1);
    }
  }

  /**
   * An ended child that restarts is running again, whatever terminals of earlier runs still arrive, if
   * and only if the restart starts strictly after the end of the last run. Then it has the start and
   * the error of the restart, and no end.
   */
  lemma RestartReopensIffLater(link: Link, restart: LinkInput, late: seq<LinkInput>, stamp: nat)
    requires IsRestartOf(link, restart) && Names(link, restart)
    requires EndBefore(late, restart.startedAt.value) && forall u <- late :: Names(link, u)
    ensures var final, boundary := Folded(link, [restart] + late, stamp), LifecycleBoundary(link);
            && (final.status.Running? <==> boundary.Some? && boundary.value < restart.startedAt.value)
            && (final.status.Running? ==>
                  final.startedAt == restart.startedAt && final.endedAt.None?
                  && final.error == (if restart.error == Some("") then None else restart.error))
  {
    var reopened := Merge(Some(link), restart, link.key, stamp);
    assert ([restart] + late)[1..] == late;
    RestartMerges(link, restart, stamp);
    if reopened.status.Running? {
      EarlierTerminalsChangeNothingIff(reopened, late, stamp + 1);
    } else {
      TerminalsKeepChildEnded(reopened, late, stamp + 1);
    }
  }
}
