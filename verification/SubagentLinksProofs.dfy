/**
 * What every operation keeps: the four indexes agree, a linked child keeps its route, a route is
 * announced once per link, and a clear removes exactly its own links.
 */
module SubagentLinksProofs {
  import opened Prelude
  import opened SubagentLinks

  // ---------------------------------------------------------------------------------------------
  // One update
  // ---------------------------------------------------------------------------------------------

  /** The link and key an update selects already belong to the updated parent and child. */
  lemma SelectionFitsTheUpdate(s: Links, input: LinkInput)
    requires Agree(s) && !HasConflictingParent(s, input)
    ensures ExistingLinked(s, input) == LinkedByChild(s, input)
    ensures SelectedKey(s, input).parent == input.parent
    ensures MergedLink(s, input).child.None? ==> SelectedKey(s, input) == CorrelationKey(input.parent, input.item)
  {
    if input.child.Some? {
      var place := (input.runtime, input.parent, input.child.value);
      if place in s.byParent {
        assert s.byChild[(place.0, place.2)] == s.byParent[place];
      }
      if (input.runtime, input.child.value) in s.byChild {
        assert s.byChild[(input.runtime, input.child.value)].key.parent == input.parent by {
          var link := s.byChild[(input.runtime, input.child.value)];
          assert s.byKey[(input.runtime, link.key)] == link;
        }
      }
    }
  }

  /** A link that may be stored for `item` without breaking the agreement. */
  ghost predicate Fits(s: Links, link: Link, item: Id) {
    var holder := Lookup(s.byKey, (link.runtime, link.key));
    var displaced := Lookup(s.provisional, (link.runtime, link.parent, item));
    && link.key.parent == link.parent
    && (link.child.None? ==> link.key.tail == item)
    && (link.child.Some? && (link.runtime, link.child.value) in s.byChild ==>
          var linked := s.byChild[(link.runtime, link.child.value)];
          linked.key == link.key && linked.parent == link.parent)
    && (holder.Some? ==>
          if holder.value.child.Some? then holder.value.child == link.child else link.key.tail == item)
    && (displaced.Some? && displaced.value.key != link.key && displaced.value.child.Some? ==>
          Lookup(s.byKey, (link.runtime, displaced.value.key)) != displaced)
  }

  lemma FittingLinkKeepsAgreement(s: Links, link: Link, item: Id)
    requires Agree(s) && Fits(s, link, item)
    ensures Agree(Store(s, link, item))
  {
    FittingLinkKeepsParentIndex(s, link, item);
    FittingLinkKeepsChildIndex(s, link, item);
    FittingLinkKeepsKeyIndex(s, link, item);
    FittingLinkKeepsProvisionalIndex(s, link, item);
  }

  lemma FittingLinkKeepsParentIndex(s: Links, link: Link, item: Id)
    requires Agree(s) && Fits(s, link, item)
    ensures ParentIndexAgrees(Store(s, link, item))
  {
    hide ProvisionalIndexAgrees, KeyIndexAgrees, DropsDisplacedKey;
    var after := Store(s, link, item);
    forall k <- after.byParent
      ensures (k.0, k.2) in after.byChild && after.byChild[(k.0, k.2)] == after.byParent[k]
              && after.byParent[k].parent == k.1
    {
      if k in s.byParent {
        assert s.byChild[(k.0, k.2)] == s.byParent[k];
      }
    }
  }

  /** Storing a fitting link drops or takes the correlation key of no other linked child. */
  lemma LinkedChildKeepsItsKey(s: Links, link: Link, item: Id, k: (Id, Id))
    requires Agree(s) && Fits(s, link, item) && k in s.byChild
    requires link.child.None? || k != (link.runtime, link.child.value)
    ensures var place, l := (k.0, s.byChild[k].key), s.byChild[k];
            && place in s.byKey && s.byKey[place] == l && l.runtime == k.0 && l.child == Some(k.1)
            && (k.0, l.parent, k.1) in s.byParent
            && place != (link.runtime, link.key)
            && (DropsDisplacedKey(s, link, item) ==>
                  var displaced := s.provisional[(link.runtime, link.parent, item)];
                  place != (displaced.runtime, displaced.key))
  {
    hide ParentIndexAgrees, KeyIndexAgrees;
    assert s.byKey[(k.0, s.byChild[k].key)] == s.byChild[k];
  }

  /** Where a linked child finds its link after another one is stored. */
  lemma StoredIsIndexed(s: Links, link: Link, item: Id)
    ensures var after := Store(s, link, item);
            && (link.runtime, link.key) in after.byKey && after.byKey[(link.runtime, link.key)] == link
            && (link.child.Some? ==>
                  && after.byChild == s.byChild[(link.runtime, link.child.value) := link]
                  && after.byParent == s.byParent[(link.runtime, link.parent, link.child.value) := link])
            && (link.child.None? ==> after.byChild == s.byChild && after.byParent == s.byParent)
  {
    hide DropsDisplacedKey;
  }

  lemma OtherKeysStay(s: Links, link: Link, item: Id, place: (Id, CorrelationKey))
    requires place in s.byKey && place != (link.runtime, link.key)
    requires DropsDisplacedKey(s, link, item) ==>
               var displaced := s.provisional[(link.runtime, link.parent, item)];
               place != (displaced.runtime, displaced.key)
    ensures place in Store(s, link, item).byKey && Store(s, link, item).byKey[place] == s.byKey[place]
  {
  }

  lemma FittingLinkKeepsChildIndex(s: Links, link: Link, item: Id)
    requires Agree(s) && Fits(s, link, item)
    ensures ChildIndexAgrees(Store(s, link, item))
  {
    hide Agree, Fits, DropsDisplacedKey, Store;
    StoredIsIndexed(s, link, item);
    var after := Store(s, link, item);
    forall k <- after.byChild
      ensures var l := after.byChild[k];
              && l.runtime == k.0 && l.child == Some(k.1)
              && (k.0, l.parent, k.1) in after.byParent
              && (k.0, l.key) in after.byKey && after.byKey[(k.0, l.key)] == l
    {
      if k in s.byChild && (link.child.None? || k != (link.runtime, link.child.value)) {
        LinkedChildKeepsItsKey(s, link, item, k);
        OtherKeysStay(s, link, item, (k.0, s.byChild[k].key));
      }
    }
  }

  /** A correlation key that stays is indexed as before. */
  lemma OtherKeyKeepsItsLink(s: Links, link: Link, item: Id, k: (Id, CorrelationKey))
    requires Agree(s) && Fits(s, link, item) && k in s.byKey && k != (link.runtime, link.key)
    ensures var l := s.byKey[k];
            && l.runtime == k.0 && l.key == k.1 && l.parent == k.1.parent
            && (l.child.Some? ==>
                  && (k.0, l.child.value) in s.byChild && s.byChild[(k.0, l.child.value)] == l
                  && (link.child.None? || (k.0, l.child.value) != (link.runtime, link.child.value)))
            && (l.child.None? ==>
                  var place := (k.0, l.parent, k.1.tail);
                  && place in s.provisional && s.provisional[place] == l
                  && (place == (link.runtime, link.parent, item) ==> DropsDisplacedKey(s, link, item)))
  {
    hide ParentIndexAgrees, ProvisionalIndexAgrees, ChildIndexAgrees;
    assert s.byKey[k] == s.byKey[k];
  }

  /** Where the keys and the provisional entries are after a link is stored. */
  lemma StoredKeys(s: Links, link: Link, item: Id)
    ensures var after, place := Store(s, link, item), (link.runtime, link.parent, item);
            && (forall k <- after.byKey | k != (link.runtime, link.key) ::
                  && k in s.byKey && after.byKey[k] == s.byKey[k]
                  && (DropsDisplacedKey(s, link, item) ==> k != (s.provisional[place].runtime, s.provisional[place].key)))
            && (forall k | k != place :: k in after.provisional <==> k in s.provisional)
            && (forall k <- s.provisional | k != place :: after.provisional[k] == s.provisional[k])
            && (place in after.provisional ==> after.provisional[place] == link)
            && (link.child.None? ==> place in after.provisional)
  {
  }

  /** A kept correlation key agrees with the other indexes after the link is stored. */
  lemma KeptKeyAgrees(s: Links, link: Link, item: Id, k: (Id, CorrelationKey))
    requires Agree(s) && Fits(s, link, item)
    requires k in Store(s, link, item).byKey && k != (link.runtime, link.key)
    ensures var after := Store(s, link, item);
            var l := after.byKey[k];
            && l.runtime == k.0 && l.key == k.1 && l.parent == k.1.parent
            && match l.child
               case Some(c) => (k.0, c) in after.byChild && after.byChild[(k.0, c)] == l
               case None => (k.0, l.parent, k.1.tail) in after.provisional
                            && after.provisional[(k.0, l.parent, k.1.tail)] == l
  {
    hide Agree, Fits, DropsDisplacedKey, Store;
    StoredIsIndexed(s, link, item);
    StoredKeys(s, link, item);
    OtherKeyKeepsItsLink(s, link, item, k);
  }

  lemma FittingLinkKeepsKeyIndex(s: Links, link: Link, item: Id)
    requires Agree(s) && Fits(s, link, item)
    ensures KeyIndexAgrees(Store(s, link, item))
  {
    NewKeyFits(s, link, item);
    hide Agree, Fits, DropsDisplacedKey, Store;
    StoredIsIndexed(s, link, item);
    NewPlaceIsStored(s, link, item);
    var after := Store(s, link, item);
    forall k <- after.byKey
      ensures var l := after.byKey[k];
              && l.runtime == k.0 && l.key == k.1 && l.parent == k.1.parent
              && match l.child
                 case Some(c) => (k.0, c) in after.byChild && after.byChild[(k.0, c)] == l
                 case None => (k.0, l.parent, k.1.tail) in after.provisional
                              && after.provisional[(k.0, l.parent, k.1.tail)] == l
    {
      if k != (link.runtime, link.key) {
        KeptKeyAgrees(s, link, item, k);
      }
    }
  }

  lemma NewPlaceIsStored(s: Links, link: Link, item: Id)
    ensures var after, place := Store(s, link, item), (link.runtime, link.parent, item);
            link.child.None? ==> place in after.provisional && after.provisional[place] == link
  {
  }

  lemma NewKeyFits(s: Links, link: Link, item: Id)
    requires Fits(s, link, item)
    ensures link.key.parent == link.parent && (link.child.None? ==> link.key.tail == item)
  {
  }

  /** A provisional entry of another item keeps its correlation key, and the child under that key. */
  lemma OtherSpawnKeepsItsKey(s: Links, link: Link, item: Id, k: (Id, Id, Id))
    requires Agree(s) && Fits(s, link, item) && k in s.provisional && k != (link.runtime, link.parent, item)
    ensures var l, place := s.provisional[k], (k.0, s.provisional[k].key);
            && l.runtime == k.0 && l.parent == k.1 && l.key.parent == k.1
            && place in s.byKey && s.byKey[place].child == l.child
            && (l.child.None? ==> l.key.tail == k.2 && s.byKey[place] == l && place != (link.runtime, link.key))
            && (place == (link.runtime, link.key) ==> l.child == link.child)
            && (DropsDisplacedKey(s, link, item) ==>
                  var displaced := s.provisional[(link.runtime, link.parent, item)];
                  place != (displaced.runtime, displaced.key))
  {
    hide ParentIndexAgrees, ChildIndexAgrees;
    assert s.byKey[(k.0, s.provisional[k].key)].child == s.provisional[k].child;
  }

  lemma FittingLinkKeepsProvisionalIndex(s: Links, link: Link, item: Id)
    requires Agree(s) && Fits(s, link, item)
    ensures ProvisionalIndexAgrees(Store(s, link, item))
  {
    NewKeyFits(s, link, item);
    hide Agree, Fits, DropsDisplacedKey, Store;
    StoredIsIndexed(s, link, item);
    StoredKeys(s, link, item);
    var after := Store(s, link, item);
    forall k <- after.provisional
      ensures var l := after.provisional[k];
              && l.runtime == k.0 && l.parent == k.1 && l.key.parent == k.1
              && (k.0, l.key) in after.byKey && after.byKey[(k.0, l.key)].child == l.child
              && (l.child.None? ==> l.key.tail == k.2 && after.byKey[(k.0, l.key)] == l)
    {
      if k != (link.runtime, link.parent, item) {
        OtherSpawnKeepsItsKey(s, link, item, k);
        if (k.0, s.provisional[k].key) != (link.runtime, link.key) {
          OtherKeysStay(s, link, item, (k.0, s.provisional[k].key));
        }
      }
    }
  }

  lemma OneChildFits(s: Links, input: LinkInput)
    requires Agree(s) && !HasConflictingParent(s, input)
    ensures NamesOneChild(s, input) <==> Fits(s, MergedLink(s, input), input.item)
  {
    SelectionFitsTheUpdate(s, input);
    var link := MergedLink(s, input);
    if link.child.Some? && (link.runtime, link.child.value) in s.byChild {
      var linked := s.byChild[(link.runtime, link.child.value)];
      assert s.byKey[(link.runtime, linked.key)] == linked;
      if input.child.None? {
        var selected := SelectedLink(s, input).value;
        assert s.byKey[(link.runtime, selected.key)].child == link.child;
      }
    }
  }

  lemma UnfittingLinkBreaksAgreement(s: Links, input: LinkInput)
    requires Agree(s) && !HasConflictingParent(s, input) && !NamesOneChild(s, input)
    ensures !Agree(Upserted(s, input))
  {
    SelectionFitsTheUpdate(s, input);
    var r := input.runtime;
    var link := MergedLink(s, input);
    var after := Upserted(s, input);
    var holder := Lookup(s.byKey, (r, link.key));
    if holder.Some? && holder.value.child.Some? && holder.value.child != link.child {
      // The other child is still indexed, but its key now names `link`.
      var c := holder.value.child.value;
      assert (r, c) in after.byChild && after.byChild[(r, c)] == holder.value;
      assert after.byKey[(r, link.key)] == link;
    } else if holder.Some? && holder.value.child.None? && link.key.tail != input.item {
      // The unlinked spawn stays provisional under its own item, without its key.
      var place := (r, holder.value.parent, link.key.tail);
      assert s.provisional[place] == holder.value;
      assert after.provisional[place] == holder.value;
      assert after.byKey[(r, link.key)] == link;
      assert link.child.Some?;
    } else {
      // The displaced child is still indexed, but its key is dropped.
      var displaced := Provisional(s, input).value;
      var c := displaced.child.value;
      assert s.byKey[(r, displaced.key)] == displaced;
      assert s.byChild[(r, c)] == displaced;
      assert (r, displaced.key) !in after.byKey;
      assert after.byChild[(r, c)] == displaced;
    }
  }

  /**
   * An accepted update keeps the indexes in agreement if and only if the correlation key it uses
   * does not belong to another child.
   */
  lemma UpdateKeepsAgreementExactly(s: Links, input: LinkInput)
    requires Agree(s) && !HasConflictingParent(s, input)
    ensures Agree(Upserted(s, input)) <==> NamesOneChild(s, input)
  {
    if NamesOneChild(s, input) {
      OneChildFits(s, input);
      FittingLinkKeepsAgreement(s, MergedLink(s, input), input.item);
    } else {
      UnfittingLinkBreaksAgreement(s, input);
    }
  }

  // ---------------------------------------------------------------------------------------------
  // Failing spawns and clearing
  // ---------------------------------------------------------------------------------------------

  /** Only unlinked spawns change, so what the linked indexes hold stays as it is. */
  lemma FailingLeavesLinked(s: Links, runtime: Id, parent: Id, error: string)
    ensures var after := FailUnlinked(s, runtime, parent, error);
            && after.byParent == s.byParent && after.byChild == s.byChild
            && after.byKey.Keys == s.byKey.Keys && after.provisional.Keys == s.provisional.Keys
            && (forall k <- s.byKey ::
                  after.byKey[k] == if k.0 == runtime && k.1.parent == parent && IsFailableSpawn(s.byKey[k])
                                    then Failed(s.byKey[k], error) else s.byKey[k])
            && (forall k <- s.provisional ::
                  after.provisional[k]
                  == if k.0 == runtime && k.1 == parent && IsFailableSpawn(s.provisional[k])
                     then Failed(s.provisional[k], error) else s.provisional[k])
  {
  }

  lemma FailingKeepsLinkedIndexes(s: Links, runtime: Id, parent: Id, error: string)
    requires ParentIndexAgrees(s) && ChildIndexAgrees(s)
    ensures ParentIndexAgrees(FailUnlinked(s, runtime, parent, error))
    ensures ChildIndexAgrees(FailUnlinked(s, runtime, parent, error))
  {
    FailingLeavesLinked(s, runtime, parent, error);
    hide FailUnlinked;
  }

  lemma FailingKeepsKeyIndex(s: Links, runtime: Id, parent: Id, error: string)
    requires KeyIndexAgrees(s)
    ensures KeyIndexAgrees(FailUnlinked(s, runtime, parent, error))
  {
    FailingLeavesLinked(s, runtime, parent, error);
    var after := FailUnlinked(s, runtime, parent, error);
    hide FailUnlinked;
    forall k <- after.byKey
      ensures var l := after.byKey[k];
              && l.runtime == k.0 && l.key == k.1 && l.parent == k.1.parent
              && match l.child
                 case Some(c) => (k.0, c) in after.byChild && after.byChild[(k.0, c)] == l
                 case None => (k.0, l.parent, k.1.tail) in after.provisional
                              && after.provisional[(k.0, l.parent, k.1.tail)] == l
    {
      var before := s.byKey[k];
      if before.child.None? {
        assert s.provisional[(k.0, before.parent, k.1.tail)] == before;
      }
    }
  }

  lemma FailingKeepsProvisionalIndex(s: Links, runtime: Id, parent: Id, error: string)
    requires ProvisionalIndexAgrees(s)
    ensures ProvisionalIndexAgrees(FailUnlinked(s, runtime, parent, error))
  {
    FailingLeavesLinked(s, runtime, parent, error);
    hide FailUnlinked;
  }

  lemma FailingSpawnsKeepsAgreement(s: Links, runtime: Id, parent: Id, error: string)
    requires Agree(s)
    ensures Agree(FailUnlinked(s, runtime, parent, error))
  {
    hide ParentIndexAgrees, ChildIndexAgrees, KeyIndexAgrees, ProvisionalIndexAgrees, FailUnlinked;
    FailingKeepsLinkedIndexes(s, runtime, parent, error);
    FailingKeepsKeyIndex(s, runtime, parent, error);
    FailingKeepsProvisionalIndex(s, runtime, parent, error);
  }

  lemma RemovingKeepsLinkedIndexes(s: Links, keys: set<(Id, CorrelationKey)>)
    requires ParentIndexAgrees(s) && ChildIndexAgrees(s)
    ensures ParentIndexAgrees(Without(s, keys)) && ChildIndexAgrees(Without(s, keys))
  {
    var after := Without(s, keys);
    forall k <- after.byParent
      ensures (k.0, k.2) in after.byChild && after.byChild[(k.0, k.2)] == after.byParent[k]
              && after.byParent[k].parent == k.1
    {
      assert s.byChild[(k.0, k.2)] == s.byParent[k];
    }
    hide ParentIndexAgrees;
    assert ChildIndexAgrees(after);
  }

  lemma RemovingKeepsKeyIndex(s: Links, keys: set<(Id, CorrelationKey)>)
    requires KeyIndexAgrees(s)
    ensures KeyIndexAgrees(Without(s, keys))
  {
    var after := Without(s, keys);
    forall k <- after.byKey
      ensures var l := after.byKey[k];
              && l.runtime == k.0 && l.key == k.1 && l.parent == k.1.parent
              && match l.child
                 case Some(c) => (k.0, c) in after.byChild && after.byChild[(k.0, c)] == l
                 case None => (k.0, l.parent, k.1.tail) in after.provisional
                              && after.provisional[(k.0, l.parent, k.1.tail)] == l
    {
      assert s.byKey[k] == after.byKey[k];
    }
  }

  lemma RemovingKeepsProvisionalIndex(s: Links, keys: set<(Id, CorrelationKey)>)
    requires ProvisionalIndexAgrees(s)
    ensures ProvisionalIndexAgrees(Without(s, keys))
  {
  }

  lemma RemovingKeysKeepsAgreement(s: Links, keys: set<(Id, CorrelationKey)>)
    requires Agree(s)
    ensures Agree(Without(s, keys))
  {
    hide ParentIndexAgrees, ChildIndexAgrees, KeyIndexAgrees, ProvisionalIndexAgrees, Without;
    RemovingKeepsLinkedIndexes(s, keys);
    RemovingKeepsKeyIndex(s, keys);
    RemovingKeepsProvisionalIndex(s, keys);
  }

  /** Clearing a session removes exactly the links that name it, from every index. */
  lemma ClearedSessionIsGone(s: Links, runtime: Option<Id>, session: Id)
    requires Agree(s)
    ensures var after := Without(s, SessionKeys(s, runtime, session));
            && (forall k :: k in after.byParent <==>
                  k in s.byParent && !((runtime == None || runtime == Some(k.0)) && Touches(s.byParent[k], session)))
            && (forall k :: k in after.byChild <==>
                  k in s.byChild && !((runtime == None || runtime == Some(k.0)) && Touches(s.byChild[k], session)))
            && (forall k :: k in after.byKey <==>
                  k in s.byKey && !((runtime == None || runtime == Some(k.0)) && Touches(s.byKey[k], session)))
            && (forall k :: k in after.provisional <==>
                  k in s.provisional && !((runtime == None || runtime == Some(k.0)) && Touches(s.provisional[k], session)))
  {
    var keys := SessionKeys(s, runtime, session);
    forall k | k in s.byParent
      ensures (k.0, s.byParent[k].key) in keys <==>
              (runtime == None || runtime == Some(k.0)) && Touches(s.byParent[k], session)
    {
      assert s.byChild[(k.0, k.2)] == s.byParent[k];
    }
    forall k | k in s.provisional
      ensures (k.0, s.provisional[k].key) in keys <==>
              (runtime == None || runtime == Some(k.0)) && Touches(s.provisional[k], session)
    {
      assert (k.0, s.provisional[k].key) in s.byKey;
    }
  }

  /** A key of the runtime, index by index, is a key of a link of the runtime. */
  lemma RuntimeOwnsItsKeys(s: Links, runtime: Id)
    requires Agree(s)
    ensures forall k <- s.byParent :: (k.0, s.byParent[k].key) in RuntimeKeys(s, runtime) <==> k.0 == runtime
    ensures forall k <- s.byChild :: (k.0, s.byChild[k].key) in RuntimeKeys(s, runtime) <==> k.0 == runtime
    ensures forall k <- s.provisional :: (k.0, s.provisional[k].key) in RuntimeKeys(s, runtime) <==> k.0 == runtime
  {
    hide KeyIndexAgrees;
    forall k <- s.byParent ensures (k.0, s.byParent[k].key) in s.byKey {
      assert s.byChild[(k.0, k.2)] == s.byParent[k];
    }
    forall k <- s.provisional ensures (k.0, s.provisional[k].key) in s.byKey {
    }
  }

  lemma WithoutRuntimeByParent(s: Links, keys: set<(Id, CorrelationKey)>, runtime: Id)
    requires forall k <- s.byParent :: (k.0, s.byParent[k].key) in keys <==> k.0 == runtime
    ensures Without(s, keys).byParent == map k | k in s.byParent && k.0 != runtime :: s.byParent[k]
  {
  }

  lemma WithoutRuntimeByChild(s: Links, keys: set<(Id, CorrelationKey)>, runtime: Id)
    requires forall k <- s.byChild :: (k.0, s.byChild[k].key) in keys <==> k.0 == runtime
    ensures Without(s, keys).byChild == map k | k in s.byChild && k.0 != runtime :: s.byChild[k]
  {
  }

  lemma WithoutRuntimeProvisional(s: Links, keys: set<(Id, CorrelationKey)>, runtime: Id)
    requires forall k <- s.provisional :: (k.0, s.provisional[k].key) in keys <==> k.0 == runtime
    ensures Without(s, keys).provisional == map k | k in s.provisional && k.0 != runtime :: s.provisional[k]
  {
  }

  lemma WithoutRuntimeByKey(s: Links, runtime: Id)
    ensures Without(s, RuntimeKeys(s, runtime)).byKey == map k | k in s.byKey && k.0 != runtime :: s.byKey[k]
  {
  }

  /** Clearing a runtime erases it from all four indexes and leaves every other entry as it was. */
  lemma ClearedRuntimeIsGone(s: Links, runtime: Id)
    requires Agree(s)
    ensures var after := Without(s, RuntimeKeys(s, runtime));
            && after.byParent == (map k | k in s.byParent && k.0 != runtime :: s.byParent[k])
            && after.byChild == (map k | k in s.byChild && k.0 != runtime :: s.byChild[k])
            && after.byKey == (map k | k in s.byKey && k.0 != runtime :: s.byKey[k])
            && after.provisional == (map k | k in s.provisional && k.0 != runtime :: s.provisional[k])
  {
    RuntimeOwnsItsKeys(s, runtime);
    hide Agree, Without, RuntimeKeys;
    WithoutRuntimeByParent(s, RuntimeKeys(s, runtime), runtime);
    WithoutRuntimeByChild(s, RuntimeKeys(s, runtime), runtime);
    WithoutRuntimeProvisional(s, RuntimeKeys(s, runtime), runtime);
    WithoutRuntimeByKey(s, runtime);
  }

  // ---------------------------------------------------------------------------------------------
  // Runs
  // ---------------------------------------------------------------------------------------------

  datatype Operation =
    | Update(input: LinkInput)
    | Record(runtime: Id, thread: ThreadSnapshot)
    | FailSpawns(failRuntime: Id, parent: Id, error: string)
    | ClearSession(scope: Option<Id>, session: Id)
    | ClearRuntime(clearedRuntime: Id)

  /** The update an operation amounts to, if it is one. */
  function InputOf(s: Links, op: Operation): Option<LinkInput> {
    match op
    case Update(input) => Some(input)
    case Record(runtime, thread) => ThreadInput(s, runtime, thread)
    case _ => None
  }

  function Step(s: Links, op: Operation): Links {
    match op
    case Update(_) => Upserted(s, op.input)
    case Record(_, _) => if InputOf(s, op).Some? then Upserted(s, InputOf(s, op).value) else s
    case FailSpawns(runtime, parent, error) => FailUnlinked(s, runtime, parent, error)
    case ClearSession(scope, session) => Without(s, SessionKeys(s, scope, session))
    case ClearRuntime(runtime) => Without(s, RuntimeKeys(s, runtime))
  }

  function Run(s: Links, ops: seq<Operation>): Links
    decreases |ops|
  {
    if ops == [] then s else Run(Step(s, ops[0]), ops[1..])
  }

  predicate IsClear(op: Operation) {
    op.ClearSession? || op.ClearRuntime?
  }

  /** The child of every spawn item; an item belongs to a parent thread of a runtime. */
  type Spawns = map<(Id, Id, Id), Id>

  /** A spawn item names one child, and no child of a parent has the identifier of a spawn item of that parent. */
  predicate InputFollows(spawns: Spawns, input: LinkInput) {
    var spawn := (input.runtime, input.parent, input.item);
    && (input.child.None? || input.preferItemKey ==> spawn in spawns)
    && (input.child.Some? ==> (input.runtime, input.parent, input.child.value) !in spawns)
    && (input.child.Some? && spawn in spawns ==> input.child.value == spawns[spawn])
  }

  /** The update of a recorded thread names the same spawn and child in every state. */
  predicate Follows(spawns: Spawns, op: Operation) {
    InputOf(NO_LINKS, op).Some? ==> InputFollows(spawns, InputOf(NO_LINKS, op).value)
  }

  predicate ChildFollows(spawns: Spawns, spawn: (Id, Id, Id), child: Option<Id>) {
    if spawn in spawns then child == None || child == Some(spawns[spawn]) else child == Some(spawn.2)
  }

  ghost predicate KeysFollow(spawns: Spawns, s: Links) {
    && (forall k <- s.byKey :: ChildFollows(spawns, (k.0, k.1.parent, k.1.tail), s.byKey[k].child))
    && (forall k <- s.provisional :: k in spawns && ChildFollows(spawns, k, s.provisional[k].child))
  }

  lemma FollowingInputNamesOneChild(spawns: Spawns, s: Links, input: LinkInput)
    requires Agree(s) && KeysFollow(spawns, s) && InputFollows(spawns, input) && !HasConflictingParent(s, input)
    ensures NamesOneChild(s, input)
  {
    SelectionFitsTheUpdate(s, input);
    var linked := LinkedByChild(s, input);
    if linked.Some? {
      assert s.byKey[(input.runtime, linked.value.key)] == linked.value;
    }
    var displaced := Provisional(s, input);
    if displaced.Some? {
      assert s.byKey[(input.runtime, displaced.value.key)].child == displaced.value.child;
      if displaced.value.child.Some?
         && Lookup(s.byKey, (input.runtime, displaced.value.key)) == displaced {
        assert s.byChild[(input.runtime, displaced.value.child.value)] == displaced.value;
      }
    }
  }

  lemma FollowingLinkKeepsKeys(spawns: Spawns, s: Links, link: Link, item: Id)
    requires KeysFollow(spawns, s)
    requires ChildFollows(spawns, (link.runtime, link.key.parent, link.key.tail), link.child)
    requires var spawn := (link.runtime, link.parent, item);
             (link.child.None? ==> spawn in spawns) && (spawn in spawns ==> ChildFollows(spawns, spawn, link.child))
    ensures KeysFollow(spawns, Store(s, link, item))
  {
  }

  lemma FollowingInputKeepsKeys(spawns: Spawns, s: Links, input: LinkInput)
    requires Agree(s) && KeysFollow(spawns, s) && InputFollows(spawns, input) && !HasConflictingParent(s, input)
    ensures KeysFollow(spawns, Upserted(s, input))
  {
    SelectionFitsTheUpdate(s, input);
    var link := MergedLink(s, input);
    var linked := LinkedByChild(s, input);
    var displaced := Provisional(s, input);
    if linked.Some? {
      assert s.byKey[(input.runtime, linked.value.key)] == linked.value;
    } else if displaced.Some? {
      assert s.byKey[(input.runtime, displaced.value.key)].child == displaced.value.child;
    }
    hide Agree;
    FollowingLinkKeepsKeys(spawns, s, link, input.item);
    hide Store, KeysFollow;
  }

  lemma FollowingInputKeepsAgreement(spawns: Spawns, s: Links, input: LinkInput)
    requires Agree(s) && KeysFollow(spawns, s) && InputFollows(spawns, input)
    ensures Agree(Upserted(s, input)) && KeysFollow(spawns, Upserted(s, input))
  {
    if !HasConflictingParent(s, input) {
      FollowingInputKeepsKeys(spawns, s, input);
      FollowingInputNamesOneChild(spawns, s, input);
      UpdateKeepsAgreementExactly(s, input);
    }
  }

  lemma StepKeepsAgreement(spawns: Spawns, s: Links, op: Operation)
    requires Agree(s) && KeysFollow(spawns, s) && Follows(spawns, op)
    ensures Agree(Step(s, op)) && KeysFollow(spawns, Step(s, op))
  {
    hide Agree;
    match op
    case FailSpawns(runtime, parent, error) =>
      FailingSpawnsKeepsAgreement(s, runtime, parent, error);
    case ClearSession(scope, session) =>
      RemovingKeysKeepsAgreement(s, SessionKeys(s, scope, session));
    case ClearRuntime(runtime) =>
      RemovingKeysKeepsAgreement(s, RuntimeKeys(s, runtime));
    case _ =>
      if InputOf(s, op).Some? {
        FollowingInputKeepsAgreement(spawns, s, InputOf(s, op).value);
      }
  }

  /** Over every run whose spawn items each name one child, the four indexes agree. */
  lemma {:induction false} RunKeepsAgreement(spawns: Spawns, s: Links, ops: seq<Operation>)
    requires Agree(s) && KeysFollow(spawns, s)
    requires forall op <- ops :: Follows(spawns, op)
    ensures Agree(Run(s, ops)) && KeysFollow(spawns, Run(s, ops))
    decreases |ops|
  {
    if ops == [] {
    } else {
      StepKeepsAgreement(spawns, s, ops[0]);
      RunKeepsAgreement(spawns, Step(s, ops[0]), ops[1..]);
    }
  }

  // ---------------------------------------------------------------------------------------------
  // Routes
  // ---------------------------------------------------------------------------------------------

  /** An update that stores a link for a linked child stores it under the route the child has. */
  lemma UpdateKeepsRoute(s: Links, input: LinkInput, child: Id)
    requires Agree(s) && !HasConflictingParent(s, input) && RouteForChild(s, input.runtime, child).Some?
    requires MergedLink(s, input).child == Some(child)
    ensures RouteOf(MergedLink(s, input)) == RouteForChild(s, input.runtime, child)
  {
    SelectionFitsTheUpdate(s, input);
    var linked := s.byChild[(input.runtime, child)];
    assert s.byKey[(input.runtime, linked.key)] == linked;
    if input.child.None? {
      var selected := SelectedLink(s, input).value;
      assert s.byKey[(input.runtime, selected.key)].child == Some(child);
      assert s.byKey[(input.runtime, selected.key)] == linked;
    }
  }

  /** Between clears, nothing moves a linked child to another parent or correlation key. */
  lemma RouteOfLinkedChildIsStable(s: Links, op: Operation, runtime: Id, child: Id)
    requires Agree(s) && !IsClear(op) && RouteForChild(s, runtime, child).Some?
    ensures RouteForChild(Step(s, op), runtime, child) == RouteForChild(s, runtime, child)
  {
    if InputOf(s, op).Some? && !HasConflictingParent(s, InputOf(s, op).value) {
      var input := InputOf(s, op).value;
      RouteAfterUpdate(s, input, runtime, child);
      hide Agree, MergedLink, Upserted, RouteForChild;
      if input.runtime == runtime && MergedLink(s, input).child == Some(child) {
        UpdateKeepsRoute(s, input, child);
      }
      MergedLinkIsOfRuntime(s, input);
    }
  }

  lemma MergedLinkIsOfRuntime(s: Links, input: LinkInput)
    ensures MergedLink(s, input).runtime == input.runtime
  {
  }

  /** A parent conflict is refused, names the parent in force, and changes nothing. */
  lemma ConflictingParentIsRefusedUnchanged(s: Links, input: LinkInput)
    requires Agree(s)
    ensures UpsertOutcome(s, input).Refused? <==>
            input.child.Some? && RouteForChild(s, input.runtime, input.child.value).Some?
            && RouteForChild(s, input.runtime, input.child.value).value.parent != input.parent
    ensures UpsertOutcome(s, input).Refused? ==>
              Upserted(s, input) == s
              && RouteForChild(s, input.runtime, input.child.value).value.parent == UpsertOutcome(s, input).parent
  {
  }

  function AnnouncedBy(s: Links, input: LinkInput): Option<Route> {
    if UpsertOutcome(s, input).Stored? then UpsertOutcome(s, input).announced else None
  }

  function Announcement(s: Links, op: Operation): Option<Route> {
    if InputOf(s, op).Some? then AnnouncedBy(s, InputOf(s, op).value) else None
  }

  function Announcements(s: Links, ops: seq<Operation>): (routes: seq<Route>)
    decreases |ops|
  {
    if ops == [] then []
    else
      var rest := Announcements(Step(s, ops[0]), ops[1..]);
      if Announcement(s, ops[0]).Some? then [Announcement(s, ops[0]).value] + rest else rest
  }

  function CountFor(routes: seq<Route>, runtime: Id, child: Id): nat {
    if routes == [] then 0
    else (if routes[0].runtime == runtime && routes[0].child == child then 1 else 0)
         + CountFor(routes[1..], runtime, child)
  }

  /** The update is of the spawn item of an already linked child, and does not name the child. */
  predicate ReachesLinked(s: Links, input: LinkInput, runtime: Id, child: Id) {
    input.child.None? && input.runtime == runtime && MergedLink(s, input).child == Some(child)
  }

  predicate IsChildlessUpdateOf(s: Links, op: Operation, runtime: Id, child: Id) {
    op.Update? && ReachesLinked(s, op.input, runtime, child)
  }

  function ChildlessUpdates(s: Links, ops: seq<Operation>, runtime: Id, child: Id): nat
    decreases |ops|
  {
    if ops == [] then 0
    else (if IsChildlessUpdateOf(s, ops[0], runtime, child) then 1 else 0)
         + ChildlessUpdates(Step(s, ops[0]), ops[1..], runtime, child)
  }

  /** Naming no child, an update can only reach a child that is linked already. */
  lemma ChildlessUpdateReachesLinkedChild(s: Links, input: LinkInput)
    requires Agree(s) && input.child.None? && MergedLink(s, input).child.Some?
    ensures RouteForChild(s, input.runtime, MergedLink(s, input).child.value) == RouteOf(MergedLink(s, input))
  {
    SelectionFitsTheUpdate(s, input);
    var selected := SelectedLink(s, input).value;
    assert s.byKey[(input.runtime, selected.key)].child == selected.child;
  }

  lemma RouteAfterUpdate(s: Links, input: LinkInput, runtime: Id, child: Id)
    requires !HasConflictingParent(s, input)
    ensures var link := MergedLink(s, input);
            RouteForChild(Upserted(s, input), runtime, child)
            == if link.runtime == runtime && link.child == Some(child) then RouteOf(link)
               else RouteForChild(s, runtime, child)
  {
  }

  lemma AnnouncedByUpdate(s: Links, input: LinkInput)
    requires Agree(s) && !HasConflictingParent(s, input)
    ensures var link := MergedLink(s, input);
            UpsertOutcome(s, input).announced
            == if link.child.None? then None
               else if input.child.None? || RouteForChild(s, input.runtime, link.child.value).None? then RouteOf(link)
               else None
    ensures var link := MergedLink(s, input);
            input.child.None? && link.child.Some? ==> RouteForChild(s, input.runtime, link.child.value).Some?
  {
    var link := MergedLink(s, input);
    if input.child.None? && link.child.Some? {
      ChildlessUpdateReachesLinkedChild(s, input);
    } else if input.child.Some? && PreviousRoute(s, input).Some? {
      RouteOfLinkedChildIsStable(s, Update(input), input.runtime, input.child.value);
      RouteAfterUpdate(s, input, input.runtime, input.child.value);
    }
  }

  lemma OneAnnouncementOfUpdate(s: Links, input: LinkInput, runtime: Id, child: Id)
    requires Agree(s)
    ensures var route, after := AnnouncedBy(s, input), Upserted(s, input);
            && (route.Some? ==> RouteForChild(after, route.value.runtime, route.value.child) == route)
            && ((route.Some? && route.value.runtime == runtime && route.value.child == child) <==>
                (ReachesLinked(s, input, runtime, child)
                 || (RouteForChild(s, runtime, child).None? && RouteForChild(after, runtime, child).Some?)))
    ensures ReachesLinked(s, input, runtime, child) ==> RouteForChild(s, runtime, child).Some?
  {
    if !HasConflictingParent(s, input) {
      AnnouncedByUpdate(s, input);
      RouteAfterUpdate(s, input, runtime, child);
      var route := AnnouncedBy(s, input);
      if route.Some? {
        RouteAfterUpdate(s, input, route.value.runtime, route.value.child);
      }
      hide Agree, MergedLink, Upserted, UpsertOutcome, RouteForChild, HasConflictingParent;
    }
  }

  lemma OneAnnouncement(s: Links, op: Operation, runtime: Id, child: Id)
    requires Agree(s) && !IsClear(op)
    ensures var route := Announcement(s, op);
            && (route.Some? ==> RouteForChild(Step(s, op), route.value.runtime, route.value.child) == route)
            && ((route.Some? && route.value.runtime == runtime && route.value.child == child) <==>
                (IsChildlessUpdateOf(s, op, runtime, child)
                 || (RouteForChild(s, runtime, child).None? && RouteForChild(Step(s, op), runtime, child).Some?)))
    ensures IsChildlessUpdateOf(s, op, runtime, child) ==> RouteForChild(s, runtime, child).Some?
  {
    if InputOf(s, op).Some? {
      OneAnnouncementOfUpdate(s, InputOf(s, op).value, runtime, child);
      hide Agree, MergedLink, Upserted, RouteForChild, HasConflictingParent;
    }
  }

  lemma CountOfOne(route: Route, rest: seq<Route>, runtime: Id, child: Id)
    ensures CountFor([route] + rest, runtime, child)
            == (if route.runtime == runtime && route.child == child then 1 else 0) + CountFor(rest, runtime, child)
  {
    assert ([route] + rest)[1..] == rest;
  }

  /**
   * In a run without clears, a child is announced once for becoming linked and once more for every
   * childless update of its spawn item, always with the one route it keeps.
   */
  lemma {:induction false} AnnouncementsAreCounted(
    spawns: Spawns, s: Links, ops: seq<Operation>, runtime: Id, child: Id)
    requires Agree(s) && KeysFollow(spawns, s)
    requires forall op <- ops :: Follows(spawns, op) && !IsClear(op)
    ensures CountFor(Announcements(s, ops), runtime, child)
            == ChildlessUpdates(s, ops, runtime, child)
               + (if RouteForChild(s, runtime, child).None? && RouteForChild(Run(s, ops), runtime, child).Some?
                  then 1 else 0)
    ensures RouteForChild(s, runtime, child).Some? ==>
              RouteForChild(Run(s, ops), runtime, child) == RouteForChild(s, runtime, child)
    ensures forall route <- Announcements(s, ops) ::
              RouteForChild(Run(s, ops), route.runtime, route.child) == Some(route)
    decreases |ops|
  {
    if ops == [] {
    } else {
      var next := Step(s, ops[0]);
      StepKeepsAgreement(spawns, s, ops[0]);
      AnnouncementsAreCounted(spawns, next, ops[1..], runtime, child);
      OneAnnouncement(s, ops[0], runtime, child);
      if RouteForChild(s, runtime, child).Some? {
        RouteOfLinkedChildIsStable(s, ops[0], runtime, child);
      }
      var route := Announcement(s, ops[0]);
      if route.Some? {
        CountOfOne(route.value, Announcements(next, ops[1..]), runtime, child);
        AnnouncementsAreCounted(spawns, next, ops[1..], route.value.runtime, route.value.child);
      }
    }
  }

  /** A child linked in a run from the empty state is announced exactly once iff no childless update follows. */
  lemma AnnouncedExactlyOnceIff(spawns: Spawns, ops: seq<Operation>, runtime: Id, child: Id)
    requires forall op <- ops :: Follows(spawns, op) && !IsClear(op)
    requires RouteForChild(Run(NO_LINKS, ops), runtime, child).Some?
    ensures CountFor(Announcements(NO_LINKS, ops), runtime, child) == 1
            <==> ChildlessUpdates(NO_LINKS, ops, runtime, child) == 0
  {
    AnnouncementsAreCounted(spawns, NO_LINKS, ops, runtime, child);
  }

  /**
   * Once a child is linked, every later update that names another parent is refused and names the
   * parent in force, through any run without clears; what it would have changed stays as it is.
   */
  lemma SecondParentIsRefused(
    spawns: Spawns, s: Links, ops: seq<Operation>, input: LinkInput, linked: Route)
    requires Agree(s) && KeysFollow(spawns, s)
    requires forall op <- ops :: Follows(spawns, op) && !IsClear(op)
    requires input.child.Some? && RouteForChild(s, input.runtime, input.child.value) == Some(linked)
    ensures var later := Run(s, ops);
            && RouteForChild(later, input.runtime, input.child.value) == Some(linked)
            && (input.parent != linked.parent <==> UpsertOutcome(later, input).Refused?)
            && (input.parent != linked.parent ==>
                  UpsertOutcome(later, input) == Refused(linked.parent) && Upserted(later, input) == later)
  {
    RunKeepsAgreement(spawns, s, ops);
    AnnouncementsAreCounted(spawns, s, ops, input.runtime, input.child.value);
    hide Run, KeysFollow, Follows;
    ConflictingParentIsRefusedUnchanged(Run(s, ops), input);
  }

  // ---------------------------------------------------------------------------------------------
  // Runs that the conditions above shut out
  // ---------------------------------------------------------------------------------------------

  /** An update of spawn item 7 of parent 1 in runtime 0. */
  function SpawnUpdate(child: Option<Id>, status: Status): LinkInput {
    LinkInput(0, 1, child, 7, status, None, None, None, true, false)
  }

  /** A childless update after the child is linked announces the same route again. */
  lemma RouteCanBeAnnouncedTwice()
    ensures var spawned := Step(NO_LINKS, Update(SpawnUpdate(None, Running)));
            var linked := Step(spawned, Update(SpawnUpdate(Some(9), Running)));
            var route := Some(Route(0, 1, 9, CorrelationKey(1, 7)));
            && Announcement(spawned, Update(SpawnUpdate(Some(9), Running))) == route
            && Announcement(linked, Update(SpawnUpdate(None, Running))) == route
  {
    var spawned := Step(NO_LINKS, Update(SpawnUpdate(None, Running)));
    var linked := Step(spawned, Update(SpawnUpdate(Some(9), Running)));
    assert Provisional(spawned, SpawnUpdate(Some(9), Running)).Some?;
    assert Provisional(linked, SpawnUpdate(None, Running)).Some?;
  }

  /** A spawn item that names two children leaves the first one without its correlation key. */
  lemma TwoChildrenOfOneSpawnBreakAgreement()
    ensures var first := Step(NO_LINKS, Update(SpawnUpdate(Some(9), Running)));
            Agree(first) && !Agree(Step(first, Update(SpawnUpdate(Some(10), Running))))
  {
    var first := Step(NO_LINKS, Update(SpawnUpdate(Some(9), Running)));
    UpdateKeepsAgreementExactly(NO_LINKS, SpawnUpdate(Some(9), Running));
    UpdateKeepsAgreementExactly(first, SpawnUpdate(Some(10), Running));
  }
}
