/** The link state as the adapter keeps it: four maps that every operation updates in place. */
module SubagentLinkStates {
  import opened Prelude
  import opened SubagentLinks
  import opened SubagentLinksProofs

  class SubagentLinkState {
    var linksByParent: map<(Id, Id, Id), Link>
    var linksByChild: map<(Id, Id), Link>
    var linksByKey: map<(Id, CorrelationKey), Link>
    var provisionalByParent: map<(Id, Id, Id), Link>
    var nextStamp: nat

    ghost function Value(): Links
      reads this
    {
      Links(linksByParent, linksByChild, linksByKey, provisionalByParent, nextStamp)
    }

    ghost predicate Valid()
      reads this
    {
      Agree(Value())
    }

    constructor ()
      ensures Valid() && Value() == NO_LINKS
    {
      linksByParent, linksByChild, linksByKey, provisionalByParent := map[], map[], map[], map[];
      nextStamp := 0;
    }

    /** Stores or refuses an update; the outcome says which route the listeners learn. */
    method UpsertLink(input: LinkInput) returns (outcome: Outcome)
      modifies this
      ensures outcome == UpsertOutcome(old(Value()), input)
      ensures Value() == Upserted(old(Value()), input)
      ensures old(Valid()) ==> (Valid() <==> outcome.Refused? || NamesOneChild(old(Value()), input))
    {
      ghost var before := Value();
      AgreementAfterUpdate(before, input);
      hide Agree, NamesOneChild, Merge, Store, RouteOf;
      var linkedByChild := if input.child.Some?
      then Lookup(linksByChild, (input.runtime, input.child.value)) else None;
      var previousRoute := if linkedByChild.Some? then RouteOf(linkedByChild.value) else None;
      var provisional := Lookup(provisionalByParent, (input.runtime, input.parent, input.item));
      if linkedByChild.Some? && linkedByChild.value.parent != input.parent {
        return Refused(linkedByChild.value.parent);
      }
      var linked := if input.child.Some?
      then OrElse(Lookup(linksByParent, (input.runtime, input.parent, input.child.value)), linkedByChild) else None;
      var key := if linked.Some? then linked.value.key
      else if provisional.Some? then provisional.value.key
      else DefaultKey(input);
      var existing := OrElse(linked, OrElse(provisional, Lookup(linksByKey, (input.runtime, key))));
      assert linked == ExistingLinked(before, input) && key == SelectedKey(before, input);
      assert existing == SelectedLink(before, input);
      var link := Merge(existing, input, key, nextStamp);
      StoreLink(link, input.item);
      nextStamp := nextStamp + 1;
      var route := RouteOf(link);
      var isNew := route.Some? && previousRoute != route;
      var statusChanged := existing.None? || existing.value.status != link.status;
      outcome := Stored(link, if isNew then route else None,
      if isNew || (route.Some? && statusChanged) then route else None);
    }

    method StoreLink(link: Link, item: Id)
      modifies this
      ensures Value() == Store(old(Value()), link, item) && nextStamp == old(nextStamp)
    {
      var place := (link.runtime, link.parent, item);
      var displaced := Lookup(provisionalByParent, place);
      if displaced.Some? && displaced.value.key != link.key {
        var displacedKey := (displaced.value.runtime, displaced.value.key);
        if Lookup(linksByKey, displacedKey) == displaced {
          linksByKey := linksByKey - {displacedKey};
        }
      }
      linksByKey := linksByKey[(link.runtime, link.key) := link];
      if link.child.None? || displaced.Some? {
        provisionalByParent := provisionalByParent[place := link];
      }
      if link.child.Some? {
        linksByParent := linksByParent[(link.runtime, link.parent, link.child.value) := link];
        linksByChild := linksByChild[(link.runtime, link.child.value) := link];
      }
    }

    /** Fails the spawns of a parent that never got a child. */
    method FailUnlinkedSpawns(runtime: Id, parent: Id, error: string)
      requires Valid()
      modifies this
      ensures Valid() && Value() == FailUnlinked(old(Value()), runtime, parent, error)
    {
      ghost var before := Value();
      var places := set k | k in provisionalByParent && k.0 == runtime && k.1 == parent;
      forall place <- places ensures SpawnAt(before, place) {
        AgreeingSpawn(before, place);
      }
      FailSpawnsAt(places, error);
      FailedEverywhere(before, runtime, parent, error);
      FailingSpawnsKeepsAgreement(before, runtime, parent, error);
    }

    method FailSpawnAt(place: (Id, Id, Id), error: string, ghost before: Links, ghost done: set<(Id, Id, Id)>)
      requires SpawnAt(before, place) && place !in done
      requires Value() == FailedAt(before, done, error)
      modifies this
      ensures Value() == FailedAt(before, done + {place}, error)
    {
      var link := provisionalByParent[place];
      FailingOneMore(before, done, place, error);
      if IsFailableSpawn(link) {
        provisionalByParent := provisionalByParent[place := Failed(link, error)];
        linksByKey := linksByKey[(link.runtime, link.key) := Failed(link, error)];
      }
    }

    method FailSpawnsAt(places: set<(Id, Id, Id)>, error: string)
      requires forall place <- places :: SpawnAt(Value(), place)
      modifies this
      ensures Value() == FailedAt(old(Value()), places, error)
    {
      ghost var before := Value();
      var pending := places;
      FailedNowhere(before, error);
      assert places - pending == {};
      while pending != {}
        invariant pending <= places
        invariant Value() == FailedAt(before, places - pending, error)
        decreases |pending|
      {
        var place :| place in pending;
        FailSpawnAt(place, error, before, places - pending);
        assert places - (pending - {place}) == places - pending + {place};
        pending := pending - {place};
      }
      assert places - pending == places;
    }

    method ClearSessionLinks(runtime: Option<Id>, session: Id)
      requires Valid()
      modifies this
      ensures Valid() && Value() == Without(old(Value()), SessionKeys(old(Value()), runtime, session))
    {
      var links: set<Link>;
      if runtime.Some? {
        links := (set k | k in linksByParent && k.0 == runtime.value && k.1 == session :: linksByParent[k])
        + (set k | k in provisionalByParent && k.0 == runtime.value && k.1 == session :: provisionalByParent[k])
        + (set k | k in linksByChild && k == (runtime.value, session) :: linksByChild[k]);
      } else {
        links := (set k | k in linksByKey && linksByKey[k].parent == session :: linksByKey[k])
        + (set k | k in linksByChild && linksByChild[k].child == Some(session) :: linksByChild[k]);
      }
      ghost var before := Value();
      CollectedLinks(before, runtime, session, links);
      DeleteLinks(links);
      RemovingKeysKeepsAgreement(before, KeysOf(links));
    }

    method ClearRuntimeLinks(runtime: Id)
      requires Valid()
      modifies this
      ensures Valid() && Value() == Without(old(Value()), RuntimeKeys(old(Value()), runtime))
    {
      var links := set k | k in linksByKey && linksByKey[k].runtime == runtime :: linksByKey[k];
      ghost var before := Value();
      assert KeysOf(links) == RuntimeKeys(before, runtime) by {
        forall k | k in RuntimeKeys(before, runtime) ensures k in KeysOf(links) {
          assert linksByKey[k] in links;
        }
      }
      forall link <- links ensures OwnsItsKey(before, link) {
        AgreeingLinkOwnsItsKey(before, link);
      }
      DeleteLinks(links);
      RemovingKeysKeepsAgreement(before, KeysOf(links));
    }

    method DeleteLinks(links: set<Link>)
      requires forall link <- links :: OwnsItsKey(Value(), link)
      modifies this
      ensures Value() == Without(old(Value()), KeysOf(links))
    {
      hide Without, Deleted, OwnsItsKey;
      ghost var before := Value();
      var pending := links;
      ghost var done: set<Link> := {};
      WithoutNothing(before);
      assert KeysOf(done) == {};
      while pending != {}
        invariant pending + done == links
        invariant Value() == Without(before, KeysOf(done))
        decreases |pending|
      {
        var link :| link in pending;
        DeleteLink(link);
        DeletingExtends(before, KeysOf(done), link);
        assert KeysOf(done + {link}) == KeysOf(done) + {(link.runtime, link.key)};
        pending, done := pending - {link}, done + {link};
      }
      assert done == links;
    }

    /**
     * Deletes the entries of a link. Of a link that the state holds, or an older copy of it, exactly
     * the entries under its correlation key are gone from the four indexes, and they still agree.
     */
    method DeleteLink(link: Link)
      modifies this
      ensures Value() == Deleted(old(Value()), link)
      ensures old(Valid()) && Belongs(old(Value()), link) ==> Valid() && HoldsAllBut(Value(), old(Value()), link)
    {
      DeletedIsExact(Value(), link);
      hide Agree, HoldsAllBut;
      linksByKey := linksByKey - {(link.runtime, link.key)};
      if link.child.Some? {
        linksByParent := linksByParent - {(link.runtime, link.parent, link.child.value)};
        linksByChild := linksByChild - {(link.runtime, link.child.value)};
      }
      provisionalByParent := provisionalByParent
      - set k | k in provisionalByParent && k.0 == link.runtime && k.1 == link.parent
                && provisionalByParent[k].runtime == link.runtime && provisionalByParent[k].key == link.key;
    }
  }

  function Deleted(s: Links, link: Link): Links {
    s.(byKey := s.byKey - {(link.runtime, link.key)},
       byParent := if link.child.Some? then s.byParent - {(link.runtime, link.parent, link.child.value)} else s.byParent,
       byChild := if link.child.Some? then s.byChild - {(link.runtime, link.child.value)} else s.byChild,
       provisional := s.provisional
       - set k | k in s.provisional && k.0 == link.runtime && k.1 == link.parent
                 && s.provisional[k].runtime == link.runtime && s.provisional[k].key == link.key)
  }

  lemma AgreementAfterUpdate(s: Links, input: LinkInput)
    ensures Agree(s) ==> (Agree(Upserted(s, input)) <==> UpsertOutcome(s, input).Refused? || NamesOneChild(s, input))
  {
    if Agree(s) && !HasConflictingParent(s, input) {
      UpdateKeepsAgreementExactly(s, input);
    }
    hide Agree, NamesOneChild;
  }

  /** Index by index, the entries of one state are those of another but for the holders of a link's key. */
  ghost predicate HoldsAllBut(after: Links, before: Links, link: Link) {
    && (forall k :: k in after.byKey <==> k in before.byKey && k != (link.runtime, link.key))
    && (forall k :: k in after.byChild <==>
          k in before.byChild && !(k.0 == link.runtime && before.byChild[k].key == link.key))
    && (forall k :: k in after.byParent <==>
          k in before.byParent && !(k.0 == link.runtime && before.byParent[k].key == link.key))
    && (forall k :: k in after.provisional <==>
          k in before.provisional && !(k.0 == link.runtime && before.provisional[k].key == link.key))
    && (forall k <- after.byKey :: after.byKey[k] == before.byKey[k])
    && (forall k <- after.byChild :: after.byChild[k] == before.byChild[k])
    && (forall k <- after.byParent :: after.byParent[k] == before.byParent[k])
    && (forall k <- after.provisional :: after.provisional[k] == before.provisional[k])
  }

  lemma DeletedIsExact(s: Links, link: Link)
    ensures Agree(s) && Belongs(s, link) ==> Agree(Deleted(s, link)) && HoldsAllBut(Deleted(s, link), s, link)
  {
    if Agree(s) && Belongs(s, link) {
      AgreeingLinkOwnsItsKey(s, link);
      DeletingExtends(s, {}, link);
      RemovingKeysKeepsAgreement(s, {(link.runtime, link.key)});
      hide Agree, Belongs, OwnsItsKey, Deleted;
      WithoutNothing(s);
      assert {} + {(link.runtime, link.key)} == {(link.runtime, link.key)};
      WithoutOneKey(s, link);
    }
  }

  lemma WithoutOneKey(s: Links, link: Link)
    ensures HoldsAllBut(Without(s, {(link.runtime, link.key)}), s, link)
  {
  }

  /** The state after failing the unlinked spawns at the provisional places in `done`. */
  ghost function FailedAt(s: Links, done: set<(Id, Id, Id)>, error: string): Links {
    s.(provisional := map k | k in s.provisional ::
        if k in done && IsFailableSpawn(s.provisional[k])
        then Failed(s.provisional[k], error) else s.provisional[k],
       byKey := map k | k in s.byKey ::
        if (k.0, k.1.parent, k.1.tail) in done && IsFailableSpawn(s.byKey[k])
        then Failed(s.byKey[k], error) else s.byKey[k])
  }

  lemma FailedNowhere(s: Links, error: string)
    ensures FailedAt(s, {}, error) == s
  {
  }

  /** An unlinked spawn is indexed by the correlation key of its own place and no other. */
  ghost predicate SpawnAt(s: Links, place: (Id, Id, Id)) {
    && place in s.provisional
    && (s.provisional[place].runtime, s.provisional[place].key) in s.byKey
    && (IsFailableSpawn(s.provisional[place]) ==>
          s.provisional[place].key == CorrelationKey(place.1, place.2) && s.provisional[place].runtime == place.0
          && s.byKey[(place.0, s.provisional[place].key)] == s.provisional[place])
    && (var key := (place.0, CorrelationKey(place.1, place.2));
        key in s.byKey && IsFailableSpawn(s.byKey[key]) ==> s.byKey[key] == s.provisional[place])
  }

  lemma AgreeingSpawn(s: Links, place: (Id, Id, Id))
    requires Agree(s) && place in s.provisional
    ensures SpawnAt(s, place)
  {
    var key := (place.0, CorrelationKey(place.1, place.2));
    if key in s.byKey && s.byKey[key].child.None? {
      assert s.provisional[(place.0, s.byKey[key].parent, place.2)] == s.byKey[key];
    }
  }

  function FailedOnce(s: Links, place: (Id, Id, Id), error: string): Links
    requires place in s.provisional
  {
    var link := s.provisional[place];
    if IsFailableSpawn(link)
    then s.(provisional := s.provisional[place := Failed(link, error)],
            byKey := s.byKey[(link.runtime, link.key) := Failed(link, error)])
    else s
  }

  lemma FailingOneMore(s: Links, done: set<(Id, Id, Id)>, place: (Id, Id, Id), error: string)
    requires SpawnAt(s, place) && place !in done
    ensures FailedAt(s, done + {place}, error) == FailedOnce(FailedAt(s, done, error), place, error)
  {
    var link := s.provisional[place];
    var before, after := FailedAt(s, done, error), FailedAt(s, done + {place}, error);
    if IsFailableSpawn(link) {
      assert after.provisional == before.provisional[place := Failed(link, error)];
      assert after.byKey == before.byKey[(link.runtime, link.key) := Failed(link, error)];
    } else {
      assert after.provisional == before.provisional;
      assert after.byKey == before.byKey;
    }
  }

  lemma FailedEverywhere(s: Links, runtime: Id, parent: Id, error: string)
    requires Agree(s)
    ensures FailedAt(s, (set k | k in s.provisional && k.0 == runtime && k.1 == parent), error)
            == FailUnlinked(s, runtime, parent, error)
  {
    var done := set k | k in s.provisional && k.0 == runtime && k.1 == parent;
    forall k <- s.byKey | IsFailableSpawn(s.byKey[k])
      ensures (k.0, k.1.parent, k.1.tail) in done <==> k.0 == runtime && k.1.parent == parent
    {
      assert (k.0, s.byKey[k].parent, k.1.tail) in s.provisional;
    }
    assert FailedAt(s, done, error).byKey == FailUnlinked(s, runtime, parent, error).byKey;
  }

  function KeysOf(links: set<Link>): set<(Id, CorrelationKey)> {
    set link | link in links :: (link.runtime, link.key)
  }

  /** The link stands for an entry of the state, perhaps as an older copy of it. */
  ghost predicate Belongs(s: Links, link: Link) {
    && (link.runtime, link.key) in s.byKey
    && s.byKey[(link.runtime, link.key)].child == link.child
    && link.parent == link.key.parent
  }

  lemma WithoutNothing(s: Links)
    ensures Without(s, {}) == s
  {
  }

  /** The entries that carry the correlation key of a link are the entries that deleting it removes. */
  ghost predicate OwnsItsKey(s: Links, link: Link) {
    && (forall k <- s.byChild ::
          (k.0, s.byChild[k].key) == (link.runtime, link.key) <==>
          link.child.Some? && k == (link.runtime, link.child.value))
    && (forall k <- s.byParent ::
          (k.0, s.byParent[k].key) == (link.runtime, link.key) <==>
          link.child.Some? && k == (link.runtime, link.parent, link.child.value))
    && (forall k <- s.provisional ::
          (k.0, s.provisional[k].key) == (link.runtime, link.key) <==>
          k.0 == link.runtime && k.1 == link.parent
          && s.provisional[k].runtime == link.runtime && s.provisional[k].key == link.key)
  }

  lemma AgreeingLinkOwnsItsKey(s: Links, link: Link)
    requires Agree(s) && Belongs(s, link)
    ensures OwnsItsKey(s, link)
  {
    var current := s.byKey[(link.runtime, link.key)];
    forall k <- s.byChild
      ensures (k.0, s.byChild[k].key) == (link.runtime, link.key) <==>
              link.child.Some? && k == (link.runtime, link.child.value)
    {
      assert s.byKey[(k.0, s.byChild[k].key)] == s.byChild[k];
    }
    forall k <- s.byParent
      ensures (k.0, s.byParent[k].key) == (link.runtime, link.key) <==>
              link.child.Some? && k == (link.runtime, link.parent, link.child.value)
    {
      assert s.byChild[(k.0, k.2)] == s.byParent[k];
    }
  }

  lemma DeletingExtendsByKey(s: Links, keys: set<(Id, CorrelationKey)>, link: Link)
    requires OwnsItsKey(s, link)
    ensures Deleted(Without(s, keys), link).byKey == Without(s, keys + {(link.runtime, link.key)}).byKey
  {
  }

  lemma DeletingExtendsByChild(s: Links, keys: set<(Id, CorrelationKey)>, link: Link)
    requires OwnsItsKey(s, link)
    ensures Deleted(Without(s, keys), link).byChild == Without(s, keys + {(link.runtime, link.key)}).byChild
  {
  }

  lemma DeletingExtendsByParent(s: Links, keys: set<(Id, CorrelationKey)>, link: Link)
    requires OwnsItsKey(s, link)
    ensures Deleted(Without(s, keys), link).byParent == Without(s, keys + {(link.runtime, link.key)}).byParent
  {
  }

  lemma DeletingExtendsProvisional(s: Links, keys: set<(Id, CorrelationKey)>, link: Link)
    requires OwnsItsKey(s, link)
    ensures Deleted(Without(s, keys), link).provisional == Without(s, keys + {(link.runtime, link.key)}).provisional
  {
  }

  /** Deleting the entries of one link removes its correlation key from all four indexes. */
  lemma DeletingExtends(s: Links, keys: set<(Id, CorrelationKey)>, link: Link)
    requires OwnsItsKey(s, link)
    ensures Deleted(Without(s, keys), link) == Without(s, keys + {(link.runtime, link.key)})
  {
    DeletingExtendsByKey(s, keys, link);
    DeletingExtendsByChild(s, keys, link);
    DeletingExtendsByParent(s, keys, link);
    DeletingExtendsProvisional(s, keys, link);
  }

  function SessionLinks(s: Links, runtime: Option<Id>, session: Id): set<Link> {
    if runtime.Some?
    then (set k | k in s.byParent && k.0 == runtime.value && k.1 == session :: s.byParent[k])
         + (set k | k in s.provisional && k.0 == runtime.value && k.1 == session :: s.provisional[k])
         + (set k | k in s.byChild && k == (runtime.value, session) :: s.byChild[k])
    else (set k | k in s.byKey && s.byKey[k].parent == session :: s.byKey[k])
         + (set k | k in s.byChild && s.byChild[k].child == Some(session) :: s.byChild[k])
  }

  lemma CollectedLinkBelongs(s: Links, runtime: Option<Id>, session: Id, link: Link)
    requires Agree(s) && link in SessionLinks(s, runtime, session)
    ensures Belongs(s, link) && (link.runtime, link.key) in SessionKeys(s, runtime, session)
  {
    if k :| k in s.byParent && s.byParent[k] == link && runtime == Some(k.0) && k.1 == session {
      assert s.byChild[(k.0, k.2)] == link;
    }
  }

  lemma SessionKeyIsCollected(s: Links, runtime: Option<Id>, session: Id, key: (Id, CorrelationKey))
    requires Agree(s) && key in SessionKeys(s, runtime, session)
    ensures s.byKey[key] in SessionLinks(s, runtime, session)
  {
    var link := s.byKey[key];
    if runtime.Some? {
      if link.child.Some? {
        assert s.byChild[(key.0, link.child.value)] == link;
        assert s.byParent[(key.0, link.parent, link.child.value)] == link;
      } else {
        assert s.provisional[(key.0, link.parent, key.1.tail)] == link;
      }
    }
  }

  /** The links that clearing a session collects from the indexes carry exactly the keys of that session. */
  lemma CollectedLinks(s: Links, runtime: Option<Id>, session: Id, links: set<Link>)
    requires Agree(s) && links == SessionLinks(s, runtime, session)
    ensures KeysOf(links) == SessionKeys(s, runtime, session)
    ensures forall link <- links :: OwnsItsKey(s, link)
  {
    forall link <- links
      ensures OwnsItsKey(s, link) && (link.runtime, link.key) in SessionKeys(s, runtime, session)
    {
      CollectedLinkBelongs(s, runtime, session, link);
      AgreeingLinkOwnsItsKey(s, link);
    }
    forall key <- SessionKeys(s, runtime, session) ensures key in KeysOf(links) {
      SessionKeyIsCollected(s, runtime, session, key);
    }
  }
}
