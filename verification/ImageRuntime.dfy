/** The image batches of one runtime object, changed in place. */
module ImageRuntimes {
  import opened Prelude
  import opened ImageBatches

  class ImageRuntime {
    var objects: map<Id, Batch>
    var batches: set<Id>
    var reservations: set<Id>
    var begins: set<Id>
    var ongoing: seq<Read>
    var current: bool
    var next: Id

    function Value(): Images
      reads this
    {
      Images(objects, batches, reservations, begins, ongoing, current, next)
    }

    ghost predicate Valid()
      reads this
    {
      Inv(Value())
    }

    constructor ()
      ensures Value() == NO_IMAGES && Valid()
    {
      objects, batches, reservations, begins, ongoing, current, next := map[], {}, {}, {}, [], true, 0;
      new;
      forall b: Id ensures BatchFits(Value(), b) {
      }
    }

    /** Reserves a batch for the images; refuses a third reservation. */
    method BeginBatch(session: Id, keys: seq<Id>) returns (batch: Option<Id>)
      requires Valid()
      modifies this
      ensures Valid() && Value() == Begun(old(Value()), session, keys)
      ensures batch == if MayBegin(old(Value()), keys) then Some(old(next)) else None
    {
      BeginKeepsInv(Value(), session, keys);
      hide Inv;
      var allowed := IsAllowed(keys, |reservations|);
      assert allowed == MayBegin(Value(), keys);
      hide MayBegin;
      if !allowed {
        return None;
      }
      var b := next;
      objects := objects[b := Batch(session, [], 1, false)];
      batches := batches + {b};
      reservations := reservations + {b};
      begins := begins + {b};
      next := next + 1;
      batch := Some(b);
    }

    /** The selection of the images of a batch ended. */
    method FillBatch(b: Id, selections: Option<seq<Item>>) returns (admitted: seq<Item>)
      requires Valid() && b in begins
      modifies this
      ensures Valid() && Value() == Filled(old(Value()), b, selections)
      ensures admitted == if selections.Some? && old(current) && b in old(batches) then Admitted(selections.value) else []
      ensures SizeOf(admitted) <= RETAINED_BYTE_LIMIT
    {
      FillKeepsInv(Value(), b, selections);
      hide BatchFits;
      begins := begins - {b};
      admitted := [];
      if selections.None? || !current || b !in batches {
        ReleaseBatch(b);
      } else {
        admitted := Admit(selections.value);
        objects := objects[b := objects[b].(items := admitted)];
      }
      FinishBatchRead(b);
    }

    /** Takes an image out of a batch; an expired batch is released instead. */
    method TakeImage(b: Id, session: Id, key: Id, revision: Id, expired: bool, awaits: bool) returns (taken: bool)
      requires Valid()
      modifies this
      ensures Value() == ReadStarted(old(Value()), b, session, key, revision, expired, awaits) && Valid()
      ensures taken == (IsListedFor(old(Value()), b, session) && !expired
                        && Selected(old(objects)[b], key, revision).Some?)
    {
      StartReadKeepsInv(Value(), b, session, key, revision, expired, awaits);
      hide Inv, ItemTaken, Released, Selected;
      if !(b in batches && b in objects && objects[b].session == session) {
        return false;
      }
      if expired {
        ReleaseBatch(b);
        return false;
      }
      var selected := Selected(objects[b], key, revision);
      if selected.None? {
        return false;
      }
      TakeItem(b, selected.value, awaits);
      taken := true;
    }

    method TakeItem(b: Id, i: nat, awaits: bool)
      requires b in objects && i < |objects[b].items|
      modifies this
      ensures Value() == ItemTaken(old(Value()), b, i, awaits)
    {
      var bytes := objects[b].items[i].bytes;
      objects := objects[b := objects[b].(activeReads := objects[b].activeReads + 1)];
      objects := objects[b := WithoutItem(objects[b], i)];
      if awaits {
        ongoing := ongoing + [Read(b, bytes)];
      } else {
        FinishBatchRead(b);
      }
    }

    method EndRead(i: nat)
      requires Valid() && i < |ongoing|
      modifies this
      ensures Valid() && Value() == ReadEnded(old(Value()), i)
    {
      EndReadKeepsInv(Value(), i);
      assert ongoing[i] in ongoing;
      hide BatchFits;
      var b := ongoing[i].batch;
      ongoing := ongoing[..i] + ongoing[i + 1..];
      FinishBatchRead(b);
    }

    method ReleaseBatch(b: Id)
      modifies this`objects, this`batches, this`reservations
      ensures Value() == Released(old(Value()), b)
    {
      if b !in batches || b !in objects {
        return;
      }
      objects := objects[b := objects[b].(items := [])];
      objects := objects[b := objects[b].(released := true)];
      batches := batches - {b};
      if objects[b].activeReads == 0 {
        reservations := reservations - {b};
      }
    }

    method FinishBatchRead(b: Id)
      requires b in objects
      modifies this`objects, this`reservations
      ensures Value() == Finished(old(Value()), b)
    {
      objects := objects[b := objects[b].(activeReads := objects[b].activeReads - 1)];
      if objects[b].released && objects[b].activeReads == 0 {
        reservations := reservations - {b};
      }
    }

    method ReleaseSession(session: Id)
      requires Valid()
      modifies this
      ensures Valid() && Value() == AllReleased(old(Value()), ListedFor(old(Value()), session))
    {
      ReleaseAllKeepsInv(Value(), ListedFor(Value(), session));
      ReleaseEach(ListedFor(Value(), session));
    }

    method ReleaseRuntime()
      requires Valid()
      modifies this
      ensures Valid() && Value() == AllReleased(old(Value()), old(batches)).(current := false)
      ensures batches == {}
    {
      ReleaseAllKeepsInv(Value(), batches);
      CurrentIsNotReserved(AllReleased(Value(), batches));
      ReleaseEach(batches);
      current := false;
    }

    method ReleaseEach(gone: set<Id>)
      requires Known(Value()) && gone <= batches
      modifies this`objects, this`batches, this`reservations
      ensures Value() == AllReleased(old(Value()), gone)
    {
      ghost var s := Value();
      var pending := gone;
      ReleaseNone(s);
      assert gone - pending == {};
      hide AllReleased, Released;
      while pending != {}
        invariant pending <= gone && Value() == AllReleased(s, gone - pending)
      {
        var b :| b in pending;
        ReleaseOneMore(s, gone - pending, b);
        assert gone - (pending - {b}) == gone - pending + {b};
        ReleaseBatch(b);
        pending := pending - {b};
      }
      assert gone - pending == gone;
    }
  }

  lemma ReleaseNone(s: Images)
    ensures AllReleased(s, {}) == s
  {
    var after := AllReleased(s, {});
    assert after.objects == s.objects && after.reservations == s.reservations;
  }

  lemma ReleaseOneMore(s: Images, gone: set<Id>, b: Id)
    requires Known(s) && b in s.batches && b !in gone
    ensures Released(AllReleased(s, gone), b) == AllReleased(s, gone + {b})
  {
    var once, more := AllReleased(s, gone), AllReleased(s, gone + {b});
    assert once.objects[b] == s.objects[b];
    assert Released(once, b).objects == more.objects;
    assert Released(once, b).batches == more.batches;
    assert Released(once, b).reservations == more.reservations;
  }

  /** One to eight distinct images, and fewer than two reservations. */
  method IsAllowed(keys: seq<Id>, reserved: nat) returns (allowed: bool)
    ensures allowed <==>
              && 0 < |keys| <= BATCH_IMAGE_LIMIT
              && (forall i, j | 0 <= i < j < |keys| :: keys[i] != keys[j])
              && reserved < MAX_RUNTIME_IMAGE_BATCHES
  {
    var distinct := HasDistinctKeys(keys);
    allowed := 0 < |keys| <= BATCH_IMAGE_LIMIT && distinct && reserved < MAX_RUNTIME_IMAGE_BATCHES;
  }

  method HasDistinctKeys(keys: seq<Id>) returns (distinct: bool)
    ensures distinct <==> forall i, j | 0 <= i < j < |keys| :: keys[i] != keys[j]
  {
    var seen: set<Id> := {};
    var k := 0;
    while k < |keys|
      invariant k <= |keys|
      invariant forall key: Id :: key in seen <==> key in keys[..k]
      invariant forall i, j | 0 <= i < j < k :: keys[i] != keys[j]
    {
      if keys[k] in seen {
        var i :| 0 <= i < k && keys[i] == keys[k];
        return false;
      }
      seen := seen + {keys[k]};
      k := k + 1;
    }
    return true;
  }

  method Admit(selections: seq<Item>) returns (admitted: seq<Item>)
    ensures admitted == Admitted(selections) && SizeOf(admitted) <= RETAINED_BYTE_LIMIT
  {
    AdmittedFits(selections);
    admitted := [];
    var retained := 0;
    var k := 0;
    while k < |selections|
      invariant k <= |selections|
      invariant admitted == Admitted(selections[..k]) && retained == SizeOf(admitted)
    {
      assert selections[..k + 1][..k] == selections[..k];
      if retained + selections[k].bytes <= RETAINED_BYTE_LIMIT {
        assert (admitted + [selections[k]])[..|admitted|] == admitted;
        retained := retained + selections[k].bytes;
        admitted := admitted + [selections[k]];
      }
      k := k + 1;
    }
    assert selections[..|selections|] == selections;
  }
}
