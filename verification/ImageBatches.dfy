/**
 * Batches of generated images that one runtime object keeps for previews. A batch is reserved from
 * its begin until it is released and its last read has finished. Code between two awaits is one
 * step; begins, reads, expiries and releases interleave freely.
 */
module ImageBatches {
  import opened Prelude

  const MAX_RUNTIME_IMAGE_BATCHES := 2
  const RETAINED_BYTE_LIMIT := 96 * 1024 * 1024
  const BATCH_IMAGE_LIMIT := 8

  /** A selected image, of two bytes per character; a failed selection takes no space. */
  datatype Item = Item(key: Id, revision: Id, bytes: nat)

  /** `session` stands for the session reference that a batch was begun for. */
  datatype Batch = Batch(session: Id, items: seq<Item>, activeReads: int, released: bool)

  /** A read that still awaits the preparation of the image that it took from a batch. */
  datatype Read = Read(batch: Id, bytes: nat)

  /**
   * `objects` are all batches ever begun. `batches` are those that the runtime still lists,
   * `begins` those whose images are still being selected, and `current` says that the runtime
   * object has not been replaced.
   */
  datatype Images = Images(
    objects: map<Id, Batch>,
    batches: set<Id>,
    reservations: set<Id>,
    begins: set<Id>,
    ongoing: seq<Read>,
    current: bool,
    next: Id)

  const NO_IMAGES := Images(map[], {}, {}, {}, [], true, 0)

  function SizeOf(items: seq<Item>): nat {
    if items == [] then 0 else SizeOf(items[..|items| - 1]) + items[|items| - 1].bytes
  }

  function CountReads(ongoing: seq<Read>, batch: Id): nat {
    if ongoing == [] then 0 else (if ongoing[0].batch == batch then 1 else 0) + CountReads(ongoing[1..], batch)
  }

  function InFlight(ongoing: seq<Read>, batch: Id): nat {
    if ongoing == [] then 0 else (if ongoing[0].batch == batch then ongoing[0].bytes else 0) + InFlight(ongoing[1..], batch)
  }

  // ---------------------------------------------------------------------------------------------
  // Steps
  // ---------------------------------------------------------------------------------------------

  function Released(s: Images, b: Id): Images {
    if b !in s.batches || b !in s.objects then s
    else s.(
         objects := s.objects[b := s.objects[b].(items := [], released := true)],
         batches := s.batches - {b},
         reservations := if s.objects[b].activeReads == 0 then s.reservations - {b} else s.reservations)
  }

  function Finished(s: Images, b: Id): Images
    requires b in s.objects
  {
    var left := s.objects[b].activeReads - 1;
    s.(objects := s.objects[b := s.objects[b].(activeReads := left)],
       reservations := if s.objects[b].released && left == 0 then s.reservations - {b} else s.reservations)
  }

  predicate MayBegin(s: Images, keys: seq<Id>) {
    && 0 < |keys| <= BATCH_IMAGE_LIMIT
    && (forall i, j | 0 <= i < j < |keys| :: keys[i] != keys[j])
    && |s.reservations| < MAX_RUNTIME_IMAGE_BATCHES
  }

  function Begun(s: Images, session: Id, keys: seq<Id>): Images {
    if !MayBegin(s, keys) then s
    else s.(
         objects := s.objects[s.next := Batch(session, [], 1, false)],
         batches := s.batches + {s.next},
         reservations := s.reservations + {s.next},
         begins := s.begins + {s.next},
         next := s.next + 1)
  }

  /** The images that fit, taken in order; one that does not fit is passed over. */
  function Admitted(selections: seq<Item>): seq<Item> {
    if selections == [] then []
    else
      var before := Admitted(selections[..|selections| - 1]);
      var item := selections[|selections| - 1];
      if SizeOf(before) + item.bytes > RETAINED_BYTE_LIMIT then before else before + [item]
  }

  /** Selecting the images succeeded with some selections, or failed. */
  function Filled(s: Images, b: Id, selections: Option<seq<Item>>): Images {
    if b !in s.begins || b !in s.objects then s
    else
      var s' := s.(begins := s.begins - {b});
      var filled :=
        if selections.None? || !s.current || b !in s.batches then Released(s', b)
        else s'.(objects := s'.objects[b := s'.objects[b].(items := Admitted(selections.value))]);
      Finished(filled, b)
  }

  function ItemIndex(items: seq<Item>, key: Id): (i: nat)
    ensures i <= |items| && (i < |items| ==> items[i].key == key)
  {
    if items == [] || items[0].key == key then 0 else 1 + ItemIndex(items[1..], key)
  }

  function Selected(batch: Batch, key: Id, revision: Id): (i: Option<nat>)
    ensures i.Some? ==> i.value < |batch.items|
  {
    var i := ItemIndex(batch.items, key);
    if i < |batch.items| && batch.items[i].revision == revision then Some(i) else None
  }

  function WithoutItem(batch: Batch, i: nat): Batch
    requires i < |batch.items|
  {
    batch.(items := batch.items[..i] + batch.items[i + 1..])
  }

  predicate IsListedFor(s: Images, b: Id, session: Id) {
    b in s.batches && b in s.objects && s.objects[b].session == session
  }

  /** A read takes an image out of its batch; it ends at once, or awaits the preparation of the image. */
  function ItemTaken(s: Images, b: Id, i: nat, awaits: bool): Images
    requires b in s.objects && i < |s.objects[b].items|
  {
    var taken := WithoutItem(s.objects[b], i).(activeReads := s.objects[b].activeReads + 1);
    var s' := s.(objects := s.objects[b := taken]);
    if awaits then s'.(ongoing := s.ongoing + [Read(b, s.objects[b].items[i].bytes)]) else Finished(s', b)
  }

  function ReadStarted(s: Images, b: Id, session: Id, key: Id, revision: Id, expired: bool, awaits: bool): Images {
    if !IsListedFor(s, b, session) then s
    else if expired then Released(s, b)
    else
      var i := Selected(s.objects[b], key, revision);
      if i.None? then s else ItemTaken(s, b, i.value, awaits)
  }

  function ReadEnded(s: Images, i: nat): Images {
    if i >= |s.ongoing| || s.ongoing[i].batch !in s.objects then s
    else Finished(s.(ongoing := s.ongoing[..i] + s.ongoing[i + 1..]), s.ongoing[i].batch)
  }

  function ListedFor(s: Images, session: Id): set<Id> {
    set b | b in s.batches && IsListedFor(s, b, session)
  }

  /** All the given batches are released. */
  function AllReleased(s: Images, gone: set<Id>): Images {
    s.(objects := map b | b in s.objects ::
         if b in gone && b in s.batches then s.objects[b].(items := [], released := true) else s.objects[b],
       batches := s.batches - gone,
       reservations := set b | b in s.reservations &&
         !(b in gone && b in s.batches && b in s.objects && s.objects[b].activeReads == 0))
  }

  datatype Step =
    | Begin(session: Id, keys: seq<Id>)
    | Fill(batch: Id, selections: Option<seq<Item>>)
    | StartRead(batch: Id, session: Id, key: Id, revision: Id, expired: bool, awaits: bool)
    | EndRead(read: nat)
    | Expire(batch: Id)
    | ReleaseBatch(batch: Id, session: Id)
    | ReleaseSession(session: Id)
    | ReleaseRuntime

  function Next(s: Images, step: Step): Images {
    match step
    case Begin(session, keys) => if s.current then Begun(s, session, keys) else s
    case Fill(b, selections) => Filled(s, b, selections)
    case StartRead(b, session, key, revision, expired, awaits) =>
      if s.current then ReadStarted(s, b, session, key, revision, expired, awaits) else s
    case EndRead(i) => ReadEnded(s, i)
    case Expire(b) => Released(s, b)
    case ReleaseBatch(b, session) => if IsListedFor(s, b, session) then Released(s, b) else s
    case ReleaseSession(session) => AllReleased(s, ListedFor(s, session))
    case ReleaseRuntime => AllReleased(s, s.batches).(current := false)
  }

  function Run(s: Images, steps: seq<Step>): Images
    decreases |steps|
  {
    if steps == [] then s else Run(Next(s, steps[0]), steps[1..])
  }

  // ---------------------------------------------------------------------------------------------
  // The invariant
  // ---------------------------------------------------------------------------------------------

  /** The reads of a batch that have not finished; its begin is one of them. */
  function Outstanding(s: Images, b: Id): nat {
    (if b in s.begins then 1 else 0) + CountReads(s.ongoing, b)
  }

  ghost predicate BatchFits(s: Images, b: Id) {
    b in s.objects ==>
      var batch := s.objects[b];
      && (b in s.batches <==> !batch.released)
      && (b in s.reservations <==> !batch.released || batch.activeReads > 0)
      && batch.activeReads == Outstanding(s, b)
      && (batch.released ==> batch.items == [])
      && (b in s.begins ==> batch.items == [] && CountReads(s.ongoing, b) == 0 && InFlight(s.ongoing, b) == 0)
      && SizeOf(batch.items) + InFlight(s.ongoing, b) <= RETAINED_BYTE_LIMIT
  }

  ghost predicate Known(s: Images) {
    && s.batches <= s.objects.Keys && s.reservations <= s.objects.Keys && s.begins <= s.objects.Keys
    && (forall b <- s.objects :: b < s.next)
    && forall read <- s.ongoing :: read.batch in s.objects
  }

  ghost predicate Inv(s: Images) {
    && Known(s)
    && |s.reservations| <= MAX_RUNTIME_IMAGE_BATCHES
    && forall b: Id :: BatchFits(s, b)
  }

  // ---------------------------------------------------------------------------------------------
  // Reads come and go
  // ---------------------------------------------------------------------------------------------

  lemma {:induction false} ReadAdded(ongoing: seq<Read>, read: Read, b: Id)
    ensures CountReads(ongoing + [read], b) == CountReads(ongoing, b) + if read.batch == b then 1 else 0
    ensures InFlight(ongoing + [read], b) == InFlight(ongoing, b) + if read.batch == b then read.bytes else 0
  {
    if ongoing == [] {
      assert ongoing + [read] == [read];
    } else {
      assert (ongoing + [read])[1..] == ongoing[1..] + [read];
      ReadAdded(ongoing[1..], read, b);
    }
  }

  lemma {:induction false} ReadRemoved(ongoing: seq<Read>, i: nat, b: Id)
    requires i < |ongoing|
    ensures CountReads(ongoing, b) == CountReads(ongoing[..i] + ongoing[i + 1..], b) + if ongoing[i].batch == b then 1 else 0
    ensures InFlight(ongoing, b) == InFlight(ongoing[..i] + ongoing[i + 1..], b) + if ongoing[i].batch == b then ongoing[i].bytes else 0
  {
    var left := ongoing[..i] + ongoing[i + 1..];
    if i == 0 {
      assert left == ongoing[1..];
    } else {
      assert left[1..] == ongoing[1..][..i - 1] + ongoing[1..][i..];
      ReadRemoved(ongoing[1..], i - 1, b);
    }
  }

  lemma {:induction false} NoReads(ongoing: seq<Read>, b: Id)
    requires forall read <- ongoing :: read.batch != b
    ensures CountReads(ongoing, b) == 0 && InFlight(ongoing, b) == 0
  {
    if ongoing == [] {
    } else {
      assert ongoing[0] in ongoing && forall read <- ongoing[1..] :: read in ongoing;
      NoReads(ongoing[1..], b);
    }
  }

  lemma {:induction false} ItemRemoved(items: seq<Item>, i: nat)
    requires i < |items|
    ensures SizeOf(items) == SizeOf(items[..i] + items[i + 1..]) + items[i].bytes
  {
    var left := items[..i] + items[i + 1..];
    if i == |items| - 1 {
      assert left == items[..|items| - 1];
    } else {
      var front := items[..|items| - 1];
      assert left[..|left| - 1] == front[..i] + front[i + 1..];
      ItemRemoved(front, i);
    }
  }

  lemma {:induction false} AdmittedFits(selections: seq<Item>)
    ensures SizeOf(Admitted(selections)) <= RETAINED_BYTE_LIMIT
  {
    if selections == [] {
    } else {
      var before := Admitted(selections[..|selections| - 1]);
      AdmittedFits(selections[..|selections| - 1]);
      assert (before + [selections[|selections| - 1]])[..|before|] == before;
    }
  }

  lemma {:induction false} SizeOfPrefix(items: seq<Item>, i: nat)
    requires i <= |items|
    ensures SizeOf(items[..i]) <= SizeOf(items)
  {
    if i < |items| {
      assert items[..|items| - 1][..i] == items[..i];
      SizeOfPrefix(items[..|items| - 1], i);
    } else {
      assert items[..i] == items;
    }
  }

  /** An image is passed over if and only if it does not fit beside those admitted before it. */
  lemma {:induction false} PassedOverIff(selections: seq<Item>, i: nat)
    requires i < |selections|
    ensures |Admitted(selections[..i + 1])|
         == |Admitted(selections[..i])| + if SizeOf(Admitted(selections[..i])) + selections[i].bytes > RETAINED_BYTE_LIMIT then 0 else 1
    ensures Admitted(selections[..i + 1]) <= Admitted(selections)
    decreases |selections|
  {
    assert selections[..i + 1][..i] == selections[..i];
    if i + 1 < |selections| {
      var front := selections[..|selections| - 1];
      assert front[..i + 1] == selections[..i + 1] && front[..i] == selections[..i];
      PassedOverIff(front, i);
    } else {
      assert selections[..i + 1] == selections;
    }
  }

  /** Selections that fit together are all admitted. */
  lemma {:induction false} AllThatFitsIsAdmitted(selections: seq<Item>)
    requires SizeOf(selections) <= RETAINED_BYTE_LIMIT
    ensures Admitted(selections) == selections
  {
    if selections == [] {
    } else {
      var front := selections[..|selections| - 1];
      SizeOfPrefix(selections, |selections| - 1);
      AllThatFitsIsAdmitted(front);
      assert selections == front + [selections[|selections| - 1]];
    }
  }

  // ---------------------------------------------------------------------------------------------
  // Every step keeps the invariant
  // ---------------------------------------------------------------------------------------------

  lemma BeginKeepsInv(s: Images, session: Id, keys: seq<Id>)
    requires Inv(s)
    ensures Inv(Begun(s, session, keys))
  {
    var after := Begun(s, session, keys);
    if MayBegin(s, keys) {
      NoReads(s.ongoing, s.next);
      assert s.next !in s.objects;
      forall b: Id ensures BatchFits(after, b) {
        assert BatchFits(s, b);
      }
    }
  }

  lemma ReleaseKeepsInv(s: Images, b: Id)
    requires Inv(s)
    ensures Inv(Released(s, b))
  {
    var after := Released(s, b);
    forall c: Id ensures BatchFits(after, c) {
      assert BatchFits(s, c);
    }
    assert after.reservations <= s.reservations;
    SubsetIsNoLarger(after.reservations, s.reservations);
  }

  lemma FinishKeepsInv(s: Images, b: Id)
    requires Known(s) && |s.reservations| <= MAX_RUNTIME_IMAGE_BATCHES && b in s.objects
    requires forall c: Id | c != b :: BatchFits(s, c)
    requires OneReadMore(s, b)
    ensures Inv(Finished(s, b))
  {
    var after := Finished(s, b);
    forall c: Id ensures BatchFits(after, c) {
      if c != b {
        assert BatchFits(s, c);
      }
    }
    SubsetIsNoLarger(after.reservations, s.reservations);
  }

  /** The batch counts one read more than are outstanding: the one that is about to finish. */
  ghost predicate OneReadMore(s: Images, b: Id)
    requires b in s.objects
  {
    var batch := s.objects[b];
    && (b in s.batches <==> !batch.released)
    && b in s.reservations
    && batch.activeReads == Outstanding(s, b) + 1
    && (batch.released ==> batch.items == [])
    && (b in s.begins ==> batch.items == [] && CountReads(s.ongoing, b) == 0 && InFlight(s.ongoing, b) == 0)
    && SizeOf(batch.items) + InFlight(s.ongoing, b) <= RETAINED_BYTE_LIMIT
  }

  lemma FillKeepsInv(s: Images, b: Id, selections: Option<seq<Item>>)
    requires Inv(s)
    ensures Inv(Filled(s, b, selections))
  {
    if b in s.begins {
      assert BatchFits(s, b);
      var s' := s.(begins := s.begins - {b});
      var filled :=
        if selections.None? || !s.current || b !in s.batches then Released(s', b)
        else s'.(objects := s'.objects[b := s'.objects[b].(items := Admitted(selections.value))]);
      if selections.Some? {
        AdmittedFits(selections.value);
      }
      forall c: Id | c != b ensures BatchFits(filled, c) {
        assert BatchFits(s, c);
      }
      assert filled.reservations == s.reservations;
      FinishKeepsInv(filled, b);
    }
  }

  lemma StartReadKeepsInv(s: Images, b: Id, session: Id, key: Id, revision: Id, expired: bool, awaits: bool)
    requires Inv(s)
    ensures Inv(ReadStarted(s, b, session, key, revision, expired, awaits))
  {
    var after := ReadStarted(s, b, session, key, revision, expired, awaits);
    if IsListedFor(s, b, session) && expired {
      ReleaseKeepsInv(s, b);
    } else if IsListedFor(s, b, session) && Selected(s.objects[b], key, revision).Some? {
      assert BatchFits(s, b);
      var i := Selected(s.objects[b], key, revision).value;
      var read := Read(b, s.objects[b].items[i].bytes);
      ItemRemoved(s.objects[b].items, i);
      ReadAdded(s.ongoing, read, b);
      if awaits {
        forall c: Id ensures BatchFits(after, c) {
          assert BatchFits(s, c);
          ReadAdded(s.ongoing, read, c);
        }
      } else {
        var taken := WithoutItem(s.objects[b], i).(activeReads := s.objects[b].activeReads + 1);
        var s' := s.(objects := s.objects[b := taken]);
        forall c: Id | c != b ensures BatchFits(s', c) {
          assert BatchFits(s, c);
        }
        FinishKeepsInv(s', b);
      }
    }
  }

  lemma EndReadKeepsInv(s: Images, i: nat)
    requires Inv(s)
    ensures Inv(ReadEnded(s, i))
  {
    if i < |s.ongoing| {
      var b := s.ongoing[i].batch;
      assert s.ongoing[i] in s.ongoing;
      var s' := s.(ongoing := s.ongoing[..i] + s.ongoing[i + 1..]);
      ReadRemoved(s.ongoing, i, b);
      assert BatchFits(s, b);
      forall c: Id | c != b ensures BatchFits(s', c) {
        assert BatchFits(s, c);
        ReadRemoved(s.ongoing, i, c);
      }
      forall read | read in s'.ongoing ensures read in s.ongoing {
      }
      FinishKeepsInv(s', b);
    }
  }

  lemma ReleaseAllKeepsInv(s: Images, gone: set<Id>)
    requires Inv(s)
    ensures Inv(AllReleased(s, gone))
  {
    var after := AllReleased(s, gone);
    forall c: Id ensures BatchFits(after, c) {
      assert BatchFits(s, c);
    }
    SubsetIsNoLarger(after.reservations, s.reservations);
  }

  lemma StepKeepsInv(s: Images, step: Step)
    requires Inv(s)
    ensures Inv(Next(s, step))
  {
    match step
    case Begin(session, keys) => BeginKeepsInv(s, session, keys);
    case Fill(b, selections) => FillKeepsInv(s, b, selections);
    case StartRead(b, session, key, revision, expired, awaits) =>
      StartReadKeepsInv(s, b, session, key, revision, expired, awaits);
    case EndRead(i) => EndReadKeepsInv(s, i);
    case Expire(b) => ReleaseKeepsInv(s, b);
    case ReleaseBatch(b, session) => ReleaseKeepsInv(s, b);
    case ReleaseSession(session) => ReleaseAllKeepsInv(s, ListedFor(s, session));
    case ReleaseRuntime =>
      ReleaseAllKeepsInv(s, s.batches);
      CurrentIsNotReserved(AllReleased(s, s.batches));
  }

  lemma CurrentIsNotReserved(s: Images)
    requires Inv(s)
    ensures Inv(s.(current := false))
  {
    forall c: Id ensures BatchFits(s.(current := false), c) {
      assert BatchFits(s, c);
    }
  }

  lemma {:induction false} RunKeepsInv(s: Images, steps: seq<Step>)
    requires Inv(s)
    ensures Inv(Run(s, steps))
    decreases |steps|
  {
    if steps == [] {
    } else {
      StepKeepsInv(s, steps[0]);
      hide Inv, Next;
      RunKeepsInv(Next(s, steps[0]), steps[1..]);
    }
  }

  /**
   * After any run: at most two reservations; a batch is reserved exactly while it is unreleased or
   * still read; its read count is exact; once released it holds nothing; and what it holds and what
   * its reads hold together stay within the bound.
   */
  lemma ReservationsAreExact(steps: seq<Step>, b: Id)
    ensures var s := Run(NO_IMAGES, steps);
            && |s.reservations| <= MAX_RUNTIME_IMAGE_BATCHES
            && (b in s.objects ==>
                  && (b in s.reservations <==> !s.objects[b].released || Outstanding(s, b) > 0)
                  && s.objects[b].activeReads == Outstanding(s, b)
                  && (s.objects[b].released ==> s.objects[b].items == [])
                  && SizeOf(s.objects[b].items) + InFlight(s.ongoing, b) <= RETAINED_BYTE_LIMIT)
  {
    forall c: Id ensures BatchFits(NO_IMAGES, c) {
    }
    RunKeepsInv(NO_IMAGES, steps);
    assert BatchFits(Run(NO_IMAGES, steps), b);
  }

  /** When a runtime object is replaced and its reads are over, nothing stays reserved. */
  lemma ReplacedRuntimeDrains(s: Images)
    requires Inv(s) && s.batches == {} && s.begins == {} && s.ongoing == []
    ensures s.reservations == {}
  {
    forall b: Id ensures b !in s.reservations {
      assert BatchFits(s, b);
    }
  }
}
