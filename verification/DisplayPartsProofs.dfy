/** Where the parts of a message are in its text, and that they spell its text inputs out in full. */
module DisplayPartsProofs {
  import opened Prelude
  import opened Utf16
  import opened DisplayParts

  // ---------------------------------------------------------------------------------------------
  // What parts spell
  // ---------------------------------------------------------------------------------------------

  function SourceOf(part: Part): Option<SourceText> {
    match part
    case SkillPart(_, source) => source
    case FilePart(_, source) => source
    case _ => None
  }

  /** The text that a part stands for; an echoed skill stands for its marker. */
  function Spelling(part: Part): Text {
    if SourceOf(part).Some? then SourceOf(part).value.value
    else
      match part
      case PlainPart(text, _) => text
      case SkillPart(skill, _) => [DOLLAR] + skill.name
      case _ => []
  }

  function SpellAll(parts: seq<Part>): Text
    decreases |parts|
  {
    if parts == [] then [] else SpellAll(parts[..|parts| - 1]) + Spelling(parts[|parts| - 1])
  }

  /** Every source text starts where the parts before it end, counted from `offset`. */
  ghost predicate InPlace(parts: seq<Part>, offset: nat)
    decreases |parts|
  {
    parts == [] || (
      var front, last := parts[..|parts| - 1], parts[|parts| - 1];
      && InPlace(front, offset)
      && (SourceOf(last).Some? ==>
            && SourceOf(last).value.start == offset + |SpellAll(front)|
            && SourceOf(last).value.end == offset + |SpellAll(front)| + |Spelling(last)|))
  }

  /** The parts tile the text: side by side, in order, nothing lost, nothing twice. */
  ghost predicate Tile(parts: seq<Part>, text: Text, offset: nat) {
    SpellAll(parts) == text && InPlace(parts, offset)
  }

  lemma TileOneMore(parts: seq<Part>, part: Part, text: Text, offset: nat)
    requires Tile(parts, text, offset)
    requires SourceOf(part).Some? ==>
               && SourceOf(part).value.start == offset + |text|
               && SourceOf(part).value.end == offset + |text| + |Spelling(part)|
    ensures Tile(parts + [part], text + Spelling(part), offset)
  {
    assert (parts + [part])[..|parts|] == parts;
  }

  lemma TilePlain(parts: seq<Part>, text: Text, i: nat, j: nat, offset: nat)
    requires i <= j <= |text| && Tile(parts, text[..i], offset)
    ensures Tile(parts + (if i < j then [PlainPart(text[i..j], false)] else []), text[..j], offset)
  {
    if i < j {
      TileOneMore(parts, PlainPart(text[i..j], false), text[..i], offset);
      assert text[..i] + text[i..j] == text[..j];
    } else {
      assert parts + [] == parts;
    }
  }

  lemma TileMark(parts: seq<Part>, part: Part, text: Text, r: Range, offset: nat)
    requires r.start <= r.end <= |text| && Tile(parts, text[..r.start], offset)
    requires SourceOf(part) == Some(SourceAt(text, r, offset))
    ensures Tile(parts + [part], text[..r.end], offset)
  {
    TileOneMore(parts, part, text[..r.start], offset);
    assert text[..r.start] + text[r.start..r.end] == text[..r.end];
  }

  // ---------------------------------------------------------------------------------------------
  // Marked texts
  // ---------------------------------------------------------------------------------------------

  lemma MarkOneTiles(text: Text, offset: nat, input: seq<Input>, p: Progress, e: Element)
    requires p.cursor <= |text| && Tile(p.parts, text[..p.cursor], offset)
    ensures var after := MarkOne(text, offset, input, p, e);
            && after.cursor <= |text|
            && Tile(after.parts, text[..after.cursor], offset)
            && |p.parts| <= |after.parts|
            && (after.parts == [] ==> after == p)
  {
    var found := RangeOf(text, e);
    if found.Some? && found.value.start >= p.cursor {
      var r := found.value;
      var mark := MarkAt(text, e, r, input, p.waiting, p.shown);
      if !mark.NoMark? {
        TilePlain(p.parts, text, p.cursor, r.start, offset);
        var before := p.parts + (if r.start > p.cursor then [PlainPart(text[p.cursor..r.start], false)] else []);
        TileMark(before, MarkPart(mark, SourceAt(text, r, offset)), text, r, offset);
      }
    }
  }

  lemma {:induction false} MarkAllTiles(text: Text, offset: nat, input: seq<Input>, p: Progress, elements: seq<Element>)
    requires p.cursor <= |text| && Tile(p.parts, text[..p.cursor], offset)
    ensures var after := MarkAll(text, offset, input, p, elements);
            && Tile(after.parts, text[..after.cursor], offset)
            && (after.parts == [] ==> after == p)
    decreases |elements|
  {
    if elements == [] {
    } else {
      MarkAllTiles(text, offset, input, p, elements[..|elements| - 1]);
      var rest := MarkAll(text, offset, input, p, elements[..|elements| - 1]);
      MarkOneTiles(text, offset, input, rest, elements[|elements| - 1]);
    }
  }

  /** Plain parts and marks of one marked text tile the text, whatever ranges were marked. */
  lemma MarkedPartsTile(text: Text, elements: seq<Element>, offset: nat, input: seq<Input>, waiting: Waiting, shown: set<nat>)
    ensures Tile(MarkedParts(text, elements, offset, input, waiting, shown).parts, text, offset)
  {
    var start := Progress([], 0, waiting, {}, shown);
    assert text[..0] == [];
    MarkAllTiles(text, offset, input, start, SortedByStart(elements));
    var p := MarkAll(text, offset, input, start, SortedByStart(elements));
    assert text[..|text|] == text;
    TilePlain(p.parts, text, p.cursor, |text|, offset);
    if p.parts == [] {
      TileOneMore([], PlainPart(text, false), [], offset);
      assert [] + [PlainPart(text, false)] == [PlainPart(text, false)];
    }
  }

  ghost predicate IsSorted(elements: seq<Element>) {
    forall i, j | 0 <= i < j < |elements| :: elements[i].start <= elements[j].start
  }

  lemma {:induction false} InsertedKeepsElements(e: Element, sorted: seq<Element>)
    ensures multiset(Inserted(e, sorted)) == multiset(sorted) + multiset{e}
    decreases |sorted|
  {
    if sorted != [] && sorted[|sorted| - 1].start > e.start {
      assert sorted == sorted[..|sorted| - 1] + [sorted[|sorted| - 1]];
      InsertedKeepsElements(e, sorted[..|sorted| - 1]);
    }
  }

  lemma {:induction false} InsertedIsSorted(e: Element, sorted: seq<Element>)
    requires IsSorted(sorted)
    ensures IsSorted(Inserted(e, sorted))
    decreases |sorted|
  {
    if sorted != [] && sorted[|sorted| - 1].start > e.start {
      var front, last := sorted[..|sorted| - 1], sorted[|sorted| - 1];
      InsertedIsSorted(e, front);
      InsertedKeepsElements(e, front);
      var inner := Inserted(e, front);
      forall k | 0 <= k < |inner| ensures inner[k].start <= last.start {
        assert inner[k] in multiset(inner);
        assert inner[k] in multiset(front) || inner[k] == e;
        assert inner[k] in front || inner[k] == e;
      }
    }
  }

  /** The marked ranges are taken in the order of their starts. */
  lemma {:induction false} MarksAreSorted(elements: seq<Element>)
    ensures multiset(SortedByStart(elements)) == multiset(elements)
    ensures IsSorted(SortedByStart(elements))
    decreases |elements|
  {
    if elements == [] {
    } else {
      var front, last := elements[..|elements| - 1], elements[|elements| - 1];
      assert elements == front + [last];
      MarksAreSorted(front);
      InsertedKeepsElements(last, SortedByStart(front));
      InsertedIsSorted(last, SortedByStart(front));
      hide IsSorted, Inserted;
    }
  }

  // ---------------------------------------------------------------------------------------------
  // Echoes
  // ---------------------------------------------------------------------------------------------

  lemma FileEchoTiles(text: Text, mention: Input, offset: nat)
    requires mention.MentionInput? && FileEcho(text, mention, offset).Some?
    ensures Tile(FileEcho(text, mention, offset).value, text, offset)
  {
    var r := MentionRange(text, mention).value;
    assert text[..0] == [] && text[..|text|] == text;
    TilePlain([], text, 0, r.start, offset);
    var before := if r.start > 0 then [PlainPart(text[..r.start], false)] else [];
    assert [] + before == before && text[0..r.start] == text[..r.start];
    TileMark(before, FilePart(FileOf(mention), Some(SourceAt(text, r, offset))), text, r, offset);
    TilePlain(before + [FilePart(FileOf(mention), Some(SourceAt(text, r, offset)))], text, r.end, |text|, offset);
    assert text[r.end..|text|] == text[r.end..];
  }

  lemma SkillEchoTiles(text: Text, skill: Input, offset: nat)
    requires skill.SkillInput? && SkillEcho(text, skill).Some?
    ensures Tile(SkillEcho(text, skill).value, text, offset)
  {
    var marker := [DOLLAR] + skill.name;
    var cut := |text| - |marker|;
    assert text[..0] == [];
    TilePlain([], text, 0, cut, offset);
    var before := if |text| > |marker| then [PlainPart(text[..cut], false)] else [];
    assert [] + before == before && text[0..cut] == text[..cut];
    TileOneMore(before, SkillPart(SkillOf(skill), None), text[..cut], offset);
    assert text[..cut] + marker == text;
  }

  lemma PlainTiles(text: Text, offset: nat)
    ensures Tile([PlainPart(text, false)], text, offset)
  {
    TileOneMore([], PlainPart(text, false), [], offset);
    assert [] + [PlainPart(text, false)] == [PlainPart(text, false)];
  }

  /** Whichever way a text input is shown, its parts spell out the text in full. */
  lemma TextInputsAreSpelledOut(input: seq<Input>, texts: seq<Text>, d: Display)
    requires |texts| == |input| && d.next < |input| && input[d.next].TextInput?
    ensures var after := Shown(input, texts, d);
            && |d.parts| <= |after.parts| && after.parts[..|d.parts|] == d.parts
            && Tile(after.parts[|d.parts|..], input[d.next].text, StartOffset(d.text, texts[d.next]))
  {
    hide Tile, MarkedParts, FileEcho, SkillEcho, Append, StartOffset, IsFilePath;
    var i := d.next;
    var text, elements := input[i].text, input[i].elements;
    var offset := StartOffset(d.text, texts[i]);
    var hasMention := i + 1 < |input| && IsFileMention(input[i + 1]);
    var hasSkill := i + 1 < |input| && input[i + 1].SkillInput?;
    if elements != [] {
      var marked := MarkedParts(text, elements, offset, input, d.waiting, d.shown).parts;
      MarkedPartsTile(text, elements, offset, input, d.waiting, d.shown);
      AddedAfter(d.parts, marked);
    } else if hasMention && FileEcho(text, input[i + 1], offset).Some? {
      FileEchoTiles(text, input[i + 1], offset);
      AddedAfter(d.parts, FileEcho(text, input[i + 1], offset).value);
    } else if hasSkill && SkillEcho(text, input[i + 1]).Some? {
      SkillEchoTiles(text, input[i + 1], offset);
      AddedAfter(d.parts, SkillEcho(text, input[i + 1]).value);
    } else {
      PlainTiles(text, offset);
      AddedAfter(d.parts, [PlainPart(text, false)]);
    }
  }

  lemma AddedAfter(parts: seq<Part>, added: seq<Part>)
    ensures (parts + added)[..|parts|] == parts && (parts + added)[|parts|..] == added
  {
  }

  // ---------------------------------------------------------------------------------------------
  // Addresses
  // ---------------------------------------------------------------------------------------------

  /** The source text of the part, if it has one, is at its place in the message. */
  ghost predicate Addresses(full: Text, part: Part) {
    SourceOf(part).Some? ==>
      var source := SourceOf(part).value;
      source.start <= source.end <= |full| && full[source.start..source.end] == source.value
  }

  ghost predicate IsAt(full: Text, offset: nat, text: Text) {
    offset + |text| <= |full| && full[offset..offset + |text|] == text
  }

  lemma IsAtSplits(full: Text, offset: nat, a: Text, b: Text)
    requires IsAt(full, offset, a + b)
    ensures IsAt(full, offset, a) && IsAt(full, offset + |a|, b)
  {
    var both := full[offset..offset + |a| + |b|];
    assert both[..|a|] == a && both[|a|..] == b;
    assert full[offset..offset + |a|] == both[..|a|];
    assert full[offset + |a|..offset + |a| + |b|] == both[|a|..];
  }

  lemma IsAtExtends(full: Text, text: Text, offset: nat, value: Text)
    requires text <= full && IsAt(text, offset, value)
    ensures IsAt(full, offset, value)
  {
    assert full[offset..offset + |value|] == text[offset..offset + |value|];
  }

  ghost predicate AllAddress(full: Text, parts: seq<Part>)
    decreases |parts|
  {
    parts == [] || (AllAddress(full, parts[..|parts| - 1]) && Addresses(full, parts[|parts| - 1]))
  }

  lemma {:induction false} AllAddressIff(full: Text, parts: seq<Part>)
    ensures AllAddress(full, parts) <==> forall part <- parts :: Addresses(full, part)
    decreases |parts|
  {
    hide Addresses;
    if parts == [] {
    } else {
      var front, last := parts[..|parts| - 1], parts[|parts| - 1];
      AllAddressIff(full, front);
      assert last in parts;
      assert forall part <- parts :: part in front || part == last;
      assert forall part <- front :: part in parts;
    }
  }

  lemma {:induction false} TilesAddress(parts: seq<Part>, text: Text, offset: nat, full: Text)
    requires Tile(parts, text, offset) && IsAt(full, offset, text)
    ensures AllAddress(full, parts)
    decreases |parts|
  {
    hide Tile, IsAt, Spelling, SpellAll, InPlace, Addresses;
    if parts == [] {
    } else {
      var front, last := parts[..|parts| - 1], parts[|parts| - 1];
      TileLast(parts, text, offset);
      IsAtSplits(full, offset, SpellAll(front), Spelling(last));
      TilesAddress(front, SpellAll(front), offset, full);
      AddressesInPlace(full, last, offset + |SpellAll(front)|);
    }
  }

  lemma TileLast(parts: seq<Part>, text: Text, offset: nat)
    requires Tile(parts, text, offset) && parts != []
    ensures var front, last := parts[..|parts| - 1], parts[|parts| - 1];
            && text == SpellAll(front) + Spelling(last)
            && Tile(front, SpellAll(front), offset)
            && IsPlacedAt(last, offset + |SpellAll(front)|)
  {
    hide Spelling;
  }

  ghost predicate IsPlacedAt(part: Part, start: nat) {
    SourceOf(part).Some? ==>
      SourceOf(part).value.start == start && SourceOf(part).value.end == start + |Spelling(part)|
  }

  lemma AddressesInPlace(full: Text, part: Part, start: nat)
    requires IsAt(full, start, Spelling(part))
    requires IsPlacedAt(part, start)
    ensures Addresses(full, part)
  {
  }

  lemma AppendPlaces(text: Text, next: Text)
    ensures text <= Append(text, next)
    ensures IsAt(Append(text, next), StartOffset(text, next), next)
  {
  }

  lemma {:induction false} AppendAllExtends(text: Text, texts: seq<Text>)
    ensures text <= AppendAll(text, texts)
    decreases |texts|
  {
    if texts == [] {
    } else {
      AppendPlaces(text, texts[0]);
      AppendAllExtends(Append(text, texts[0]), texts[1..]);
    }
  }

  /** What holds between two inputs: the text so far is completed by the texts to come. */
  ghost predicate OnTheWay(input: seq<Input>, texts: seq<Text>, d: Display, full: Text) {
    && |texts| == |input| && d.next <= |input|
    && AppendAll(d.text, texts[d.next..]) == full
    && forall part <- d.parts :: Addresses(full, part)
  }

  lemma ShownText(input: seq<Input>, texts: seq<Text>, d: Display)
    requires |texts| == |input| && d.next < |input|
    ensures var after := Shown(input, texts, d);
            after.next <= |input| && AppendAll(after.text, texts[after.next..]) == AppendAll(d.text, texts[d.next..])
  {
    var rest := texts[d.next..];
    assert rest[0] == texts[d.next] && rest[1..] == texts[d.next + 1..];
    if d.next + 1 < |input| {
      assert rest[1..][0] == texts[d.next + 1] && rest[1..][1..] == texts[d.next + 2..];
    }
    hide MarkedParts, FileEcho, SkillEcho, Append;
  }

  lemma ShownAddresses(input: seq<Input>, texts: seq<Text>, d: Display, full: Text)
    requires OnTheWay(input, texts, d, full) && d.next < |input|
    requires forall k | 0 <= k < |input| && input[k].TextInput? :: texts[k] == input[k].text
    ensures OnTheWay(input, texts, Shown(input, texts, d), full)
  {
    var i := d.next;
    ShownText(input, texts, d);
    if input[i].TextInput? {
      TextInputsAreSpelledOut(input, texts, d);
      ShownTextIsAt(input, texts, d, full);
      hide Shown, AppendAll, Tile, Addresses, IsAt, Append, StartOffset;
      var after := Shown(input, texts, d);
      TilesAddress(after.parts[|d.parts|..], input[i].text, StartOffset(d.text, texts[i]), full);
      AllAddressIff(full, after.parts[|d.parts|..]);
      assert after.parts == d.parts + after.parts[|d.parts|..];
    } else {
      ShownWithoutSource(input, texts, d, full);
      hide Shown, AppendAll, Tile, Addresses;
    }
  }

  lemma ShownTextIsAt(input: seq<Input>, texts: seq<Text>, d: Display, full: Text)
    requires OnTheWay(input, texts, d, full) && d.next < |input|
    ensures IsAt(full, StartOffset(d.text, texts[d.next]), texts[d.next])
  {
    var rest := texts[d.next..];
    assert rest[0] == texts[d.next];
    AppendPlaces(d.text, texts[d.next]);
    AppendAllExtends(Append(d.text, texts[d.next]), rest[1..]);
    hide Append, StartOffset, IsAt, Addresses;
    IsAtExtends(full, Append(d.text, texts[d.next]), StartOffset(d.text, texts[d.next]), texts[d.next]);
  }

  lemma ShownWithoutSource(input: seq<Input>, texts: seq<Text>, d: Display, full: Text)
    requires |texts| == |input| && d.next < |input| && !input[d.next].TextInput?
    requires forall part <- d.parts :: Addresses(full, part)
    ensures forall part <- Shown(input, texts, d).parts :: Addresses(full, part)
  {
    assert Addresses(full, PartOf(input[d.next], d.next));
    hide Append, StartOffset, Addresses, PartOf;
  }

  lemma {:induction false} ShowFromAddresses(input: seq<Input>, texts: seq<Text>, d: Display, full: Text)
    requires OnTheWay(input, texts, d, full)
    requires forall k | 0 <= k < |input| && input[k].TextInput? :: texts[k] == input[k].text
    ensures forall part <- ShowFrom(input, texts, d).parts :: Addresses(full, part)
    decreases |input| - d.next
  {
    if d.next >= |input| {
    } else {
      ShownAddresses(input, texts, d, full);
      hide Shown, AppendAll;
      ShowFromAddresses(input, texts, Shown(input, texts, d), full);
    }
  }

  /** Every source text of a message addresses its own value in the flattened message. */
  lemma SourceTextsAddressTheMessage(input: seq<Input>)
    ensures forall part <- PartsOf(input) :: Addresses(ListToText(input), part)
  {
    var texts := Contributions(input);
    assert texts[0..] == texts;
    ShowFromAddresses(input, texts, Start(input), ListToText(input));
  }

  // ---------------------------------------------------------------------------------------------
  // Contributions
  // ---------------------------------------------------------------------------------------------

  /** How often a marker is marked in a text. */
  function Marked(text: Text, elements: seq<Element>, marker: Text): nat
    decreases |elements|
  {
    if elements == [] then 0
    else
      var r := RangeOf(text, elements[0]);
      (if r.Some? && MarkerOf(text, elements[0], r.value) == marker then 1 else 0) + Marked(text, elements[1..], marker)
  }

  /** How often a marker is marked in the texts of a message. */
  function MarkedInAll(input: seq<Input>, marker: Text): nat
    decreases |input|
  {
    if input == [] then 0
    else (if input[0].TextInput? then Marked(input[0].text, input[0].elements, marker) else 0) + MarkedInAll(input[1..], marker)
  }

  /** How many skills before position `i` have the marker. */
  function SkillsBefore(input: seq<Input>, i: nat, marker: Text): nat
    requires i <= |input|
  {
    if i == 0 then 0
    else SkillsBefore(input, i - 1, marker)
         + if input[i - 1].SkillInput? && [DOLLAR] + input[i - 1].name == marker then 1 else 0
  }

  function CountOf(counts: map<Text, nat>, marker: Text): nat {
    if marker in counts then counts[marker] else 0
  }

  lemma {:induction false} CountsOfText(text: Text, elements: seq<Element>, counts: map<Text, nat>, marker: Text)
    requires StartsWith(marker, [DOLLAR])
    ensures CountOf(CountMarkers(text, elements, counts), marker) == CountOf(counts, marker) + Marked(text, elements, marker)
    decreases |elements|
  {
    if elements == [] {
    } else {
      var r := RangeOf(text, elements[0]);
      var counted :=
        if r.Some? && StartsWith(MarkerOf(text, elements[0], r.value), [DOLLAR])
        then var m := MarkerOf(text, elements[0], r.value); counts[m := CountOf(counts, m) + 1]
        else counts;
      CountsOfText(text, elements[1..], counted, marker);
    }
  }

  lemma {:induction false} CountsOfAll(input: seq<Input>, counts: map<Text, nat>, marker: Text)
    requires StartsWith(marker, [DOLLAR])
    ensures CountOf(CountAllMarkers(input, counts), marker) == CountOf(counts, marker) + MarkedInAll(input, marker)
    decreases |input|
  {
    if input == [] {
    } else {
      if input[0].TextInput? {
        CountsOfText(input[0].text, input[0].elements, counts, marker);
      }
      CountsOfAll(input[1..], if input[0].TextInput? then CountMarkers(input[0].text, input[0].elements, counts) else counts, marker);
    }
  }

  function Less(a: nat, b: nat): nat {
    if a >= b then a - b else 0
  }

  lemma {:induction false} ContributionOfSkill(input: seq<Input>, total: nat, i: nat, counts: map<Text, nat>, k: nat)
    requires i <= k < |input| && input[k].SkillInput?
    requires var marker := [DOLLAR] + input[k].name; CountOf(counts, marker) == Less(total, SkillsBefore(input, i, marker))
    ensures var marker := [DOLLAR] + input[k].name;
            ContributionsFrom(input, i, counts)[k - i]
            == if SkillsBefore(input, k, marker) < total || RepeatsSkill(input, k) then [] else marker
    decreases k - i
  {
    if i >= k {
    } else {
      ContributionOfSkill(input, total, i + 1, CountsAfter(input, i, counts), k);
    }
  }

  /**
   * A skill adds its marker to the text unless the marker stands there already: because a marked
   * range is left for it, each range serving one skill in order, or because the text before it ends so.
   */
  lemma SkillContributesIff(input: seq<Input>, k: nat)
    requires k < |input| && input[k].SkillInput?
    ensures var marker := [DOLLAR] + input[k].name;
            Contributions(input)[k]
            == if SkillsBefore(input, k, marker) < MarkedInAll(input, marker) || RepeatsSkill(input, k) then [] else marker
  {
    var marker := [DOLLAR] + input[k].name;
    assert StartsWith(marker, [DOLLAR]);
    CountsOfAll(input, map[], marker);
    ContributionOfSkill(input, MarkedInAll(input, marker), 0, CountAllMarkers(input, map[]), k);
  }

  // ---------------------------------------------------------------------------------------------
  // No reference is lost
  // ---------------------------------------------------------------------------------------------

  ghost predicate ShowsSkill(parts: seq<Part>, id: Text) {
    exists part <- parts :: part.SkillPart? && part.skill.id == id
  }

  ghost predicate ShowsFile(parts: seq<Part>, file: FileReference) {
    exists part <- parts :: part.FilePart? && part.file == file
  }

  /** A skill or file mention of the message has a part. */
  ghost predicate IsShown(parts: seq<Part>, input: Input) {
    && (input.SkillInput? ==> ShowsSkill(parts, input.path))
    && (IsFileMention(input) ==> ShowsFile(parts, FileOf(input)))
  }

  ghost predicate ShowsAll(parts: seq<Part>, input: seq<Input>, skills: set<Text>, shown: set<nat>) {
    && (forall id <- skills :: ShowsSkill(parts, id))
    && (forall i <- shown :: i < |input| && IsFileMention(input[i]) && ShowsFile(parts, FileOf(input[i])))
  }

  lemma MorePartsShowMore(parts: seq<Part>, added: seq<Part>, input: seq<Input>, skills: set<Text>, shown: set<nat>)
    requires ShowsAll(parts, input, skills, shown)
    ensures ShowsAll(parts + added, input, skills, shown)
  {
    forall id | id in skills ensures ShowsSkill(parts + added, id) {
      var part :| part in parts && part.SkillPart? && part.skill.id == id;
      assert part in parts + added;
    }
    forall i | i in shown ensures ShowsFile(parts + added, FileOf(input[i])) {
      var part :| part in parts && part.FilePart? && part.file == FileOf(input[i]);
      assert part in parts + added;
    }
  }

  lemma StillShown(parts: seq<Part>, added: seq<Part>, input: Input)
    requires IsShown(parts, input)
    ensures IsShown(parts + added, input)
  {
    if input.SkillInput? {
      var part :| part in parts && part.SkillPart? && part.skill.id == input.path;
      assert part in parts + added;
    }
    if IsFileMention(input) {
      var part :| part in parts && part.FilePart? && part.file == FileOf(input);
      assert part in parts + added;
    }
  }

  lemma MarkOneShows(text: Text, offset: nat, input: seq<Input>, p: Progress, e: Element, kept: set<nat>)
    requires p.cursor <= |text| && ShowsAll(p.parts, input, p.skills, p.shown - kept)
    ensures var after := MarkOne(text, offset, input, p, e); ShowsAll(after.parts, input, after.skills, after.shown - kept)
  {
    var found := RangeOf(text, e);
    if found.Some? && found.value.start >= p.cursor {
      var r := found.value;
      var mark := MarkAt(text, e, r, input, p.waiting, p.shown);
      if !mark.NoMark? {
        var part := MarkPart(mark, SourceAt(text, r, offset));
        var before := p.parts + (if r.start > p.cursor then [PlainPart(text[p.cursor..r.start], false)] else []);
        MorePartsShowMore(p.parts, if r.start > p.cursor then [PlainPart(text[p.cursor..r.start], false)] else [],
                          input, p.skills, p.shown - kept);
        MorePartsShowMore(before, [part], input, p.skills, p.shown - kept);
        MentionIsFile(text, e, r, input, p.waiting, p.shown);
        var after := MarkOne(text, offset, input, p, e);
        assert after.parts == before + [part];
        hide RangeOf, MarkAt, MarkOne, ShowsAll;
        MarkIsShown(before, input, mark, SourceAt(text, r, offset), p.skills, p.shown - kept);
        assert after.shown - kept <= (p.shown - kept) + (if mark.MentionMark? then {mark.index} else {});
        FewerShown(before + [part], input, after.skills, (p.shown - kept) + (if mark.MentionMark? then {mark.index} else {}),
                   after.shown - kept);
      }
    }
  }

  lemma MentionIsFile(text: Text, e: Element, r: Range, input: seq<Input>, waiting: Waiting, shown: set<nat>)
    requires r.start <= r.end <= |text|
    ensures var mark := MarkAt(text, e, r, input, waiting, shown);
            mark.MentionMark? ==> mark.index < |input| && IsFileMention(input[mark.index]) && mark.file == FileOf(input[mark.index])
  {
  }

  lemma FewerShown(parts: seq<Part>, input: seq<Input>, skills: set<Text>, shown: set<nat>, fewer: set<nat>)
    requires ShowsAll(parts, input, skills, shown) && fewer <= shown
    ensures ShowsAll(parts, input, skills, fewer)
  {
  }

  lemma MarkIsShown(parts: seq<Part>, input: seq<Input>, mark: Mark, source: SourceText, skills: set<Text>, shown: set<nat>)
    requires !mark.NoMark? && ShowsAll(parts + [MarkPart(mark, source)], input, skills, shown)
    requires mark.MentionMark? ==>
               mark.index < |input| && IsFileMention(input[mark.index]) && mark.file == FileOf(input[mark.index])
    ensures ShowsAll(parts + [MarkPart(mark, source)], input,
                     if mark.SkillMark? then skills + {mark.skill.id} else skills,
                     shown + (if mark.MentionMark? then {mark.index} else {}))
  {
    assert MarkPart(mark, source) in parts + [MarkPart(mark, source)];
  }

  lemma {:induction false} MarkAllShows(text: Text, offset: nat, input: seq<Input>, p: Progress, elements: seq<Element>, kept: set<nat>)
    requires p.cursor <= |text| && ShowsAll(p.parts, input, p.skills, p.shown - kept)
    ensures var after := MarkAll(text, offset, input, p, elements); ShowsAll(after.parts, input, after.skills, after.shown - kept)
    decreases |elements|
  {
    if elements == [] {
    } else {
      MarkAllShows(text, offset, input, p, elements[..|elements| - 1], kept);
      var rest := MarkAll(text, offset, input, p, elements[..|elements| - 1]);
      MarkOneShows(text, offset, input, rest, elements[|elements| - 1], kept);
    }
  }

  lemma MarkedPartsShow(text: Text, elements: seq<Element>, offset: nat, input: seq<Input>, waiting: Waiting, shown: set<nat>)
    ensures var after := MarkedParts(text, elements, offset, input, waiting, shown);
            ShowsAll(after.parts, input, after.skills, after.shown - shown)
  {
    var start := Progress([], 0, waiting, {}, shown);
    MarkAllShows(text, offset, input, start, SortedByStart(elements), shown);
    var p := MarkAll(text, offset, input, start, SortedByStart(elements));
    hide ShowsAll, MarkAll, SortedByStart;
    if p.parts == [] {
      MorePartsShowMore(p.parts, [PlainPart(text, false)], input, p.skills, p.shown - shown);
      assert p.parts + [PlainPart(text, false)] == [PlainPart(text, false)];
    } else if p.cursor < |text| {
      MorePartsShowMore(p.parts, [PlainPart(text[p.cursor..], false)], input, p.skills, p.shown - shown);
    }
  }

  /** What holds between two inputs: every reference so far has a part, and what counts as shown has one. */
  ghost predicate ShownSoFar(input: seq<Input>, d: Display) {
    && d.next <= |input|
    && ShowsAll(d.parts, input, d.skills, d.shown)
    && forall i | 0 <= i < d.next :: IsShown(d.parts, input[i])
  }

  /** Further parts keep what is shown; only the inputs they stand for need to be looked at. */
  lemma ShowingFurther(input: seq<Input>, d: Display, after: Display, added: seq<Part>)
    requires ShownSoFar(input, d) && after.parts == d.parts + added && d.next <= after.next <= |input|
    requires ShowsAll(after.parts, input, after.skills, after.shown)
    requires forall i | d.next <= i < after.next :: IsShown(after.parts, input[i])
    ensures ShownSoFar(input, after)
  {
    forall i | 0 <= i < d.next ensures IsShown(after.parts, input[i]) {
      StillShown(d.parts, added, input[i]);
    }
    hide ShowsAll, IsShown;
  }

  predicate IsReference(input: Input) {
    input.SkillInput? || IsFileMention(input)
  }

  lemma NoReferenceIsShown(parts: seq<Part>, input: Input)
    requires !IsReference(input)
    ensures IsShown(parts, input)
  {
  }

  lemma KnownIsShown(parts: seq<Part>, input: seq<Input>, skills: set<Text>, shown: set<nat>, i: nat)
    requires ShowsAll(parts, input, skills, shown) && i < |input|
    requires (input[i].SkillInput? && input[i].path in skills) || (IsFileMention(input[i]) && i in shown)
    ensures IsShown(parts, input[i])
  {
  }

  lemma PartShowsInput(input: Input, i: nat)
    ensures IsShown([PartOf(input, i)], input)
  {
    assert PartOf(input, i) in [PartOf(input, i)];
  }

  /** An echo shows its text and the reference after it. */
  lemma ShowingEcho(input: seq<Input>, d: Display, after: Display, echo: seq<Part>)
    requires ShownSoFar(input, d) && d.next + 1 < |input| && input[d.next].TextInput?
    requires after.next == d.next + 2 && after.parts == d.parts + echo && after.skills == d.skills
    requires IsShown(echo, input[d.next + 1])
    requires after.shown == d.shown || (IsFileMention(input[d.next + 1]) && after.shown == d.shown + {d.next + 1})
    ensures ShownSoFar(input, after)
  {
    MorePartsShowMore(d.parts, echo, input, d.skills, d.shown);
    AddedIsShown(d.parts, echo, input[d.next + 1]);
    NoReferenceIsShown(after.parts, input[d.next]);
    ShowingFurther(input, d, after, echo);
  }

  lemma ShownKeepsReferences(input: seq<Input>, texts: seq<Text>, d: Display)
    requires |texts| == |input| && d.next < |input| && ShownSoFar(input, d)
    ensures ShownSoFar(input, Shown(input, texts, d))
  {
    hide IsFilePath, Append, StartOffset, MarkedParts, FileEcho, SkillEcho, ShowsAll, IsShown, PartOf;
    var i := d.next;
    var current := input[i];
    var offset := StartOffset(d.text, texts[i]);
    var after := Shown(input, texts, d);
    if current.TextInput? && current.elements != [] {
      var marked := MarkedParts(current.text, current.elements, offset, input, d.waiting, d.shown);
      MarkedPartsShow(current.text, current.elements, offset, input, d.waiting, d.shown);
      ShownAfterMarks(input, d, marked);
      NoReferenceIsShown(after.parts, current);
      ShowingFurther(input, d, after, marked.parts);
    } else if current.TextInput? && i + 1 < |input| && IsFileMention(input[i + 1])
              && FileEcho(current.text, input[i + 1], offset).Some? {
      EchoShowsFile(current.text, input[i + 1], offset);
      ShowingEcho(input, d, after, FileEcho(current.text, input[i + 1], offset).value);
    } else if (current.SkillInput? && current.path in d.skills) || (IsFileMention(current) && i in d.shown) {
      KnownIsShown(d.parts, input, d.skills, d.shown, i);
      assert d.parts + [] == d.parts;
      ShowingFurther(input, d, after, []);
    } else if current.TextInput? && i + 1 < |input| && input[i + 1].SkillInput?
              && SkillEcho(current.text, input[i + 1]).Some? {
      EchoShowsSkill(current.text, input[i + 1]);
      ShowingEcho(input, d, after, SkillEcho(current.text, input[i + 1]).value);
    } else {
      MorePartsShowMore(d.parts, [PartOf(current, i)], input, d.skills, d.shown);
      PartShowsInput(current, i);
      AddedIsShown(d.parts, [PartOf(current, i)], current);
      ShowingFurther(input, d, after, [PartOf(current, i)]);
    }
  }

  lemma ShownAfterMarks(input: seq<Input>, d: Display, marked: Progress)
    requires ShowsAll(marked.parts, input, marked.skills, marked.shown - d.shown)
    requires ShowsAll(d.parts, input, d.skills, d.shown)
    ensures ShowsAll(d.parts + marked.parts, input, d.skills + marked.skills, marked.shown)
  {
    MorePartsShowMore(d.parts, marked.parts, input, d.skills, d.shown);
    forall id | id in marked.skills ensures ShowsSkill(d.parts + marked.parts, id) {
      var part :| part in marked.parts && part.SkillPart? && part.skill.id == id;
      assert part in d.parts + marked.parts;
    }
    forall i | i in marked.shown - d.shown ensures ShowsFile(d.parts + marked.parts, FileOf(input[i])) {
      var part :| part in marked.parts && part.FilePart? && part.file == FileOf(input[i]);
      assert part in d.parts + marked.parts;
    }
  }

  lemma AddedIsShown(parts: seq<Part>, added: seq<Part>, input: Input)
    requires IsShown(added, input)
    ensures IsShown(parts + added, input)
  {
    if input.SkillInput? {
      var part :| part in added && part.SkillPart? && part.skill.id == input.path;
      assert part in parts + added;
    }
    if IsFileMention(input) {
      var part :| part in added && part.FilePart? && part.file == FileOf(input);
      assert part in parts + added;
    }
  }

  lemma EchoShowsFile(text: Text, mention: Input, offset: nat)
    requires mention.MentionInput? && FileEcho(text, mention, offset).Some?
    ensures IsShown(FileEcho(text, mention, offset).value, mention)
  {
    var r := MentionRange(text, mention).value;
    assert FilePart(FileOf(mention), Some(SourceAt(text, r, offset))) in FileEcho(text, mention, offset).value;
  }

  lemma EchoShowsSkill(text: Text, skill: Input)
    requires skill.SkillInput? && SkillEcho(text, skill).Some?
    ensures IsShown(SkillEcho(text, skill).value, skill)
  {
    assert SkillPart(SkillOf(skill), None) in SkillEcho(text, skill).value;
  }

  lemma {:induction false} ShowFromKeepsReferences(input: seq<Input>, texts: seq<Text>, d: Display)
    requires |texts| == |input| && ShownSoFar(input, d)
    ensures forall i | 0 <= i < |input| :: IsShown(ShowFrom(input, texts, d).parts, input[i])
    decreases |input| - d.next
  {
    if d.next >= |input| {
    } else {
      ShownKeepsReferences(input, texts, d);
      hide Shown, IsShown, ShowsAll;
      ShowFromKeepsReferences(input, texts, Shown(input, texts, d));
    }
  }

  /** Every skill and every file mention of a message is shown by some part. */
  lemma EveryReferenceIsShown(input: seq<Input>)
    ensures forall i | 0 <= i < |input| :: IsShown(PartsOf(input), input[i])
  {
    ShowFromKeepsReferences(input, Contributions(input), Start(input));
  }
}
