/** The display-part computations as loops over inputs, elements and markers. */
module DisplayPartsLoops {
  import opened Prelude
  import opened Utf16
  import opened DisplayParts
  import opened DisplayPartsProofs

  method CollectMarkedSkillMarkerCounts(input: seq<Input>) returns (counts: map<Text, nat>)
    ensures counts == CountAllMarkers(input, map[])
  {
    counts := map[];
    var i := 0;
    while i < |input|
      invariant i <= |input|
      invariant CountAllMarkers(input, map[]) == CountAllMarkers(input[i..], counts)
    {
      assert input[i..][1..] == input[i + 1..];
      if input[i].TextInput? {
        counts := CountTextMarkers(input[i].text, input[i].elements, counts);
      }
      i := i + 1;
    }
  }

  method CountTextMarkers(text: Text, elements: seq<Element>, before: map<Text, nat>) returns (counts: map<Text, nat>)
    ensures counts == CountMarkers(text, elements, before)
  {
    counts := before;
    var i := 0;
    while i < |elements|
      invariant i <= |elements|
      invariant CountMarkers(text, elements, before) == CountMarkers(text, elements[i..], counts)
    {
      assert elements[i..][1..] == elements[i + 1..];
      var range := StringRangeFromUtf8ByteRange(text, elements[i].start, elements[i].end);
      if range.Some? {
        ByteRangeSelects(text, elements[i].start, elements[i].end);
        var marker := MarkerOf(text, elements[i], range.value);
        if StartsWith(marker, [DOLLAR]) {
          counts := counts[marker := (if marker in counts then counts[marker] else 0) + 1];
        }
      }
      i := i + 1;
    }
  }

  method FindFileMentionMarkerRange(text: Text, mention: Input) returns (selected: Option<Range>)
    requires mention.MentionInput?
    ensures selected == MentionRange(text, mention)
  {
    selected := None;
    var markers := MentionMarkers(mention);
    var i := 0;
    while i < |markers|
      invariant i <= |markers|
      invariant selected.Some? ==> selected.value.start <= selected.value.end <= |text|
      invariant MentionRange(text, mention) == EarliestMarker(text, markers[i..], selected)
    {
      assert markers[i..][1..] == markers[i + 1..];
      var start := IndexFrom(text, markers[i], 0);
      if start.Some? {
        var end := start.value + |markers[i]|;
        if selected.None? || start.value < selected.value.start
           || (start.value == selected.value.start && end > selected.value.end)
        {
          selected := Some(Range(start.value, end));
        }
      }
      i := i + 1;
    }
  }

  method UserInputTextContributions(input: seq<Input>) returns (texts: seq<Text>)
    ensures texts == Contributions(input)
  {
    var markers := CollectMarkedSkillMarkerCounts(input);
    texts := [];
    var i := 0;
    while i < |input|
      invariant i <= |input|
      invariant Contributions(input) == texts + ContributionsFrom(input, i, markers)
    {
      texts := texts + [Contribution(input, i, markers)];
      if input[i].SkillInput? {
        markers := WithoutMarker(markers, [DOLLAR] + input[i].name);
      }
      i := i + 1;
    }
  }

  method UserInputListToText(input: seq<Input>) returns (text: Text)
    ensures text == ListToText(input)
  {
    var texts := UserInputTextContributions(input);
    text := [];
    var i := 0;
    while i < |texts|
      invariant i <= |texts|
      invariant ListToText(input) == AppendAll(text, texts[i..])
    {
      assert texts[i..][1..] == texts[i + 1..];
      text := Append(text, texts[i]);
      i := i + 1;
    }
  }

  /** Shows one marked text; returns its parts, which tile the text, and what they used up. */
  method TextInputToDisplayParts(text: Text, elements: seq<Element>, offset: nat, input: seq<Input>, waiting: Waiting, shown: set<nat>)
    returns (after: Progress)
    ensures after == MarkedParts(text, elements, offset, input, waiting, shown)
    ensures Tile(after.parts, text, offset)
  {
    MarkedPartsTile(text, elements, offset, input, waiting, shown);
    hide MarkOne, MarkAll, SortedByStart, Tile;
    var sorted := SortedByStart(elements);
    MarkNone(text, offset, input, Progress([], 0, waiting, {}, shown));
    assert sorted[..0] == [];
    after := Progress([], 0, waiting, {}, shown);
    ghost var start := after;
    var i := 0;
    while i < |sorted|
      invariant i <= |sorted| && after.cursor <= |text|
      invariant after == MarkAll(text, offset, input, start, sorted[..i])
    {
      MarkAllStep(text, offset, input, start, sorted, i);
      after := MarkOneElement(text, offset, input, after, sorted[i]);
      i := i + 1;
    }
    assert sorted[..|sorted|] == sorted;
    if after.parts == [] {
      after := after.(parts := [PlainPart(text, false)]);
    } else if after.cursor < |text| {
      after := after.(parts := after.parts + [PlainPart(text[after.cursor..], false)]);
    }
  }

  lemma MarkNone(text: Text, offset: nat, input: seq<Input>, p: Progress)
    requires p.cursor <= |text|
    ensures MarkAll(text, offset, input, p, []) == p
  {
  }

  lemma MarkAllStep(text: Text, offset: nat, input: seq<Input>, p: Progress, elements: seq<Element>, i: nat)
    requires p.cursor <= |text| && i < |elements|
    ensures MarkAll(text, offset, input, p, elements[..i + 1])
         == MarkOne(text, offset, input, MarkAll(text, offset, input, p, elements[..i]), elements[i])
  {
    assert elements[..i + 1][..i] == elements[..i];
  }

  method MarkOneElement(text: Text, offset: nat, input: seq<Input>, p: Progress, e: Element) returns (after: Progress)
    requires p.cursor <= |text|
    ensures after == MarkOne(text, offset, input, p, e) && after.cursor <= |text|
  {
    ByteRangeSelects(text, e.start, e.end);
    var range := StringRangeFromUtf8ByteRange(text, e.start, e.end);
    if range.None? || range.value.start < p.cursor {
      return p;
    }
    var r := range.value;
    var mark := MarkAt(text, e, r, input, p.waiting, p.shown);
    if mark.NoMark? {
      return p;
    }
    var parts := p.parts;
    if r.start > p.cursor {
      parts := parts + [PlainPart(text[p.cursor..r.start], false)];
    }
    parts := parts + [MarkPart(mark, SourceAt(text, r, offset))];
    after := p.(parts := parts, cursor := r.end);
    match mark {
      case SkillMark(skill) =>
        after := after.(waiting := WaitingAfter(MarkerOf(text, e, r), p.waiting), skills := p.skills + {skill.id});
      case MentionMark(index, _) =>
        after := after.(shown := p.shown + {index});
      case FileMark(_) =>
    }
  }

  /** All parts of a message; every source text addresses its value in the flattened message. */
  method UserInputsToDisplayParts(input: seq<Input>) returns (parts: seq<Part>)
    ensures parts == PartsOf(input)
    ensures forall part <- parts :: Addresses(ListToText(input), part)
  {
    SourceTextsAddressTheMessage(input);
    var texts := UserInputTextContributions(input);
    var d := Start(input);
    while d.next < |input|
      invariant ShowFrom(input, texts, d) == ShowFrom(input, texts, Start(input))
      decreases |input| - d.next
    {
      d := ShowNext(input, texts, d);
    }
    parts := d.parts;
  }

  method ShowNext(input: seq<Input>, texts: seq<Text>, d: Display) returns (after: Display)
    requires |texts| == |input| && d.next < |input|
    ensures after == Shown(input, texts, d)
  {
    var i := d.next;
    var current := input[i];
    var text := Append(d.text, texts[i]);
    var offset := StartOffset(d.text, texts[i]);
    if current.TextInput? && current.elements != [] {
      var marked := TextInputToDisplayParts(current.text, current.elements, offset, input, d.waiting, d.shown);
      return Display(i + 1, d.parts + marked.parts, marked.waiting, d.skills + marked.skills, marked.shown, text);
    }
    if current.TextInput? && i + 1 < |input| && IsFileMention(input[i + 1]) {
      var echo := FileEcho(current.text, input[i + 1], offset);
      if echo.Some? {
        return d.(next := i + 2, parts := d.parts + echo.value, shown := d.shown + {i + 1}, text := Append(text, texts[i + 1]));
      }
    }
    if (current.SkillInput? && current.path in d.skills) || (IsFileMention(current) && i in d.shown) {
      return d.(next := i + 1, text := text);
    }
    if current.TextInput? && i + 1 < |input| && input[i + 1].SkillInput? {
      var echo := SkillEcho(current.text, input[i + 1]);
      if echo.Some? {
        return d.(next := i + 2, parts := d.parts + echo.value, text := Append(text, texts[i + 1]));
      }
    }
    return d.(next := i + 1, parts := d.parts + [PartOf(current, i)], text := text);
  }
}
