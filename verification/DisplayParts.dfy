/**
 * The display parts of a user message: the text of the message, and the skills and files that it
 * names. A part may carry the place of its marker in the flattened message text.
 *
 * Strings are UTF-16. What a file reference derives from its path (separators, base name, kind) is
 * not modelled; a reference keeps the path and the display name it derives from.
 */
module DisplayParts {
  import opened Prelude
  import opened Utf16

  const DOLLAR: CodeUnit := 36
  const AT_SIGN: CodeUnit := 64
  const SPACE: CodeUnit := 32

  // ---------------------------------------------------------------------------------------------
  // Strings
  // ---------------------------------------------------------------------------------------------

  predicate IsSpace(u: CodeUnit) {
    || 9 <= u <= 13 || u == 32 || u == 0xA0 || u == 0x1680 || 0x2000 <= u <= 0x200A
    || u == 0x2028 || u == 0x2029 || u == 0x202F || u == 0x205F || u == 0x3000 || u == 0xFEFF
  }

  function TrimStart(text: Text): Text
    decreases |text|
  {
    if text != [] && IsSpace(text[0]) then TrimStart(text[1..]) else text
  }

  function TrimEnd(text: Text): Text
    decreases |text|
  {
    if text != [] && IsSpace(text[|text| - 1]) then TrimEnd(text[..|text| - 1]) else text
  }

  function Trim(text: Text): Text {
    TrimEnd(TrimStart(text))
  }

  predicate StartsWith(text: Text, prefix: Text) {
    prefix <= text
  }

  predicate EndsWith(text: Text, suffix: Text) {
    |suffix| <= |text| && text[|text| - |suffix|..] == suffix
  }

  /** The first place at or after `from` where the marker occurs. */
  function IndexFrom(text: Text, marker: Text, from: nat): (i: Option<nat>)
    ensures i.Some? ==> i.value + |marker| <= |text| && text[i.value..i.value + |marker|] == marker
    decreases |text| - from
  {
    if from + |marker| > |text| then None
    else if text[from..from + |marker|] == marker then Some(from)
    else IndexFrom(text, marker, from + 1)
  }

  predicate IsLetter(u: CodeUnit) {
    65 <= u <= 90 || 97 <= u <= 122
  }

  predicate IsSchemeUnit(u: CodeUnit) {
    IsLetter(u) || 48 <= u <= 57 || u == 43 || u == 45 || u == 46
  }

  function AfterScheme(text: Text): Text
    decreases |text|
  {
    if text != [] && IsSchemeUnit(text[0]) then AfterScheme(text[1..]) else text
  }

  /** The text starts with a URL scheme and `://`. */
  predicate HasScheme(text: Text) {
    text != [] && IsLetter(text[0]) && StartsWith(AfterScheme(text[1..]), [58, 47, 47])
  }

  // ---------------------------------------------------------------------------------------------
  // Inputs and parts
  // ---------------------------------------------------------------------------------------------

  /** A marked byte range of a text input. */
  datatype Element = Element(start: int, end: int, placeholder: Option<Text>)

  datatype Input =
    | TextInput(text: Text, elements: seq<Element>)
    | MentionInput(name: Text, path: Text)
    | SkillInput(name: Text, path: Text)
    | UrlInput(url: Text)
    | LocalImageInput(path: Text)
    | OtherInput(path: Text)

  datatype Skill = Skill(id: Text, name: Text, path: Text)

  datatype FileReference = FileReference(path: Text, displayName: Option<Text>)

  datatype SourceText = SourceText(value: Text, start: nat, end: nat)

  datatype Part =
    | PlainPart(text: Text, synthetic: bool)
    | SkillPart(skill: Skill, source: Option<SourceText>)
    | FilePart(file: FileReference, source: Option<SourceText>)
    | ImagePart(path: Text, index: nat)

  predicate IsFilePath(path: Text) {
    path != [] && !HasScheme(path)
  }

  predicate IsFileMention(input: Input) {
    input.MentionInput? && IsFilePath(Trim(input.path))
  }

  function UserInputText(input: Input): Text {
    match input
    case TextInput(text, _) => text
    case MentionInput(name, path) => if IsFileMention(input) then [AT_SIGN] + path else [AT_SIGN] + name
    case SkillInput(name, _) => [DOLLAR] + name
    case UrlInput(url) => url
    case LocalImageInput(_) => []
    case OtherInput(path) => path
  }

  function SkillOf(input: Input): Skill
    requires input.SkillInput?
  {
    Skill(input.path, input.name, input.path)
  }

  function FileOf(input: Input): FileReference
    requires input.MentionInput?
  {
    FileReference(input.path, Some(input.name))
  }

  function PartOf(input: Input, index: nat): Part {
    match input
    case TextInput(text, _) => PlainPart(text, false)
    case SkillInput(_, _) => SkillPart(SkillOf(input), None)
    case LocalImageInput(path) => ImagePart(path, index)
    case _ => if IsFileMention(input) then FilePart(FileOf(input), None) else PlainPart(UserInputText(input), true)
  }

  // ---------------------------------------------------------------------------------------------
  // Markers
  // ---------------------------------------------------------------------------------------------

  function RangeOf(text: Text, e: Element): (r: Option<Range>)
    ensures r.Some? ==> r.value.start < r.value.end <= |text|
  {
    ByteRangeSelects(text, e.start, e.end);
    RangeOfBytes(text, e.start, e.end)
  }

  function Slice(text: Text, r: Range): Text
    requires r.start <= r.end <= |text|
  {
    text[r.start..r.end]
  }

  function MarkerOf(text: Text, e: Element, r: Range): Text
    requires r.start <= r.end <= |text|
  {
    if e.placeholder.Some? then e.placeholder.value else Slice(text, r)
  }

  function SourceAt(text: Text, r: Range, offset: nat): SourceText
    requires r.start <= r.end <= |text|
  {
    SourceText(Slice(text, r), offset + r.start, offset + r.end)
  }

  /** `@path` and `@name`, each once, and not the bare sign. */
  function MentionMarkers(mention: Input): seq<Text>
    requires mention.MentionInput?
  {
    var byPath, byName := [AT_SIGN] + mention.path, [AT_SIGN] + mention.name;
    (if |byPath| > 1 then [byPath] else []) + (if |byName| > 1 && byName != byPath then [byName] else [])
  }

  predicate MatchesMention(text: Text, e: Element, r: Range, mention: Input)
    requires r.start <= r.end <= |text| && mention.MentionInput?
  {
    Slice(text, r) in MentionMarkers(mention) || MarkerOf(text, e, r) in MentionMarkers(mention)
  }

  /** The earliest of the markers in the text, and the longest of those. */
  function EarliestMarker(text: Text, markers: seq<Text>, selected: Option<Range>): (r: Option<Range>)
    requires selected.Some? ==> selected.value.start <= selected.value.end <= |text|
    ensures r.Some? ==> r.value.start <= r.value.end <= |text|
    decreases |markers|
  {
    if markers == [] then selected
    else
      var at := IndexFrom(text, markers[0], 0);
      var better := at.Some? && (
        || selected.None?
        || at.value < selected.value.start
        || (at.value == selected.value.start && at.value + |markers[0]| > selected.value.end));
      EarliestMarker(text, markers[1..], if better then Some(Range(at.value, at.value + |markers[0]|)) else selected)
  }

  function MentionRange(text: Text, mention: Input): (r: Option<Range>)
    requires mention.MentionInput?
    ensures r.Some? ==> r.value.start <= r.value.end <= |text|
  {
    EarliestMarker(text, MentionMarkers(mention), None)
  }

  // ---------------------------------------------------------------------------------------------
  // What each input contributes to the text
  // ---------------------------------------------------------------------------------------------

  /** The skill markers of one text input, added to a count. */
  function CountMarkers(text: Text, elements: seq<Element>, counts: map<Text, nat>): map<Text, nat>
    decreases |elements|
  {
    if elements == [] then counts
    else
      var r := RangeOf(text, elements[0]);
      var counted :=
        if r.Some? && StartsWith(MarkerOf(text, elements[0], r.value), [DOLLAR])
        then var marker := MarkerOf(text, elements[0], r.value);
             counts[marker := (if marker in counts then counts[marker] else 0) + 1]
        else counts;
      CountMarkers(text, elements[1..], counted)
  }

  function CountAllMarkers(input: seq<Input>, counts: map<Text, nat>): map<Text, nat>
    decreases |input|
  {
    if input == [] then counts
    else CountAllMarkers(input[1..], if input[0].TextInput? then CountMarkers(input[0].text, input[0].elements, counts) else counts)
  }

  predicate HasMarker(counts: map<Text, nat>, marker: Text) {
    marker in counts && counts[marker] > 0
  }

  function WithoutMarker(counts: map<Text, nat>, marker: Text): map<Text, nat> {
    if !HasMarker(counts, marker) then counts
    else if counts[marker] == 1 then counts - {marker}
    else counts[marker := counts[marker] - 1]
  }

  predicate HasMentionElement(text: Text, elements: seq<Element>, mention: Input)
    requires mention.MentionInput?
  {
    exists e <- elements :: RangeOf(text, e).Some? && MatchesMention(text, e, RangeOf(text, e).value, mention)
  }

  /** A file mention repeats the text before it when that text marks the file or contains its marker. */
  predicate RepeatsMention(input: seq<Input>, i: nat)
    requires i < |input| && input[i].MentionInput?
  {
    && i > 0 && input[i - 1].TextInput?
    && (HasMentionElement(input[i - 1].text, input[i - 1].elements, input[i])
        || MentionRange(input[i - 1].text, input[i]).Some?)
  }

  predicate RepeatsSkill(input: seq<Input>, i: nat)
    requires i < |input| && input[i].SkillInput?
  {
    i > 0 && input[i - 1].TextInput? && EndsWith(input[i - 1].text, [DOLLAR] + input[i].name)
  }

  function Contribution(input: seq<Input>, i: nat, counts: map<Text, nat>): Text
    requires i < |input|
  {
    match input[i]
    case MentionInput(_, _) =>
      if IsFileMention(input[i]) && RepeatsMention(input, i) then [] else UserInputText(input[i])
    case SkillInput(name, _) =>
      if HasMarker(counts, [DOLLAR] + name) || RepeatsSkill(input, i) then [] else UserInputText(input[i])
    case _ => UserInputText(input[i])
  }

  function CountsAfter(input: seq<Input>, i: nat, counts: map<Text, nat>): map<Text, nat>
    requires i < |input|
  {
    if input[i].SkillInput? then WithoutMarker(counts, [DOLLAR] + input[i].name) else counts
  }

  function ContributionsFrom(input: seq<Input>, i: nat, counts: map<Text, nat>): (texts: seq<Text>)
    requires i <= |input|
    ensures |texts| == |input| - i
    ensures forall k | i <= k < |input| && input[k].TextInput? :: texts[k - i] == input[k].text
    decreases |input| - i
  {
    if i == |input| then []
    else [Contribution(input, i, counts)] + ContributionsFrom(input, i + 1, CountsAfter(input, i, counts))
  }

  function Contributions(input: seq<Input>): (texts: seq<Text>)
    ensures |texts| == |input|
    ensures forall k | 0 <= k < |input| && input[k].TextInput? :: texts[k] == input[k].text
  {
    ContributionsFrom(input, 0, CountAllMarkers(input, map[]))
  }

  predicate JoinsWithoutSpace(text: Text, next: Text) {
    text == [] || next == [] || IsSpace(text[|text| - 1]) || IsSpace(next[0])
  }

  function Append(text: Text, next: Text): Text {
    if JoinsWithoutSpace(text, next) then text + next else text + [SPACE] + next
  }

  function StartOffset(text: Text, next: Text): nat {
    if JoinsWithoutSpace(text, next) then |text| else |text| + 1
  }

  function AppendAll(text: Text, texts: seq<Text>): Text
    decreases |texts|
  {
    if texts == [] then text else AppendAll(Append(text, texts[0]), texts[1..])
  }

  /** The flattened message. */
  function ListToText(input: seq<Input>): Text {
    AppendAll([], Contributions(input))
  }

  // ---------------------------------------------------------------------------------------------
  // The parts of a marked text
  // ---------------------------------------------------------------------------------------------

  /** The first skills of the message that still wait for their marker. */
  type Waiting = map<Text, seq<Skill>>

  function SkillFor(marker: Text, waiting: Waiting): Option<Skill> {
    if marker in waiting && waiting[marker] != [] then Some(waiting[marker][0])
    else
      var name := if StartsWith(marker, [DOLLAR]) then marker[1..] else marker;
      if Trim(name) == [] then None else Some(Skill(marker, name, marker))
  }

  function WaitingAfter(marker: Text, waiting: Waiting): Waiting {
    if marker in waiting && waiting[marker] != [] then waiting[marker := waiting[marker][1..]] else waiting
  }

  /** The first file mention, by position in the message, that matches and is not shown yet. */
  function MentionFor(text: Text, e: Element, r: Range, input: seq<Input>, shown: set<nat>, i: nat): (m: Option<nat>)
    requires r.start <= r.end <= |text| && i <= |input|
    ensures m.Some? ==> m.value < |input| && IsFileMention(input[m.value]) && m.value !in shown
    decreases |input| - i
  {
    if i == |input| then None
    else if IsFileMention(input[i]) && i !in shown && MatchesMention(text, e, r, input[i]) then Some(i)
    else MentionFor(text, e, r, input, shown, i + 1)
  }

  function FileFromElement(text: Text, e: Element, r: Range): Option<FileReference>
    requires r.start <= r.end <= |text|
  {
    var value, marker := Slice(text, r), MarkerOf(text, e, r);
    if !StartsWith(value, [AT_SIGN]) || !IsFilePath(Trim(value[1..])) then None
    else Some(FileReference(Trim(value[1..]), if StartsWith(marker, [AT_SIGN]) then Some(Trim(marker[1..])) else None))
  }

  /** What one marked range becomes: a skill, a file mention of the message, a bare file reference, or nothing. */
  datatype Mark = SkillMark(skill: Skill) | MentionMark(index: nat, file: FileReference) | FileMark(file: FileReference) | NoMark

  function MarkAt(text: Text, e: Element, r: Range, input: seq<Input>, waiting: Waiting, shown: set<nat>): Mark
    requires r.start <= r.end <= |text|
  {
    var marker := MarkerOf(text, e, r);
    var skill := if StartsWith(marker, [DOLLAR]) then SkillFor(marker, waiting) else None;
    var mention := if StartsWith(marker, [AT_SIGN]) then MentionFor(text, e, r, input, shown, 0) else None;
    var file := FileFromElement(text, e, r);
    if skill.Some? then SkillMark(skill.value)
    else if mention.Some? then MentionMark(mention.value, FileOf(input[mention.value]))
    else if file.Some? then FileMark(file.value)
    else NoMark
  }

  function MarkPart(mark: Mark, source: SourceText): Part
    requires !mark.NoMark?
  {
    match mark
    case SkillMark(skill) => SkillPart(skill, Some(source))
    case MentionMark(_, file) => FilePart(file, Some(source))
    case FileMark(file) => FilePart(file, Some(source))
  }

  /** `skills` and `shown` are the ids and mentions that already have a part. */
  datatype Progress = Progress(parts: seq<Part>, cursor: nat, waiting: Waiting, skills: set<Text>, shown: set<nat>)

  function MarkOne(text: Text, offset: nat, input: seq<Input>, p: Progress, e: Element): Progress
    requires p.cursor <= |text|
  {
    var found := RangeOf(text, e);
    if found.None? || found.value.start < p.cursor then p
    else
      var r := found.value;
      var mark := MarkAt(text, e, r, input, p.waiting, p.shown);
      if mark.NoMark? then p
      else Progress(
          p.parts + (if r.start > p.cursor then [PlainPart(text[p.cursor..r.start], false)] else [])
          + [MarkPart(mark, SourceAt(text, r, offset))],
          r.end,
          if mark.SkillMark? then WaitingAfter(MarkerOf(text, e, r), p.waiting) else p.waiting,
          if mark.SkillMark? then p.skills + {mark.skill.id} else p.skills,
          if mark.MentionMark? then p.shown + {mark.index} else p.shown)
  }

  function MarkAll(text: Text, offset: nat, input: seq<Input>, p: Progress, elements: seq<Element>): (after: Progress)
    requires p.cursor <= |text|
    ensures after.cursor <= |text|
    decreases |elements|
  {
    if elements == [] then p
    else
      var rest := MarkAll(text, offset, input, p, elements[..|elements| - 1]);
      MarkOne(text, offset, input, rest, elements[|elements| - 1])
  }

  /** Stable insertion by the start of the byte range. */
  function Inserted(e: Element, sorted: seq<Element>): seq<Element>
    decreases |sorted|
  {
    if sorted == [] || sorted[|sorted| - 1].start <= e.start then sorted + [e]
    else Inserted(e, sorted[..|sorted| - 1]) + [sorted[|sorted| - 1]]
  }

  function SortedByStart(elements: seq<Element>): seq<Element>
    decreases |elements|
  {
    if elements == [] then [] else Inserted(elements[|elements| - 1], SortedByStart(elements[..|elements| - 1]))
  }

  /** A text without any marked part is shown as it is; otherwise the rest of the text follows the last mark. */
  function Closed(text: Text, p: Progress): Progress
    requires p.cursor <= |text|
  {
    if p.parts == [] then p.(parts := [PlainPart(text, false)])
    else if p.cursor < |text| then p.(parts := p.parts + [PlainPart(text[p.cursor..], false)])
    else p
  }

  function MarkedParts(text: Text, elements: seq<Element>, offset: nat, input: seq<Input>, waiting: Waiting, shown: set<nat>): Progress {
    Closed(text, MarkAll(text, offset, input, Progress([], 0, waiting, {}, shown), SortedByStart(elements)))
  }

  // ---------------------------------------------------------------------------------------------
  // The parts of a message
  // ---------------------------------------------------------------------------------------------

  function FileEcho(text: Text, mention: Input, offset: nat): Option<seq<Part>>
    requires mention.MentionInput?
  {
    var r := MentionRange(text, mention);
    if r.None? then None
    else Some(
        (if r.value.start > 0 then [PlainPart(text[..r.value.start], false)] else [])
        + [FilePart(FileOf(mention), Some(SourceAt(text, r.value, offset)))]
        + (if r.value.end < |text| then [PlainPart(text[r.value.end..], false)] else []))
  }

  function SkillEcho(text: Text, skill: Input): Option<seq<Part>>
    requires skill.SkillInput?
  {
    var marker := [DOLLAR] + skill.name;
    if !EndsWith(text, marker) then None
    else Some(
        (if |text| > |marker| then [PlainPart(text[..|text| - |marker|], false)] else [])
        + [SkillPart(SkillOf(skill), None)])
  }

  function SkillsByMarker(input: seq<Input>): Waiting
    decreases |input|
  {
    if input == [] then map[]
    else
      var before := SkillsByMarker(input[..|input| - 1]);
      var last := input[|input| - 1];
      if !last.SkillInput? then before
      else
        var marker := [DOLLAR] + last.name;
        before[marker := (if marker in before then before[marker] else []) + [SkillOf(last)]]
  }

  /** The message up to the next input, with the text accumulated so far. */
  datatype Display = Display(next: nat, parts: seq<Part>, waiting: Waiting, skills: set<Text>, shown: set<nat>, text: Text)

  function Start(input: seq<Input>): Display {
    Display(0, [], SkillsByMarker(input), {}, {}, [])
  }

  /** One input, and with an echoed mention or skill the input after it, becomes parts. */
  function Shown(input: seq<Input>, texts: seq<Text>, d: Display): Display
    requires |texts| == |input| && d.next < |input|
  {
    var i := d.next;
    var current := input[i];
    var text := Append(d.text, texts[i]);
    var offset := StartOffset(d.text, texts[i]);
    var hasNext := i + 1 < |input|;
    var fileEcho :=
      if current.TextInput? && hasNext && IsFileMention(input[i + 1]) then FileEcho(current.text, input[i + 1], offset) else None;
    var skillEcho :=
      if current.TextInput? && hasNext && input[i + 1].SkillInput? then SkillEcho(current.text, input[i + 1]) else None;
    if current.TextInput? && current.elements != [] then
      var marked := MarkedParts(current.text, current.elements, offset, input, d.waiting, d.shown);
      Display(i + 1, d.parts + marked.parts, marked.waiting, d.skills + marked.skills, marked.shown, text)
    else if fileEcho.Some? then
      d.(next := i + 2, parts := d.parts + fileEcho.value, shown := d.shown + {i + 1}, text := Append(text, texts[i + 1]))
    else if current.SkillInput? && current.path in d.skills then d.(next := i + 1, text := text)
    else if IsFileMention(current) && i in d.shown then d.(next := i + 1, text := text)
    else if skillEcho.Some? then
      d.(next := i + 2, parts := d.parts + skillEcho.value, text := Append(text, texts[i + 1]))
    else d.(next := i + 1, parts := d.parts + [PartOf(current, i)], text := text)
  }

  function ShowFrom(input: seq<Input>, texts: seq<Text>, d: Display): Display
    requires |texts| == |input|
    decreases |input| - d.next
  {
    if d.next >= |input| then d else ShowFrom(input, texts, Shown(input, texts, d))
  }

  function PartsOf(input: seq<Input>): seq<Part> {
    ShowFrom(input, Contributions(input), Start(input)).parts
  }
}
