/**
 * Finding the first JSON object in the output of a command by matching braces, and JSON texts as
 * printed (sections 2 to 7 of RFC 8259).
 */
module JsonScan {
  import opened Prelude

  // ---------------------------------------------------------------------------------------------
  // The scan
  // ---------------------------------------------------------------------------------------------

  datatype State = State(depth: int, inString: bool, escaped: bool)

  const OUTSIDE := State(0, false, false)

  function Step(s: State, c: char): State {
    if s.inString then
      if s.escaped then s.(escaped := false)
      else if c == '\\' then s.(escaped := true)
      else if c == '"' then s.(inString := false)
      else s
    else if c == '"' then s.(inString := true)
    else if c == '{' then s.(depth := s.depth + 1)
    else if c == '}' then s.(depth := s.depth - 1)
    else s
  }

  /** The scan stops at a brace that closes the outermost object. */
  predicate Stops(s: State, c: char) {
    !s.inString && c == '}' && s.depth == 1
  }

  /** Where the scan from `i` stops. */
  function FindEnd(value: string, i: nat, s: State): (end: Option<nat>)
    requires i <= |value|
    ensures end.Some? ==> i <= end.value < |value|
    decreases |value| - i
  {
    if i == |value| then None
    else if Stops(s, value[i]) then Some(i)
    else FindEnd(value, i + 1, Step(s, value[i]))
  }

  function FirstBrace(value: string): (i: nat)
    ensures i <= |value| && '{' !in value[..i] && (i < |value| ==> value[i] == '{')
  {
    if value == "" || value[0] == '{' then 0 else 1 + FirstBrace(value[1..])
  }

  function Extract(value: string): Option<string> {
    var start := FirstBrace(value);
    if start == |value| then None
    else
      var end := FindEnd(value, start, OUTSIDE);
      if end.Some? then Some(value[start..end.value + 1]) else None
  }

  method ExtractFirstJsonObject(value: string) returns (text: Option<string>)
    ensures text == Extract(value)
  {
    var start := IndexOfBrace(value);
    if start == |value| {
      return None;
    }
    var depth, inString, escaped := 0, false, false;
    var index := start;
    while index < |value|
      invariant start <= index <= |value|
      invariant FindEnd(value, start, OUTSIDE) == FindEnd(value, index, State(depth, inString, escaped))
    {
      var c := value[index];
      if inString {
        if escaped {
          escaped := false;
        } else if c == '\\' {
          escaped := true;
        } else if c == '"' {
          inString := false;
        }
      } else if c == '"' {
        inString := true;
      } else if c == '{' {
        depth := depth + 1;
      } else if c == '}' {
        depth := depth - 1;
        if depth == 0 {
          return Some(value[start..index + 1]);
        }
      }
      index := index + 1;
    }
    return None;
  }

  method IndexOfBrace(value: string) returns (i: nat)
    ensures i == FirstBrace(value)
  {
    i := 0;
    while i < |value| && value[i] != '{'
      invariant i <= |value| && FirstBrace(value) == i + FirstBrace(value[i..])
    {
      assert value[i..][1..] == value[i + 1..];
      i := i + 1;
    }
  }

  // ---------------------------------------------------------------------------------------------
  // Printed JSON
  // ---------------------------------------------------------------------------------------------

  /** A character of a JSON string as it is written. */
  datatype Unit = Plain(c: char) | Escape(c: char) | Unicode(hex: string)

  /** A JSON text as written, with the whitespace around its parts. A scalar is a number or a literal name. */
  datatype Json =
    | Scalar(text: string)
    | Str(units: seq<Unit>)
    | Array(space: string, elements: seq<Element>)
    | Object(space: string, members: seq<Member>)

  datatype Element = Element(before: string, value: Json, after: string)

  datatype Member = Member(before: string, name: seq<Unit>, afterName: string, beforeValue: string, value: Json, after: string)

  predicate IsSpace(text: string) {
    forall c <- text :: c == ' ' || c == '\t' || c == '\n' || c == '\r'
  }

  predicate IsHex(c: char) {
    '0' <= c <= '9' || 'a' <= c <= 'f' || 'A' <= c <= 'F'
  }

  predicate IsScalarUnit(c: char) {
    '0' <= c <= '9' || 'a' <= c <= 'z' || 'A' <= c <= 'Z' || c == '-' || c == '+' || c == '.'
  }

  predicate IsUnit(u: Unit) {
    match u
    case Plain(c) => c >= ' ' && c != '"' && c != '\\'
    case Escape(c) => c in "\"\\/bfnrt"
    case Unicode(hex) => |hex| == 4 && forall c <- hex :: IsHex(c)
  }

  predicate WellFormed(v: Json)
    decreases v
  {
    match v
    case Scalar(text) => forall c <- text :: IsScalarUnit(c)
    case Str(units) => forall u <- units :: IsUnit(u)
    case Array(space, elements) =>
      IsSpace(space) && forall e <- elements :: IsSpace(e.before) && IsSpace(e.after) && WellFormed(e.value)
    case Object(space, members) =>
      IsSpace(space) && forall m <- members ::
        && IsSpace(m.before) && IsSpace(m.afterName) && IsSpace(m.beforeValue) && IsSpace(m.after)
        && (forall u <- m.name :: IsUnit(u)) && WellFormed(m.value)
  }

  function PrintUnit(u: Unit): string {
    match u
    case Plain(c) => [c]
    case Escape(c) => ['\\', c]
    case Unicode(hex) => "\\u" + hex
  }

  function PrintUnits(units: seq<Unit>): string {
    if units == [] then "" else PrintUnit(units[0]) + PrintUnits(units[1..])
  }

  function PrintString(units: seq<Unit>): string {
    "\"" + PrintUnits(units) + "\""
  }

  function Print(v: Json): string
    decreases v, 0
  {
    match v
    case Scalar(text) => text
    case Str(units) => PrintString(units)
    case Array(space, elements) => "[" + space + PrintElements(elements) + "]"
    case Object(space, members) => "{" + space + PrintMembers(members) + "}"
  }

  function PrintElements(elements: seq<Element>): string
    decreases elements, 1
  {
    if elements == [] then ""
    else PrintElement(elements[0]) + (if |elements| > 1 then "," else "") + PrintElements(elements[1..])
  }

  function PrintElement(e: Element): string
    decreases e, 1
  {
    e.before + Print(e.value) + e.after
  }

  function PrintMembers(members: seq<Member>): string
    decreases members, 1
  {
    if members == [] then ""
    else PrintMember(members[0]) + (if |members| > 1 then "," else "") + PrintMembers(members[1..])
  }

  function PrintMember(m: Member): string
    decreases m, 1
  {
    m.before + PrintString(m.name) + m.afterName + ":" + m.beforeValue + Print(m.value) + m.after
  }

  // ---------------------------------------------------------------------------------------------
  // Scanning what was printed
  // ---------------------------------------------------------------------------------------------

  /** The state after a text that the scan does not stop in; none if it stops. */
  function Scanned(s: State, text: string): Option<State>
    decreases |text|
  {
    if text == "" then Some(s)
    else if Stops(s, text[0]) then None
    else Scanned(Step(s, text[0]), text[1..])
  }

  lemma {:induction false} ScannedJoins(s: State, a: string, b: string)
    requires Scanned(s, a).Some?
    ensures Scanned(s, a + b) == Scanned(Scanned(s, a).value, b)
    decreases |a|
  {
    if a == "" {
      assert a + b == b;
    } else {
      assert (a + b)[1..] == a[1..] + b;
      ScannedJoins(Step(s, a[0]), a[1..], b);
    }
  }

  lemma {:induction false} ScanSkips(value: string, i: nat, text: string, s: State)
    requires i + |text| <= |value| && value[i..i + |text|] == text && Scanned(s, text).Some?
    ensures FindEnd(value, i, s) == FindEnd(value, i + |text|, Scanned(s, text).value)
    decreases |text|
  {
    if text == "" {
    } else {
      assert value[i] == value[i..i + |text|][0];
      assert value[i + 1..i + |text|] == value[i..i + |text|][1..];
      ScanSkips(value, i + 1, text[1..], Step(s, value[i]));
    }
  }

  predicate Indifferent(c: char) {
    c != '"' && c != '{' && c != '}'
  }

  /** Inside an object, outside strings. */
  predicate IsInside(s: State) {
    s.depth >= 1 && !s.inString && !s.escaped
  }

  predicate Passes(s: State, text: string) {
    Scanned(s, text) == Some(s)
  }

  lemma PassesBoth(s: State, a: string, b: string)
    requires Passes(s, a) && Passes(s, b)
    ensures Passes(s, a + b)
  {
    ScannedJoins(s, a, b);
  }

  lemma {:induction false} IndifferentTextPasses(s: State, text: string)
    requires IsInside(s) && forall c <- text :: Indifferent(c)
    ensures Passes(s, text)
    decreases |text|
  {
    if text == "" {
    } else {
      assert text[0] in text && forall c <- text[1..] :: c in text;
      IndifferentTextPasses(s, text[1..]);
    }
  }

  lemma UnitPasses(s: State, u: Unit)
    requires s.inString && !s.escaped && IsUnit(u)
    ensures Passes(s, PrintUnit(u))
  {
    match u
    case Plain(c) => assert [c][1..] == "";
    case Escape(c) =>
      assert ['\\', c][1..] == [c] && [c][1..] == "";
      assert Scanned(s.(escaped := true), [c]) == Some(s);
    case Unicode(hex) =>
      var text := "\\u" + hex;
      assert text == ['\\', 'u', hex[0], hex[1], hex[2], hex[3]];
      assert text[1..] == ['u'] + hex;
      assert text[1..][1..] == hex;
      HexPasses(s, hex);
  }

  lemma {:induction false} HexPasses(s: State, hex: string)
    requires s.inString && !s.escaped && forall c <- hex :: IsHex(c)
    ensures Passes(s, hex)
    decreases |hex|
  {
    if hex == "" {
    } else {
      assert hex[0] in hex && forall c <- hex[1..] :: c in hex;
      HexPasses(s, hex[1..]);
    }
  }

  lemma {:induction false} UnitsPass(s: State, units: seq<Unit>)
    requires s.inString && !s.escaped && forall u <- units :: IsUnit(u)
    ensures Passes(s, PrintUnits(units))
    decreases |units|
  {
    if units == [] {
    } else {
      assert units[0] in units && forall u <- units[1..] :: u in units;
      UnitPasses(s, units[0]);
      UnitsPass(s, units[1..]);
      PassesBoth(s, PrintUnit(units[0]), PrintUnits(units[1..]));
    }
  }

  /** Whatever a string contains, the scan leaves it as it entered. */
  lemma StringPasses(s: State, units: seq<Unit>)
    requires IsInside(s) && forall u <- units :: IsUnit(u)
    ensures Passes(s, PrintString(units))
  {
    var within := s.(inString := true);
    UnitsPass(within, units);
    assert "\""[1..] == "";
    assert Scanned(s, "\"") == Some(within);
    assert Scanned(within, "\"") == Some(s);
    ScannedJoins(s, "\"", PrintUnits(units));
    ScannedJoins(s, "\"" + PrintUnits(units), "\"");
  }

  lemma SpacePasses(s: State, text: string)
    requires IsInside(s) && IsSpace(text)
    ensures Passes(s, text)
  {
    IndifferentTextPasses(s, text);
  }

  /** A printed value inside an object does not change the depth, and does not stop the scan. */
  lemma {:induction false} ValuePasses(s: State, v: Json)
    requires IsInside(s) && WellFormed(v)
    ensures Passes(s, Print(v))
    decreases v, 0
  {
    match v
    case Scalar(text) => IndifferentTextPasses(s, text);
    case Str(units) => StringPasses(s, units);
    case Array(space, elements) =>
      IndifferentTextPasses(s, "[");
      SpacePasses(s, space);
      ElementsPass(s, elements);
      IndifferentTextPasses(s, "]");
      PassesBoth(s, "[", space);
      PassesBoth(s, "[" + space, PrintElements(elements));
      PassesBoth(s, "[" + space + PrintElements(elements), "]");
    case Object(space, members) =>
      var within := s.(depth := s.depth + 1);
      BodyPasses(within, space, members);
      assert "{"[1..] == "" && "}"[1..] == "";
      assert Scanned(s, "{") == Some(within);
      assert Scanned(within, "}") == Some(s);
      ScannedJoins(s, "{", space + PrintMembers(members));
      ScannedJoins(s, "{" + (space + PrintMembers(members)), "}");
      assert "{" + (space + PrintMembers(members)) == "{" + space + PrintMembers(members);
  }

  lemma {:induction false} BodyPasses(s: State, space: string, members: seq<Member>)
    requires IsInside(s) && IsSpace(space)
    requires forall m <- members :: MemberIsWellFormed(m)
    ensures Passes(s, space + PrintMembers(members))
    decreases members, 2
  {
    SpacePasses(s, space);
    MembersPass(s, members);
    PassesBoth(s, space, PrintMembers(members));
  }

  predicate MemberIsWellFormed(m: Member) {
    && IsSpace(m.before) && IsSpace(m.afterName) && IsSpace(m.beforeValue) && IsSpace(m.after)
    && (forall u <- m.name :: IsUnit(u)) && WellFormed(m.value)
  }

  lemma {:induction false} ElementsPass(s: State, elements: seq<Element>)
    requires IsInside(s)
    requires forall e <- elements :: IsSpace(e.before) && IsSpace(e.after) && WellFormed(e.value)
    ensures Passes(s, PrintElements(elements))
    decreases elements, 1
  {
    if elements == [] {
    } else {
      var e := elements[0];
      assert e in elements && forall x <- elements[1..] :: x in elements;
      SpacePasses(s, e.before);
      ValuePasses(s, e.value);
      SpacePasses(s, e.after);
      PassesBoth(s, e.before, Print(e.value));
      PassesBoth(s, e.before + Print(e.value), e.after);
      SeparatorPasses(s, |elements| > 1);
      PassesBoth(s, PrintElement(e), if |elements| > 1 then "," else "");
      ElementsPass(s, elements[1..]);
      PassesBoth(s, PrintElement(e) + (if |elements| > 1 then "," else ""), PrintElements(elements[1..]));
    }
  }

  lemma SeparatorPasses(s: State, more: bool)
    requires IsInside(s)
    ensures Passes(s, if more then "," else "") && Passes(s, ":")
  {
    IndifferentTextPasses(s, if more then "," else "");
    IndifferentTextPasses(s, ":");
  }

  lemma {:induction false} MembersPass(s: State, members: seq<Member>)
    requires IsInside(s) && forall m <- members :: MemberIsWellFormed(m)
    ensures Passes(s, PrintMembers(members))
    decreases members, 1
  {
    if members == [] {
    } else {
      var m := members[0];
      assert m in members && forall x <- members[1..] :: x in members;
      ValuePasses(s, m.value);
      MemberPasses(s, m);
      SeparatorPasses(s, |members| > 1);
      PassesBoth(s, PrintMember(m), if |members| > 1 then "," else "");
      MembersPass(s, members[1..]);
      PassesBoth(s, PrintMember(m) + (if |members| > 1 then "," else ""), PrintMembers(members[1..]));
    }
  }

  lemma MemberPasses(s: State, m: Member)
    requires IsInside(s) && MemberIsWellFormed(m) && Passes(s, Print(m.value))
    ensures Passes(s, PrintMember(m))
  {
    hide Scanned, Print, Passes;
    SpacePasses(s, m.before);
    StringPasses(s, m.name);
    SpacePasses(s, m.afterName);
    SeparatorPasses(s, false);
    SpacePasses(s, m.beforeValue);
    SpacePasses(s, m.after);
    PassesBoth(s, m.before, PrintString(m.name));
    PassesBoth(s, m.before + PrintString(m.name), m.afterName);
    PassesBoth(s, m.before + PrintString(m.name) + m.afterName, ":");
    PassesBoth(s, m.before + PrintString(m.name) + m.afterName + ":", m.beforeValue);
    PassesBoth(s, m.before + PrintString(m.name) + m.afterName + ":" + m.beforeValue, Print(m.value));
    PassesBoth(s, m.before + PrintString(m.name) + m.afterName + ":" + m.beforeValue + Print(m.value), m.after);
  }

  lemma {:induction false} FirstBraceAfter(prefix: string, text: string)
    requires '{' !in prefix && text != "" && text[0] == '{'
    ensures FirstBrace(prefix + text) == |prefix|
  {
    if prefix == "" {
      assert prefix + text == text;
    } else {
      assert (prefix + text)[1..] == prefix[1..] + text;
      FirstBraceAfter(prefix[1..], text);
    }
  }

  /** The extractor returns exactly the printed object, whatever stands around it and inside its strings. */
  lemma ExtractsThePrintedObject(prefix: string, v: Json, rest: string)
    requires '{' !in prefix && v.Object? && WellFormed(v)
    ensures Extract(prefix + Print(v) + rest) == Some(Print(v))
  {
    var body := v.space + PrintMembers(v.members);
    var printed := Print(v);
    assert printed == "{" + body + "}";
    var value := prefix + printed + rest;
    var start := |prefix|;
    assert value == prefix + (printed + rest);
    FirstBraceAfter(prefix, printed + rest);
    var within := State(1, false, false);
    BodyPasses(within, v.space, v.members);
    assert value[start] == '{';
    assert value[start + 1..start + 1 + |body|] == body;
    ScanSkips(value, start + 1, body, within);
    var end := start + 1 + |body|;
    assert value[end] == '}';
    assert FindEnd(value, start, OUTSIDE) == FindEnd(value, start + 1, within);
    assert FindEnd(value, end, within) == Some(end);
    assert value[start..end + 1] == printed;
  }
}
