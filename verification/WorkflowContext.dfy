/**
 * The workflow context of a turn: a prompt in parts of at most 3000 bytes, each sent as one value
 * under a numbered key. The revision in the keys and values is a 64-digit hash, given here.
 */
module WorkflowContext {
  import opened Utf16
  import opened RequestKeys

  const PART_BYTES := 3000
  const NATIVE_LIMIT := 4000

  // ---------------------------------------------------------------------------------------------
  // Cutting the prompt
  // ---------------------------------------------------------------------------------------------

  /** The longest start of the text, in whole code points, that takes at most `budget` bytes. */
  function Longest(text: Text, budget: nat): (n: nat)
    ensures n <= |text|
    decreases |text|
  {
    if text == [] || Utf8Length(FirstOf(text)) > budget then 0
    else
      var w := WidthAt(text, 0);
      w + Longest(text[w..], budget - Utf8Length(FirstOf(text)))
  }

  function Cut(text: Text): seq<Text>
    decreases |text|
  {
    if text == [] then []
    else
      LongestIsPositive(text);
      var n := Longest(text, PART_BYTES);
      [text[..n]] + Cut(text[n..])
  }

  lemma LongestIsPositive(text: Text)
    requires text != []
    ensures Longest(text, PART_BYTES) > 0
  {
    EncodeOne(text);
  }

  function Flatten(parts: seq<Text>): Text
    decreases |parts|
  {
    if parts == [] then [] else parts[0] + Flatten(parts[1..])
  }

  /** The parts make up the text, each cut lies between code points, and each part is within the bound. */
  ghost predicate IsSplit(parts: seq<Text>, text: Text)
    decreases |parts|
  {
    if parts == [] then text == []
    else
      && parts[0] <= text
      && IsBoundary(text, |parts[0]|)
      && Utf8Length(parts[0]) <= PART_BYTES
      && IsSplit(parts[1..], text[|parts[0]|..])
  }

  lemma {:induction false} SplitIsLossless(parts: seq<Text>, text: Text)
    requires IsSplit(parts, text)
    ensures Flatten(parts) == text
    decreases |parts|
  {
    if parts == [] {
    } else {
      SplitIsLossless(parts[1..], text[|parts[0]|..]);
      hide Utf8Length, IsBoundary;
      assert text == parts[0] + text[|parts[0]|..];
    }
  }

  lemma {:induction false} LongestFits(text: Text, budget: nat)
    ensures var n := Longest(text, budget);
            IsBoundary(text, n) && Utf8Length(text[..n]) <= budget
    decreases |text|
  {
    if text != [] && Utf8Length(FirstOf(text)) <= budget {
      var w, n := WidthAt(text, 0), Longest(text, budget);
      EncodeOne(text);
      LongestFits(text[w..], budget - Utf8Length(FirstOf(text)));
      BoundaryShifts(text, w, n);
      assert text[..n][..w] == FirstOf(text) && text[..n][w..] == text[w..][..n - w];
      EncodeSplits(text[..n], w);
    }
  }

  /** A boundary of the rest of a text is a boundary of the text, and back. */
  lemma BoundaryShifts(text: Text, k: nat, n: nat)
    requires k <= n <= |text| && IsBoundary(text, k)
    ensures IsBoundary(text[k..], n - k) <==> IsBoundary(text, n)
  {
    assert n > k ==> PairAt(text[k..], n - k - 1) == PairAt(text, n - 1);
  }

  lemma {:induction false} LongestIsMaximal(text: Text, budget: nat, m: nat)
    requires IsBoundary(text, m) && Utf8Length(text[..m]) <= budget
    ensures m <= Longest(text, budget)
    decreases |text|
  {
    if m == 0 {
    } else {
      var w := WidthAt(text, 0);
      EncodeOne(text);
      BoundaryShifts(text, w, m);
      assert text[..m][..w] == FirstOf(text) && text[..m][w..] == text[w..][..m - w];
      EncodeSplits(text[..m], w);
      LongestIsMaximal(text[w..], budget - Utf8Length(FirstOf(text)), m - w);
    }
  }

  /** The parts are lossless, aligned, within the bound, and never empty. */
  lemma {:induction false} CutIsASplit(text: Text)
    ensures IsSplit(Cut(text), text) && forall part <- Cut(text) :: part != []
    decreases |text|
  {
    if text == [] {
    } else {
      var n := Longest(text, PART_BYTES);
      LongestIsPositive(text);
      LongestFits(text, PART_BYTES);
      CutIsASplit(text[n..]);
      assert Cut(text)[1..] == Cut(text[n..]);
    }
  }

  /** A later start never needs more parts. */
  lemma {:induction false} CuttingLessNeedsNoMore(text: Text, k: nat)
    requires k <= |text| && IsBoundary(text, k)
    ensures |Cut(text[k..])| <= |Cut(text)|
    decreases |text|
  {
    hide Encode, EncodeScalar, IsBoundary, PairAt, Longest;
    if k == 0 {
      assert text[0..] == text;
    } else if k < |text| {
      var n := Longest(text, PART_BYTES);
      LongestFits(text, PART_BYTES);
      LongestIsPositive(text);
      assert |Cut(text)| == 1 + |Cut(text[n..])|;
      if n <= k {
        BoundaryShifts(text, n, k);
        CuttingLessNeedsNoMore(text[n..], k - n);
        assert text[n..][k - n..] == text[k..];
      } else {
        RestOfFirst(text, k, n);
        var m := Longest(text[k..], PART_BYTES);
        LongestFits(text[k..], PART_BYTES);
        LongestIsMaximal(text[k..], PART_BYTES, n - k);
        BoundaryShifts(text, k, k + m);
        BoundaryShifts(text, n, k + m);
        CuttingLessNeedsNoMore(text[n..], k + m - n);
        assert text[n..][k + m - n..] == text[k..][m..];
        assert |Cut(text[k..])| == 1 + |Cut(text[k..][m..])|;
      }
    } else {
      assert text[k..] == [];
    }
  }

  /** The rest of a part that fits is aligned and fits as well. */
  lemma RestOfFirst(text: Text, k: nat, n: nat)
    requires k <= n && IsBoundary(text, k) && IsBoundary(text, n) && Utf8Length(text[..n]) <= PART_BYTES
    ensures IsBoundary(text[k..], n - k) && Utf8Length(text[k..][..n - k]) <= PART_BYTES
  {
    BoundaryShifts(text, k, n);
    assert k > 0 && k < n ==> PairAt(text[..n], k - 1) == PairAt(text, k - 1);
    assert text[..n][k..] == text[k..][..n - k];
    EncodeSplits(text[..n], k);
  }

  /** No aligned split within the bound has fewer parts. */
  lemma {:induction false} CutIsMinimal(parts: seq<Text>, text: Text)
    requires IsSplit(parts, text)
    ensures |Cut(text)| <= |parts|
    decreases |parts|
  {
    hide Encode, EncodeScalar, PairAt, WidthAt, Longest;
    if parts != [] && text != [] {
      var k, n := |parts[0]|, Longest(text, PART_BYTES);
      assert text[..k] == parts[0];
      LongestIsMaximal(text, PART_BYTES, k);
      LongestFits(text, PART_BYTES);
      BoundaryShifts(text, k, n);
      CuttingLessNeedsNoMore(text[k..], n - k);
      assert text[k..][n - k..] == text[n..];
      CutIsMinimal(parts[1..], text[k..]);
    }
  }

  lemma LongestEndsBefore(text: Text, n: nat)
    requires IsBoundary(text, n) && n < |text| && Utf8Length(text[..n]) <= PART_BYTES
    requires Utf8Length(text[..n]) + Utf8Length(text[n..n + WidthAt(text, n)]) > PART_BYTES
    ensures Longest(text, PART_BYTES) == n
  {
    hide Encode, EncodeScalar, Longest;
    LongestIsMaximal(text, PART_BYTES, n);
    LongestFits(text, PART_BYTES);
    AdvanceByOne(text, n);
    var m, j := Longest(text, PART_BYTES), n + WidthAt(text, n);
    if m >= j {
      LaterOrSame(text, j, m);
      assert false;
    }
  }

  /** What is cut off when the next code point no longer fits. */
  lemma PartIsFull(text: Text, start: nat, i: nat)
    requires start <= i < |text| && IsBoundary(text, start) && IsBoundary(text, i)
    requires Utf8Length(text[start..i]) <= PART_BYTES
    requires Utf8Length(text[start..i]) + Utf8Length(text[i..i + WidthAt(text, i)]) > PART_BYTES
    ensures Cut(text[start..]) == [text[start..i]] + Cut(text[i..])
  {
    hide Encode, EncodeScalar, Longest;
    var rest := text[start..];
    BoundaryShifts(text, start, i);
    assert WidthAt(rest, i - start) == WidthAt(text, i);
    assert rest[..i - start] == text[start..i];
    assert rest[i - start..i - start + WidthAt(rest, i - start)] == text[i..i + WidthAt(text, i)];
    hide IsBoundary, PairAt, WidthAt;
    LongestEndsBefore(rest, i - start);
    assert rest[i - start..] == text[i..];
  }

  method CutIntoParts(prompt: Text) returns (parts: seq<Text>)
    ensures parts == Cut(prompt)
    ensures IsSplit(parts, prompt) && Flatten(parts) == prompt
    ensures forall part <- parts :: part != []
    ensures forall other: seq<Text> | IsSplit(other, prompt) :: |parts| <= |other|
  {
    hide Encode, EncodeScalar, PairAt, WidthAt, Cut, Longest, IsSplit;
    parts := [];
    var part: Text, bytes, index := [], 0, 0;
    assert prompt[0..] == prompt;
    StartIsBoundary(prompt);
    while index < |prompt|
      invariant |part| <= index <= |prompt| && part == prompt[index - |part|..index]
      invariant IsBoundary(prompt, index) && IsBoundary(prompt, index - |part|)
      invariant bytes == Utf8Length(part) <= PART_BYTES
      invariant part == [] ==> index == 0
      invariant Cut(prompt) == parts + Cut(prompt[index - |part|..])
      decreases |prompt| - index
    {
      AdvanceByOne(prompt, index);
      var next := index + WidthAt(prompt, index);
      var character := prompt[index..next];
      var size := Utf8Length(character);
      if bytes + size > PART_BYTES {
        PartIsFull(prompt, index - |part|, index);
        parts := parts + [part];
        part, bytes := [], 0;
        StartIsBoundary(prompt);
      }
      JoinOne(prompt, index - |part|, index);
      part := part + character;
      bytes := bytes + size;
      index := next;
    }
    LastPart(part);
    assert prompt[index - |part|..] == part;
    if part != [] {
      parts := parts + [part];
    }
    CutIsASplit(prompt);
    SplitIsLossless(parts, prompt);
    forall other: seq<Text> | IsSplit(other, prompt) ensures |parts| <= |other| {
      CutIsMinimal(other, prompt);
    }
  }

  lemma StartIsBoundary(text: Text)
    ensures IsBoundary(text, 0) && Utf8Length([]) == 0
  {
  }

  lemma JoinOne(text: Text, start: nat, i: nat)
    requires start <= i < |text| && IsBoundary(text, start) && IsBoundary(text, i)
    ensures var j := i + WidthAt(text, i);
            j <= |text|
            && text[start..j] == text[start..i] + text[i..j]
            && Utf8Length(text[start..j]) == Utf8Length(text[start..i]) + Utf8Length(text[i..j])
  {
    var j := i + WidthAt(text, i);
    AdvanceByOne(text, i);
    var joined := text[start..j];
    assert joined == text[start..i] + text[i..j];
    assert i > start ==> PairAt(joined, i - start - 1) == PairAt(text, i - 1);
    assert joined[..i - start] == text[start..i] && joined[i - start..] == text[i..j];
    assert IsBoundary(joined, i - start);
    hide Encode, EncodeScalar, IsBoundary, PairAt, WidthAt;
    EncodeSplits(joined, i - start);
  }

  lemma LastPart(part: Text)
    requires Utf8Length(part) <= PART_BYTES
    ensures Cut(part) == if part == [] then [] else [part]
  {
    hide EncodeScalar, Longest;
    if part != [] {
      assert part[..|part|] == part;
      LongestIsMaximal(part, PART_BYTES, |part|);
      assert Cut(part[|part|..]) == [];
    }
  }

  // ---------------------------------------------------------------------------------------------
  // Values
  // ---------------------------------------------------------------------------------------------

  function Ascii(s: string): Text {
    seq(|s|, i requires 0 <= i < |s| => if s[i] < 128 as char then s[i] as int else 63)
  }

  /** What precedes the part in its value: it names the revision and the position of the part. */
  function Header(revision: string, index: nat, count: nat): string {
    "Current OpenDucktor workflow context, revision " + revision + ", part " + Digits(index + 1) + " of " + Digits(count)
    + ". Together these parts replace all earlier OpenDucktor workflow context.\n"
  }

  function Value(revision: string, index: nat, parts: seq<Text>): Text
    requires index < |parts|
  {
    Ascii(Header(revision, index, |parts|)) + parts[index]
  }

  lemma {:induction false} AsciiIsOneByteEach(text: Text, rest: Text)
    requires forall u <- text :: u < 128
    ensures Utf8Length(text + rest) == |text| + Utf8Length(rest)
    decreases |text|
  {
    if text == [] {
      assert text + rest == rest;
    } else {
      assert text[0] in text && forall u <- text[1..] :: u in text;
      assert (text + rest)[1..] == text[1..] + rest;
      AsciiIsOneByteEach(text[1..], rest);
    }
  }

  function Power(n: nat): nat {
    if n == 0 then 1 else 10 * Power(n - 1)
  }

  lemma {:induction false} DigitsOfSmallNumber(n: nat, width: nat)
    requires 0 < width && n < Power(width)
    ensures |Digits(n)| <= width
    decreases width
  {
    if n >= 10 {
      assert width > 1;
      DigitsOfSmallNumber(n / 10, width - 1);
    }
  }

  /** Every value stays within the native limit, for any number of parts with at most 380 digits. */
  lemma ValuesFitTheNativeLimit(revision: string, prompt: Text, index: nat)
    requires |revision| == 64 && index < |Cut(prompt)| < Power(380)
    ensures Utf8Length(Value(revision, index, Cut(prompt))) <= NATIVE_LIMIT
  {
    var parts := Cut(prompt);
    CutIsASplit(prompt);
    PartsFit(parts, prompt, index);
    hide Power, Digits, Cut, Encode;
    DigitsOfSmallNumber(index + 1, 380);
    DigitsOfSmallNumber(|parts|, 380);
    AsciiIsOneByteEach(Ascii(Header(revision, index, |parts|)), parts[index]);
  }

  lemma {:induction false} PartsFit(parts: seq<Text>, text: Text, index: nat)
    requires IsSplit(parts, text) && index < |parts|
    ensures Utf8Length(parts[index]) <= PART_BYTES
    decreases index
  {
    if index == 0 {
    } else {
      PartsFit(parts[1..], text[|parts[0]|..], index - 1);
    }
  }

  // ---------------------------------------------------------------------------------------------
  // Keys
  // ---------------------------------------------------------------------------------------------

  const KEY_DIGITS := 8

  function Padded(s: string, width: nat): string
    decreases width - |s|
  {
    if |s| >= width then s else Padded("0" + s, width)
  }

  function KeyNumber(index: nat): string {
    Padded(Digits(index), KEY_DIGITS)
  }

  /** The key that the value of a part is sent under. */
  function PartKey(revision: string, index: nat): string {
    "openducktor-workflow-" + revision + "-" + KeyNumber(index)
  }

  /** The order in which keys sort. */
  predicate Before(a: string, b: string)
    decreases |a|
  {
    b != [] && (a == [] || a[0] < b[0] || (a[0] == b[0] && Before(a[1..], b[1..])))
  }

  /** The last `width` digits of a number. */
  function Fixed(n: nat, width: nat): (s: string)
    ensures |s| == width
  {
    if width == 0 then "" else Fixed(n / 10, width - 1) + [Digit(n % 10)]
  }

  lemma {:induction false} FixedSplits(n: nat, width: nat)
    requires n < Power(width) && |Digits(n)| <= width
    ensures Fixed(n, width) == Zeros(width - |Digits(n)|) + Digits(n)
    decreases width
  {
    if n >= 10 {
      FixedSplits(n / 10, width - 1);
    } else {
      FixedOfZero(width - 1);
    }
  }

  function Zeros(n: nat): (s: string)
    ensures |s| == n
  {
    if n == 0 then "" else Zeros(n - 1) + "0"
  }

  lemma {:induction false} FixedOfZero(width: nat)
    ensures Fixed(0, width) == Zeros(width)
  {
    if width == 0 {
    } else {
      FixedOfZero(width - 1);
    }
  }

  lemma {:induction false} ZerosInFront(n: nat)
    ensures "0" + Zeros(n) == Zeros(n + 1)
  {
    if n == 0 {
    } else {
      ZerosInFront(n - 1);
      assert "0" + Zeros(n) == ("0" + Zeros(n - 1)) + "0";
    }
  }

  lemma {:induction false} PaddedWithZeros(s: string, width: nat)
    requires |s| <= width
    ensures Padded(s, width) == Zeros(width - |s|) + s
    decreases width - |s|
  {
    if |s| < width {
      PaddedWithZeros("0" + s, width);
      ZerosInFront(width - |s| - 1);
      assert Zeros(width - |s| - 1) + ("0" + s) == (Zeros(width - |s| - 1) + "0") + s;
    } else {
      assert Zeros(0) + s == s;
    }
  }

  lemma {:induction false} CommonStart(s: string, a: string, b: string)
    ensures Before(s + a, s + b) == Before(a, b)
    decreases |s|
  {
    if s == [] {
      assert s + a == a && s + b == b;
    } else {
      assert (s + a)[1..] == s[1..] + a && (s + b)[1..] == s[1..] + b;
      CommonStart(s[1..], a, b);
    }
  }

  lemma {:induction false} EarlierStart(a: string, b: string, x: string, y: string)
    requires |a| == |b| && Before(a, b)
    ensures Before(a + x, b + y)
    decreases |a|
  {
    assert (a + x)[1..] == a[1..] + x && (b + y)[1..] == b[1..] + y;
    if a[0] == b[0] {
      EarlierStart(a[1..], b[1..], x, y);
    }
  }

  lemma {:induction false} FixedKeepsOrder(i: nat, j: nat, width: nat)
    requires i < j < Power(width)
    ensures Before(Fixed(i, width), Fixed(j, width))
    decreases width
  {
    if i / 10 == j / 10 {
      CommonStart(Fixed(i / 10, width - 1), [Digit(i % 10)], [Digit(j % 10)]);
    } else {
      FixedKeepsOrder(i / 10, j / 10, width - 1);
      EarlierStart(Fixed(i / 10, width - 1), Fixed(j / 10, width - 1), [Digit(i % 10)], [Digit(j % 10)]);
    }
  }

  lemma KeyNumberIsFixed(index: nat)
    requires index < Power(KEY_DIGITS)
    ensures KeyNumber(index) == Fixed(index, KEY_DIGITS)
  {
    hide Power, Digits;
    DigitsOfSmallNumber(index, KEY_DIGITS);
    FixedSplits(index, KEY_DIGITS);
    PaddedWithZeros(Digits(index), KEY_DIGITS);
  }

  lemma HundredMillionSortsFirst()
    ensures Power(KEY_DIGITS) == 100000000
    ensures !Before(KeyNumber(99999999), KeyNumber(100000000))
  {
    PowerOfEight();
    EightNines();
    OneAndZeros();
  }

  lemma PowerOfEight()
    ensures Power(8) == 100000000
  {
    assert Power(4) == 10 * Power(3) == 10000;
    assert Power(8) == 10 * Power(7) == 100 * Power(6) == 1000 * Power(5) == 10000 * Power(4);
  }

  lemma OneMoreDigit(n: nat, d: nat)
    requires n > 0 && d < 10
    ensures Digits(10 * n + d) == Digits(n) + [Digit(d)]
  {
    assert (10 * n + d) / 10 == n && (10 * n + d) % 10 == d;
  }

  lemma EightNines()
    ensures |Digits(99999999)| == 8 && Digits(99999999)[0] == '9'
  {
    assert Digits(9) == [Digit(9)] && Digit(9) == '9';
    OneMoreDigit(9, 9);
    OneMoreDigit(99, 9);
    OneMoreDigit(999, 9);
    OneMoreDigit(9999, 9);
    OneMoreDigit(99999, 9);
    OneMoreDigit(999999, 9);
    OneMoreDigit(9999999, 9);
  }

  lemma OneAndZeros()
    ensures |Digits(100000000)| == 9 && Digits(100000000)[0] == '1'
  {
    assert Digits(1) == [Digit(1)] && Digit(1) == '1';
    OneMoreDigit(1, 0);
    OneMoreDigit(10, 0);
    OneMoreDigit(100, 0);
    OneMoreDigit(1000, 0);
    OneMoreDigit(10000, 0);
    OneMoreDigit(100000, 0);
    OneMoreDigit(1000000, 0);
    OneMoreDigit(10000000, 0);
  }

  /** The keys of all parts sort in the order of the parts exactly up to a hundred million parts. */
  lemma KeysSortIff(revision: string, count: nat)
    ensures (forall i, j | 0 <= i < j < count :: Before(PartKey(revision, i), PartKey(revision, j)))
            <==> count <= 100000000
  {
    HundredMillionSortsFirst();
    forall i: nat, j: nat
      ensures Before(PartKey(revision, i), PartKey(revision, j)) == Before(KeyNumber(i), KeyNumber(j))
    {
      CommonStart("openducktor-workflow-" + revision + "-", KeyNumber(i), KeyNumber(j));
    }
    if count <= 100000000 {
      forall i, j | 0 <= i < j < count ensures Before(PartKey(revision, i), PartKey(revision, j)) {
        KeyNumberIsFixed(i);
        KeyNumberIsFixed(j);
        FixedKeepsOrder(i, j, KEY_DIGITS);
      }
    } else {
      assert !Before(PartKey(revision, 99999999), PartKey(revision, 100000000));
    }
  }
}
