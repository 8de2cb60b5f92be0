/**
 * Strings as sequences of UTF-16 code units, and their UTF-8 encoding (section 3 of RFC 3629). A
 * high surrogate followed by a low one is one code point (section 2.1 of RFC 2781); any other
 * surrogate is encoded like the replacement character U+FFFD.
 */
module Utf16 {
  import opened Prelude

  type CodeUnit = x: int | 0 <= x < 0x10000
  type Text = seq<CodeUnit>
  type Byte = x: int | 0 <= x < 256

  predicate IsHigh(u: CodeUnit) {
    0xD800 <= u < 0xDC00
  }

  predicate IsLow(u: CodeUnit) {
    0xDC00 <= u < 0xE000
  }

  predicate PairAt(text: Text, i: nat) {
    i + 1 < |text| && IsHigh(text[i]) && IsLow(text[i + 1])
  }

  /** The code units of the code point that starts at `i`. */
  function WidthAt(text: Text, i: nat): nat
    requires i < |text|
  {
    if PairAt(text, i) then 2 else 1
  }

  function ScalarAt(text: Text, i: nat): (c: nat)
    requires i < |text|
    ensures c < 0x110000
  {
    if PairAt(text, i) then
      var high: int, low: int := text[i], text[i + 1];
      0x10000 + (high - 0xD800) * 0x400 + (low - 0xDC00)
    else if IsHigh(text[i]) || IsLow(text[i]) then 0xFFFD
    else text[i]
  }

  function EncodeScalar(c: nat): (bytes: seq<Byte>)
    requires c < 0x110000
    ensures 1 <= |bytes| <= 4
  {
    if c < 0x80 then [c]
    else if c < 0x800 then [0xC0 + c / 0x40, 0x80 + c % 0x40]
    else if c < 0x10000 then [0xE0 + c / 0x1000, 0x80 + c / 0x40 % 0x40, 0x80 + c % 0x40]
    else [0xF0 + c / 0x40000, 0x80 + c / 0x1000 % 0x40, 0x80 + c / 0x40 % 0x40, 0x80 + c % 0x40]
  }

  function Encode(text: Text): seq<Byte>
    decreases |text|
  {
    if text == [] then []
    else EncodeScalar(ScalarAt(text, 0)) + Encode(text[WidthAt(text, 0)..])
  }

  function Utf8Length(text: Text): nat {
    |Encode(text)|
  }

  /** No surrogate pair lies across `i`. */
  predicate IsBoundary(text: Text, i: nat) {
    i <= |text| && !(i > 0 && PairAt(text, i - 1))
  }

  /** The first code point as a string. */
  function FirstOf(text: Text): Text
    requires text != []
  {
    text[..WidthAt(text, 0)]
  }

  lemma {:induction false} EncodeAppends(a: Text, b: Text)
    requires IsBoundary(a + b, |a|)
    ensures Encode(a + b) == Encode(a) + Encode(b)
    decreases |a|
  {
    if a == [] {
      assert a + b == b;
    } else {
      var w := WidthAt(a, 0);
      assert PairAt(a + b, 0) == PairAt(a, 0) && ScalarAt(a + b, 0) == ScalarAt(a, 0);
      hide EncodeScalar, ScalarAt;
      assert (a + b)[w..] == a[w..] + b;
      EncodeAppends(a[w..], b);
    }
  }

  lemma EncodeSplits(text: Text, i: nat)
    requires IsBoundary(text, i)
    ensures Encode(text) == Encode(text[..i]) + Encode(text[i..])
    ensures Utf8Length(text) == Utf8Length(text[..i]) + Utf8Length(text[i..])
  {
    assert text == text[..i] + text[i..];
    EncodeAppends(text[..i], text[i..]);
  }

  lemma EncodeOne(text: Text)
    requires text != []
    ensures Encode(FirstOf(text)) == EncodeScalar(ScalarAt(text, 0))
    ensures 1 <= Utf8Length(FirstOf(text)) <= 4
    ensures IsBoundary(text, WidthAt(text, 0))
  {
    assert FirstOf(text)[WidthAt(text, 0)..] == [];
    assert Encode(FirstOf(text)[WidthAt(text, 0)..]) == [];
  }

  /** Advancing by one code point stays on boundaries and adds that code point's bytes. */
  lemma AdvanceByOne(text: Text, i: nat)
    requires i < |text| && IsBoundary(text, i)
    ensures var j := i + WidthAt(text, i);
            && IsBoundary(text, j)
            && text[i..j] == FirstOf(text[i..])
            && Encode(text[..j]) == Encode(text[..i]) + Encode(text[i..j])
            && 1 <= Utf8Length(text[i..j]) <= 4
  {
    var j := i + WidthAt(text, i);
    assert PairAt(text[i..], 0) == PairAt(text, i);
    EncodeOne(text[i..]);
    assert text[..j] == text[..i] + text[i..j];
    EncodeAppends(text[..i], text[i..j]);
  }

  /** Of two boundaries the later one has more bytes before it. */
  lemma LaterMeansMoreBytes(text: Text, i: nat, j: nat)
    requires IsBoundary(text, i) && IsBoundary(text, j) && i < j
    ensures Utf8Length(text[..i]) < Utf8Length(text[..j])
  {
    assert text[..j][..i] == text[..i];
    EncodeSplits(text[..j], i);
    EncodeOne(text[..j][i..]);
    assert Encode(text[..j][i..]) != [];
  }

  // ---------------------------------------------------------------------------------------------
  // Byte offsets
  // ---------------------------------------------------------------------------------------------

  /** The boundary that has `bytes` bytes before it, if there is one. */
  function IndexAtByte(text: Text, bytes: int): (i: Option<nat>)
    ensures i.Some? ==> i.value <= |text|
    decreases |text|
  {
    if bytes == 0 then Some(0)
    else if bytes < 0 || text == [] then None
    else
      var w := WidthAt(text, 0);
      var rest := IndexAtByte(text[w..], bytes - |EncodeScalar(ScalarAt(text, 0))|);
      if rest.Some? then Some(w + rest.value) else None
  }

  lemma BytesAfterFirst(text: Text, i: nat)
    requires text != [] && WidthAt(text, 0) <= i && IsBoundary(text, i)
    ensures Utf8Length(text[..i]) == |EncodeScalar(ScalarAt(text, 0))| + Utf8Length(text[WidthAt(text, 0)..][..i - WidthAt(text, 0)])
  {
    var w := WidthAt(text, 0);
    EncodeOne(text);
    assert w < i ==> PairAt(text[..i], w - 1) == PairAt(text, w - 1);
    assert text[..i][..w] == FirstOf(text) && text[..i][w..] == text[w..][..i - w];
    hide EncodeScalar, ScalarAt;
    EncodeSplits(text[..i], w);
  }

  /** Byte offsets and boundaries determine each other. */
  lemma {:induction false} IndexAtByteIff(text: Text, bytes: int, i: nat)
    requires i <= |text|
    ensures IndexAtByte(text, bytes) == Some(i) <==> IsBoundary(text, i) && Utf8Length(text[..i]) == bytes
    decreases |text|
  {
    if text == [] || i == 0 {
      assert text[..0] == [];
      assert i == 0 && IndexAtByte(text, bytes) == Some(0) ==> bytes == 0;
    } else {
      var w, size := WidthAt(text, 0), |EncodeScalar(ScalarAt(text, 0))|;
      AdvanceByOne(text, 0);
      hide Encode, EncodeScalar, ScalarAt;
      if i < w {
        assert !IsBoundary(text, i);
      } else {
        IndexAtByteIff(text[w..], bytes - size, i - w);
        assert i > w ==> PairAt(text[w..], i - w - 1) == PairAt(text, i - 1);
        assert IsBoundary(text[w..], i - w) <==> IsBoundary(text, i);
        if IsBoundary(text, i) {
          BytesAfterFirst(text, i);
        }
      }
    }
  }

  /** A part of a string in code units. */
  datatype Range = Range(start: nat, end: nat)

  function RangeOfBytes(text: Text, start: int, end: int): Option<Range> {
    var first, last := IndexAtByte(text, start), IndexAtByte(text, end);
    if 0 <= start < end && first.Some? && last.Some? then Some(Range(first.value, last.value)) else None
  }

  ghost predicate OnBoundary(text: Text, bytes: int) {
    exists i | 0 <= i <= |text| :: IsBoundary(text, i) && Utf8Length(text[..i]) == bytes
  }

  lemma OnBoundaryIff(text: Text, bytes: int)
    ensures OnBoundary(text, bytes) <==> IndexAtByte(text, bytes).Some?
  {
    if IndexAtByte(text, bytes).Some? {
      IndexAtByteIff(text, bytes, IndexAtByte(text, bytes).value);
    }
    if OnBoundary(text, bytes) {
      var i :| 0 <= i <= |text| && IsBoundary(text, i) && Utf8Length(text[..i]) == bytes;
      IndexAtByteIff(text, bytes, i);
    }
  }

  /**
   * A byte range selects a part of the string exactly when both ends are code point boundaries; the
   * part then has the bytes of the range, and cuts no surrogate pair.
   */
  lemma ByteRangeSelects(text: Text, start: int, end: int)
    ensures RangeOfBytes(text, start, end).Some? <==> 0 <= start < end && OnBoundary(text, start) && OnBoundary(text, end)
    ensures RangeOfBytes(text, start, end).Some? ==>
              var r := RangeOfBytes(text, start, end).value;
              && r.start < r.end <= |text|
              && IsBoundary(text, r.start) && IsBoundary(text, r.end)
              && Utf8Length(text[..r.start]) == start && Utf8Length(text[..r.end]) == end
              && end <= Utf8Length(text)
              && Encode(text)[start..end] == Encode(text[r.start..r.end])
  {
    OnBoundaryIff(text, start);
    OnBoundaryIff(text, end);
    if RangeOfBytes(text, start, end).Some? {
      var r := RangeOfBytes(text, start, end).value;
      IndexAtByteIff(text, start, r.start);
      IndexAtByteIff(text, end, r.end);
      if r.start >= r.end {
        assert r.start == r.end || r.start > r.end;
        LaterOrSame(text, r.end, r.start);
        assert false;
      }
      EncodeSplits(text, r.end);
      assert text[..r.end][..r.start] == text[..r.start] && text[..r.end][r.start..] == text[r.start..r.end];
      EncodeSplits(text[..r.end], r.start);
    }
  }

  lemma LaterOrSame(text: Text, i: nat, j: nat)
    requires IsBoundary(text, i) && IsBoundary(text, j) && i <= j
    ensures Utf8Length(text[..i]) <= Utf8Length(text[..j])
  {
    if i < j {
      LaterMeansMoreBytes(text, i, j);
    }
  }

  /** No boundary lies strictly between a boundary and the next one. */
  lemma NothingBetween(text: Text, i: nat, bytes: int)
    requires i < |text| && IsBoundary(text, i)
    requires Utf8Length(text[..i]) < bytes < Utf8Length(text[..i + WidthAt(text, i)])
    ensures IndexAtByte(text, bytes).None?
  {
    var j := i + WidthAt(text, i);
    AdvanceByOne(text, i);
    if IndexAtByte(text, bytes).Some? {
      var k := IndexAtByte(text, bytes).value;
      IndexAtByteIff(text, bytes, k);
      if k <= i {
        LaterOrSame(text, k, i);
        assert false;
      } else if k >= j {
        LaterOrSame(text, j, k);
        assert false;
      }
    }
  }

  method StringRangeFromUtf8ByteRange(text: Text, start: int, end: int) returns (range: Option<Range>)
    ensures range == RangeOfBytes(text, start, end)
  {
    hide EncodeScalar, ScalarAt, IndexAtByte;
    if start < 0 || end <= start {
      return None;
    }
    var byteOffset, index := 0, 0;
    var rangeStart: Option<nat>, rangeEnd: Option<nat> := None, None;
    assert text[..0] == [];
    while index < |text|
      invariant index <= |text| && IsBoundary(text, index) && byteOffset == Utf8Length(text[..index])
      invariant rangeStart == if start < byteOffset then IndexAtByte(text, start) else None
      invariant rangeEnd.None? && (end < byteOffset ==> IndexAtByte(text, end).None?)
      decreases |text| - index
    {
      IndexAtByteIff(text, byteOffset, index);
      if byteOffset == start {
        rangeStart := Some(index);
      }
      if byteOffset == end {
        rangeEnd := Some(index);
        break;
      }
      AdvanceByOne(text, index);
      var character := text[index..index + WidthAt(text, index)];
      var size := Utf8Length(character);
      if byteOffset < start < byteOffset + size {
        NothingBetween(text, index, start);
      }
      if byteOffset < end < byteOffset + size {
        NothingBetween(text, index, end);
      }
      byteOffset := byteOffset + size;
      index := index + |character|;
    }
    if rangeEnd.None? {
      assert text[..|text|] == text && index == |text|;
      IndexAtByteIff(text, byteOffset, index);
      OffsetsEnd(text, start);
      OffsetsEnd(text, end);
      if rangeStart.None? && byteOffset == start {
        rangeStart := Some(|text|);
      }
      if byteOffset == end {
        rangeEnd := Some(|text|);
      }
    }
    if rangeStart.None? || rangeEnd.None? || rangeEnd.value <= rangeStart.value {
      ByteRangeSelects(text, start, end);
      return None;
    }
    return Some(Range(rangeStart.value, rangeEnd.value));
  }

  lemma OffsetsEnd(text: Text, bytes: int)
    ensures bytes > Utf8Length(text) ==> IndexAtByte(text, bytes).None?
  {
    if IndexAtByte(text, bytes).Some? {
      var i := IndexAtByte(text, bytes).value;
      IndexAtByteIff(text, bytes, i);
      EncodeSplits(text, i);
    }
  }
}
