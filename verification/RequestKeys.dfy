/** The text key under which a native server request is known. */
module RequestKeys {

  /** A JSON-RPC request id: an integer or a string. */
  datatype RequestId = Number(value: int) | Text(text: string)

  const STRING_KEY_PREFIX := "codex-string-id:"

  function Digit(d: nat): char
    requires d < 10
  {
    '0' + d as char
  }

  /** The decimal digits of a natural number, without leading zeros. */
  function Digits(n: nat): (s: string)
    ensures AllDigits(s)
  {
    if n < 10 then [Digit(n)] else Digits(n / 10) + [Digit(n % 10)]
  }

  function Decimal(n: int): string {
    if n < 0 then "-" + Digits(-n) else Digits(n)
  }

  predicate IsDigit(c: char) {
    '0' <= c <= '9'
  }

  predicate AllDigits(s: string) {
    s != [] && forall c <- s :: IsDigit(c)
  }

  predicate NeedsPrefix(text: string) {
    AllDigits(text) || STRING_KEY_PREFIX <= text
  }

  function RequestKey(id: RequestId): string {
    match id
    case Number(n) => Decimal(n)
    case Text(text) => if NeedsPrefix(text) then STRING_KEY_PREFIX + text else text
  }

  /** The string id `b` reads like the negative number `a`. */
  predicate ReadsAsNegative(a: RequestId, b: RequestId) {
    a.Number? && a.value < 0 && b == Text(Decimal(a.value))
  }

  // ---------------------------------------------------------------------------------------------
  // Two ids share a key
  // ---------------------------------------------------------------------------------------------

  lemma {:induction false} DigitsAreInjective(m: nat, n: nat)
    requires Digits(m) == Digits(n)
    ensures m == n
  {
    var last := |Digits(m)| - 1;
    assert Digits(m)[last] == Digit(m % 10) && Digits(n)[last] == Digit(n % 10);
    if m >= 10 && n >= 10 {
      assert Digits(m)[..last] == Digits(m / 10) && Digits(n)[..last] == Digits(n / 10);
      DigitsAreInjective(m / 10, n / 10);
    } else {
      assert m < 10 ==> |Digits(m)| == 1;
      assert n < 10 ==> |Digits(n)| == 1;
    }
  }

  lemma DecimalIsInjective(m: int, n: int)
    requires Decimal(m) == Decimal(n)
    ensures m == n
  {
    assert IsDigit(Digits(if m < 0 then -m else m)[0]);
    assert IsDigit(Digits(if n < 0 then -n else n)[0]);
    assert Decimal(m)[0] == '-' <==> m < 0;
    assert Decimal(n)[0] == '-' <==> n < 0;
    if m < 0 {
      assert Decimal(m)[1..] == Digits(-m) && Decimal(n)[1..] == Digits(-n);
      DigitsAreInjective(-m, -n);
    } else {
      DigitsAreInjective(m, n);
    }
  }

  lemma TextKeysAreInjective(s: string, t: string)
    requires RequestKey(Text(s)) == RequestKey(Text(t))
    ensures s == t
  {
    if NeedsPrefix(s) {
      assert STRING_KEY_PREFIX <= RequestKey(Text(s));
      assert RequestKey(Text(s))[|STRING_KEY_PREFIX|..] == s;
    }
    if NeedsPrefix(t) {
      assert STRING_KEY_PREFIX <= RequestKey(Text(t));
      assert RequestKey(Text(t))[|STRING_KEY_PREFIX|..] == t;
    }
  }

  lemma NegativesNeedNoPrefix(n: int)
    requires n < 0
    ensures !NeedsPrefix(Decimal(n))
  {
    assert Decimal(n)[0] == '-' && !IsDigit('-');
  }

  lemma NumberMeetsText(n: int, text: string)
    ensures RequestKey(Number(n)) == RequestKey(Text(text)) <==> n < 0 && text == Decimal(n)
  {
    var written := Decimal(n);
    if n < 0 {
      NegativesNeedNoPrefix(n);
      assert NeedsPrefix(text) ==> RequestKey(Text(text))[0] == 'c';
      assert written[0] == '-';
    } else {
      assert AllDigits(written) && IsDigit(written[0]);
      assert NeedsPrefix(text) ==> RequestKey(Text(text))[0] == 'c';
    }
  }

  /** Distinct ids share a key exactly when one is a negative number and the other its rendering. */
  lemma KeysCollideIff(a: RequestId, b: RequestId)
    ensures RequestKey(a) == RequestKey(b) <==> a == b || ReadsAsNegative(a, b) || ReadsAsNegative(b, a)
  {
    match (a, b)
    case (Number(m), Number(n)) => if Decimal(m) == Decimal(n) { DecimalIsInjective(m, n); }
    case (Text(s), Text(t)) => if RequestKey(a) == RequestKey(b) { TextKeysAreInjective(s, t); }
    case (Number(n), Text(t)) => NumberMeetsText(n, t);
    case (Text(t), Number(n)) => NumberMeetsText(n, t);
  }

  lemma KeyIsInjectiveOnNaturalsAndTexts(a: RequestId, b: RequestId)
    requires a.Number? ==> a.value >= 0
    requires b.Number? ==> b.value >= 0
    requires RequestKey(a) == RequestKey(b)
    ensures a == b
  {
    KeysCollideIff(a, b);
  }

  /** Only the empty string id has an empty key. */
  lemma EmptyKeyIff(id: RequestId)
    ensures RequestKey(id) == "" <==> id == Text("")
  {
    if id == Text("") {
      assert !AllDigits("") && !(STRING_KEY_PREFIX <= "");
    } else if id.Number? {
      assert |Decimal(id.value)| > 0;
    }
  }

  /** A negative number and the string that spells it are different ids with one key. */
  lemma MinusFiveCollides()
    ensures Number(-5) != Text("-5") && RequestKey(Number(-5)) == RequestKey(Text("-5")) == "-5"
  {
    assert Digits(5) == [Digit(5)] && Digit(5) == '5';
    assert ReadsAsNegative(Number(-5), Text("-5"));
    KeysCollideIff(Number(-5), Text("-5"));
  }
}
