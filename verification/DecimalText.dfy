/** `str(Decimal)` and `Decimal(str)` for finite numbers: plain notation for moderate exponents,
    scientific notation otherwise. */
module DecimalText {
  import opened Wrappers
  import opened Text
  import opened Decimal
  import opened Integers

  datatype Number = Number(negative: bool, coefficient: nat, exponent: int)

  const POINT: CodePoint := 46
  const EXPONENT: CodePoint := 69

  function Zeros(n: nat): seq<Digit> {
    seq(n, i => 0)
  }

  /** The text without its sign. */
  function PrintMagnitude(ds: seq<Digit>, exponent: int): Str
    requires ds != []
  {
    var left := exponent + |ds|;
    if exponent <= 0 && left > -6 then
      if left <= 0 then DigitText([0]) + [POINT] + DigitText(Zeros(-left) + ds)
      else if left == |ds| then DigitText(ds)
      else DigitText(ds[..left]) + [POINT] + DigitText(ds[left..])
    else
      DigitText(ds[..1]) + (if |ds| > 1 then [POINT] + DigitText(ds[1..]) else [])
      + [EXPONENT] + SignedText(left - 1)
  }

  function Print(d: Number): Str {
    (if d.negative then [MINUS] else []) + PrintMagnitude(Digits(d.coefficient), d.exponent)
  }

  /** The number with its sign, a plus included. */
  function SignedText(n: int): Str {
    if n < 0 then [MINUS] + DigitText(Digits(-n)) else [PLUS] + DigitText(Digits(n))
  }

  /** The length of the run of digits s starts with. */
  function DigitPrefix(s: Str): (n: nat)
    ensures n <= |s|
    ensures forall i :: 0 <= i < n ==> DigitPoint(s[i])
  {
    if s != [] && DigitPoint(s[0]) then 1 + DigitPrefix(s[1..]) else 0
  }

  function TextDigits(s: Str): (ds: seq<Digit>)
    requires forall i :: 0 <= i < |s| ==> DigitPoint(s[i])
    ensures |ds| == |s|
  {
    if s == [] then []
    else
      assert DigitPoint(s[0]);
      var d: Digit := s[0] as int - 48;
      [d] + TextDigits(s[1..])
  }

  /** None where the text is not a finite decimal number. */
  function Parse(s: Str): Option<Number> {
    var signed := s != [] && (s[0] == MINUS || s[0] == PLUS);
    ParseMagnitude(signed && s[0] == MINUS, if signed then s[1..] else s)
  }

  /** The parts of a magnitude: digits before the point, digits after it, and what follows. */
  datatype Parts = Parts(whole: seq<Digit>, fraction: seq<Digit>, rest: Str)

  function Split(s: Str): Parts {
    var i := DigitPrefix(s);
    var whole := TextDigits(s[..i]);
    if i < |s| && s[i] == POINT then
      var after := s[i + 1..];
      var j := DigitPrefix(after);
      Parts(whole, TextDigits(after[..j]), after[j..])
    else Parts(whole, [], s[i..])
  }

  function ParseMagnitude(negative: bool, s: Str): Option<Number> {
    var p := Split(s);
    Assemble(negative, p.whole, p.fraction, ParseExponent(p.rest))
  }

  function Assemble(negative: bool, whole: seq<Digit>, fraction: seq<Digit>, exponent: Option<int>): Option<Number> {
    if exponent == None || (whole == [] && fraction == []) then None
    else Some(Number(negative, Value(whole + fraction), exponent.value - |fraction|))
  }

  function ParseExponent(s: Str): Option<int> {
    if s == [] then Some(0)
    else if s[0] != EXPONENT && s[0] != EXPONENT + 32 then None
    else if |s| > 1 && s[1] == MINUS then
      var n := Unsigned(s[2..]);
      if n == None then None else Some(-n.value)
    else if |s| > 1 && s[1] == PLUS then Unsigned(s[2..])
    else Unsigned(s[1..])
  }

  function Unsigned(s: Str): Option<int> {
    if s == [] || DigitPrefix(s) != |s| then None else Some(Value(TextDigits(s)))
  }

  // ---- reading back what was printed ----

  lemma {:induction false} DigitPrefixOf(ds: seq<Digit>, rest: Str)
    requires rest == [] || !DigitPoint(rest[0])
    ensures DigitPrefix(DigitText(ds) + rest) == |ds|
  {
    var s := DigitText(ds) + rest;
    if ds != [] {
      DigitPrefixOf(ds[1..], rest);
      assert s[1..] == DigitText(ds[1..]) + rest;
    } else {
      assert s == rest;
    }
  }

  lemma {:induction false} TextDigitsOf(ds: seq<Digit>)
    ensures TextDigits(DigitText(ds)) == ds
  {
    if ds != [] {
      TextDigitsOf(ds[1..]);
      assert DigitText(ds)[1..] == DigitText(ds[1..]) && [ds[0]] + ds[1..] == ds;
    }
  }

  lemma {:induction false} LeadingZeros(n: nat, ds: seq<Digit>)
    ensures Value(Zeros(n) + ds) == Value(ds)
  {
    if ds == [] {
      assert Zeros(n) + ds == Zeros(n);
      ValueOfZeros(n);
    } else {
      var init := ds[..|ds| - 1];
      LeadingZeros(n, init);
      assert (Zeros(n) + ds)[..n + |ds| - 1] == Zeros(n) + init;
    }
  }

  lemma {:induction false} ValueOfZeros(n: nat)
    ensures Value(Zeros(n)) == 0
  {
    if n > 0 {
      ValueOfZeros(n - 1);
      assert Zeros(n)[..n - 1] == Zeros(n - 1);
    }
  }

  lemma UnsignedOf(n: nat)
    ensures Unsigned(DigitText(Digits(n))) == Some(n)
  {
    var ds := Digits(n);
    assert DigitText(ds) + [] == DigitText(ds);
    DigitPrefixOf(ds, []);
    TextDigitsOf(ds);
    ValueOfDigits(n);
  }

  lemma DropTwo(x: CodePoint, y: CodePoint, t: Str)
    ensures var s := [x] + ([y] + t); |s| > 1 && s[0] == x && s[1] == y && s[2..] == t
  {}

  lemma ParseSigned(negative: bool, t: Str, n: int)
    requires Unsigned(t) == Some(n)
    ensures ParseExponent([EXPONENT] + ([if negative then MINUS else PLUS] + t)) == Some(if negative then -n else n)
  {
    DropTwo(EXPONENT, if negative then MINUS else PLUS, t);
  }

  lemma ParseSignedText(n: int)
    ensures ParseExponent([EXPONENT] + SignedText(n)) == Some(n)
  {
    var m: nat := if n < 0 then -n else n;
    UnsignedOf(m);
    ParseSigned(n < 0, DigitText(Digits(m)), m);
  }

  /** A magnitude in one of its notations: digits a, perhaps a point and digits b, then `rest`. */
  ghost predicate Shape(s: Str, a: seq<Digit>, b: seq<Digit>, rest: Str) {
    s == DigitText(a) + [POINT] + DigitText(b) + rest || (b == [] && s == DigitText(a) + rest)
  }

  lemma PointedShape(a: Str, b: Str, rest: Str)
    ensures var s := a + [POINT] + b + rest;
      && s == a + ([POINT] + (b + rest))
      && s[|a|] == POINT && s[..|a|] == a && s[|a| + 1..] == b + rest
      && (b + rest)[..|b|] == b && (b + rest)[|b|..] == rest
  {}

  lemma SplitShape(s: Str, a: seq<Digit>, b: seq<Digit>, rest: Str)
    requires Shape(s, a, b, rest) && (rest == [] || rest[0] == EXPONENT)
    ensures Split(s) == Parts(a, b, rest)
  {
    TextDigitsOf(a);
    TextDigitsOf(b);
    if s == DigitText(a) + [POINT] + DigitText(b) + rest {
      PointedShape(DigitText(a), DigitText(b), rest);
      DigitPrefixOf(a, [POINT] + (DigitText(b) + rest));
      DigitPrefixOf(b, rest);
    } else {
      DigitPrefixOf(a, rest);
      assert s[..|a|] == DigitText(a) && s[|a|..] == rest;
    }
  }

  lemma Assembled(a: seq<Digit>, b: seq<Digit>, e: int, d: Number)
    requires a != [] && d.coefficient == Value(a + b) && d.exponent == e - |b|
    ensures Assemble(d.negative, a, b, Some(e)) == Some(d)
  {}

  lemma AssembledParts(negative: bool, s: Str, p: Parts, e: int)
    requires Split(s) == p && ParseExponent(p.rest) == Some(e)
    ensures ParseMagnitude(negative, s) == Assemble(negative, p.whole, p.fraction, Some(e))
  {}

  /** The digits before and after the point, and the exponent, are read as they stand. */
  lemma ParseShape(s: Str, a: seq<Digit>, b: seq<Digit>, rest: Str, e: int, d: Number)
    requires Shape(s, a, b, rest)
    requires a != [] && (rest == [] || rest[0] == EXPONENT) && ParseExponent(rest) == Some(e)
    requires d.coefficient == Value(a + b) && d.exponent == e - |b|
    ensures ParseMagnitude(d.negative, s) == Some(d)
  {
    SplitShape(s, a, b, rest);
    AssembledParts(d.negative, s, Parts(a, b, rest), e);
    Assembled(a, b, e, d);
  }

  lemma SmallShape(ds: seq<Digit>, exponent: int)
    requires ds != [] && exponent <= 0 && -6 < exponent + |ds| <= 0
    ensures Shape(PrintMagnitude(ds, exponent), [0], Zeros(-(exponent + |ds|)) + ds, [])
  {
    var b := Zeros(-(exponent + |ds|)) + ds;
    assert DigitText([0]) + [POINT] + DigitText(b) + [] == DigitText([0]) + [POINT] + DigitText(b);
  }

  lemma MiddleShape(ds: seq<Digit>, exponent: int)
    requires ds != [] && exponent <= 0 && 0 < exponent + |ds|
    ensures Shape(PrintMagnitude(ds, exponent), ds[..exponent + |ds|], ds[exponent + |ds|..], [])
  {
    var a, b := ds[..exponent + |ds|], ds[exponent + |ds|..];
    assert DigitText(a) + [POINT] + DigitText(b) + [] == DigitText(a) + [POINT] + DigitText(b);
    assert DigitText(ds) + [] == DigitText(ds);
    if exponent == 0 { assert a == ds && b == []; }
  }

  lemma ScientificShape(ds: seq<Digit>, exponent: int)
    requires ds != [] && !(exponent <= 0 && exponent + |ds| > -6)
    ensures Shape(PrintMagnitude(ds, exponent), ds[..1], ds[1..], [EXPONENT] + SignedText(exponent + |ds| - 1))
  {
    var a, b, x := DigitText(ds[..1]), DigitText(ds[1..]), SignedText(exponent + |ds| - 1);
    assert a + ([POINT] + b) + [EXPONENT] + x == a + [POINT] + b + ([EXPONENT] + x);
    assert a + [] + [EXPONENT] + x == a + ([EXPONENT] + x);
  }

  lemma ValueOfPadded(n: nat, ds: seq<Digit>)
    ensures Value([0] + (Zeros(n) + ds)) == Value(ds)
  {
    LeadingZeros(n + 1, ds);
    assert [0] + (Zeros(n) + ds) == Zeros(n + 1) + ds;
  }

  lemma ValueOfHalves(ds: seq<Digit>, k: nat)
    requires k <= |ds|
    ensures Value(ds[..k] + ds[k..]) == Value(ds)
  {
    assert ds[..k] + ds[k..] == ds;
  }

  lemma ParseScientific(ds: seq<Digit>, d: Number)
    requires ds != [] && d.coefficient == Value(ds) && !(d.exponent <= 0 && d.exponent + |ds| > -6)
    ensures ParseMagnitude(d.negative, PrintMagnitude(ds, d.exponent)) == Some(d)
  {
    var e := d.exponent + |ds| - 1;
    ScientificShape(ds, d.exponent);
    ParseSignedText(e);
    ValueOfHalves(ds, 1);
    ParseShape(PrintMagnitude(ds, d.exponent), ds[..1], ds[1..], [EXPONENT] + SignedText(e), e, d);
  }

  lemma ParseSmall(ds: seq<Digit>, d: Number)
    requires ds != [] && d.coefficient == Value(ds) && d.exponent <= 0 && -6 < d.exponent + |ds| <= 0
    ensures ParseMagnitude(d.negative, PrintMagnitude(ds, d.exponent)) == Some(d)
  {
    var n := -(d.exponent + |ds|);
    SmallShape(ds, d.exponent);
    ValueOfPadded(n, ds);
    ParseShape(PrintMagnitude(ds, d.exponent), [0], Zeros(n) + ds, [], 0, d);
  }

  lemma ParseMiddle(ds: seq<Digit>, d: Number)
    requires ds != [] && d.coefficient == Value(ds) && d.exponent <= 0 && 0 < d.exponent + |ds|
    ensures ParseMagnitude(d.negative, PrintMagnitude(ds, d.exponent)) == Some(d)
  {
    var left := d.exponent + |ds|;
    MiddleShape(ds, d.exponent);
    ValueOfHalves(ds, left);
    ParseShape(PrintMagnitude(ds, d.exponent), ds[..left], ds[left..], [], 0, d);
  }

  /** The magnitude is read back in every notation. */
  lemma ParseMagnitudeText(ds: seq<Digit>, d: Number)
    requires ds != [] && d.coefficient == Value(ds)
    ensures ParseMagnitude(d.negative, PrintMagnitude(ds, d.exponent)) == Some(d)
  {
    if d.exponent > 0 || d.exponent + |ds| <= -6 {
      ParseScientific(ds, d);
    } else if d.exponent + |ds| <= 0 {
      ParseSmall(ds, d);
    } else {
      ParseMiddle(ds, d);
    }
  }

  /** A printed number starts with a digit or with its minus sign. */
  lemma MagnitudeStartsWithDigit(ds: seq<Digit>, exponent: int)
    requires ds != []
    ensures PrintMagnitude(ds, exponent) != [] && DigitPoint(PrintMagnitude(ds, exponent)[0])
  {}

  /** `Decimal(str(d))` is d: sign, coefficient and exponent, whatever the notation. */
  lemma PrintParse(d: Number)
    ensures Parse(Print(d)) == Some(d)
  {
    var ds := Digits(d.coefficient);
    var m := PrintMagnitude(ds, d.exponent);
    ValueOfDigits(d.coefficient);
    MagnitudeStartsWithDigit(ds, d.exponent);
    ParseMagnitudeText(ds, d);
    if d.negative {
      assert ([MINUS] + m)[1..] == m;
    } else {
      assert [] + m == m;
    }
  }

  // ---- the notation, in characters ----

  /** Decimal digits as characters. */
  function Chars(ds: seq<Digit>): (t: Str)
    ensures |t| == |ds|
    ensures forall i :: 0 <= i < |ds| ==> t[i] == "0123456789"[ds[i]] as int
  {
    seq(|ds|, i requires 0 <= i < |ds| => "0123456789"[ds[i]] as int)
  }

  lemma CharsAreDigitText(ds: seq<Digit>)
    ensures DigitText(ds) == Chars(ds)
  {
    forall i | 0 <= i < |ds| ensures DigitText(ds)[i] == Chars(ds)[i] {
      DigitChar(ds[i]);
    }
  }

  lemma DigitChar(d: Digit)
    ensures "0123456789"[d] as int == 48 + d as int
  {}

  ghost predicate AllZero(ds: seq<Digit>) {
    forall i :: 0 <= i < |ds| ==> ds[i] == 0
  }

  /** A whole number: its digits. */
  lemma WholeNotation(ds: seq<Digit>)
    requires ds != []
    ensures PrintMagnitude(ds, 0) == Chars(ds)
  {
    CharsAreDigitText(ds);
  }

  /** A point inside the digits. */
  lemma PointedNotation(ds: seq<Digit>, left: nat)
    requires 0 < left < |ds|
    ensures PrintMagnitude(ds, left - |ds|) == Chars(ds[..left]) + Lit(".") + Chars(ds[left..])
  {
    SignedLiterals();
    CharsAreDigitText(ds[..left]);
    CharsAreDigitText(ds[left..]);
  }

  /** At most five zeros behind the point. */
  lemma SmallNotation(ds: seq<Digit>, n: nat, zeros: seq<Digit>)
    requires ds != [] && n < 6 && |zeros| == n && AllZero(zeros)
    ensures PrintMagnitude(ds, -(n as int) - |ds|) == Lit("0.") + Chars(zeros + ds)
  {
    assert zeros == Zeros(n);
    CharsAreDigitText(zeros + ds);
    assert DigitText([0]) + [POINT] == Lit("0.");
  }

  /** One digit before the point, and behind an E the exponent with its sign. */
  lemma ScientificNotation(ds: seq<Digit>, exponent: int)
    requires ds != [] && (exponent > 0 || exponent + |ds| <= -6)
    ensures var shift := exponent + |ds| - 1;
      PrintMagnitude(ds, exponent)
      == Chars(ds[..1]) + (if |ds| > 1 then Lit(".") + Chars(ds[1..]) else []) + Lit("E")
         + (if shift < 0 then Lit("-") + Chars(Digits(-shift)) else Lit("+") + Chars(Digits(shift)))
  {
    var shift := exponent + |ds| - 1;
    SignedLiterals();
    CharsAreDigitText(ds[..1]);
    CharsAreDigitText(ds[1..]);
    CharsAreDigitText(Digits(if shift < 0 then -shift else shift));
    assert SignedText(shift) == if shift < 0 then Lit("-") + Chars(Digits(-shift)) else Lit("+") + Chars(Digits(shift));
    assert [EXPONENT] == Lit("E");
  }

  /** A minus sign goes in front. */
  lemma SignNotation(d: Number)
    ensures Print(d) == (if d.negative then Lit("-") else []) + PrintMagnitude(Digits(d.coefficient), d.exponent)
  {
    SignedLiterals();
  }

  lemma SignedLiterals()
    ensures Lit("-") == [MINUS] && Lit("+") == [PLUS] && Lit(".") == [POINT] && Lit("E") == [EXPONENT]
  {}
}
