/** Python's `str(int)` and `int(str)` in base 10. */
module Integers {
  import opened Wrappers
  import opened Text
  import Decimal

  /** The interpreter's default limit on digits in either direction. */
  const MAX_STR_DIGITS := 4300

  const MINUS: CodePoint := 45
  const PLUS: CodePoint := 43
  const UNDERSCORE: CodePoint := 95

  function DigitText(ds: seq<Decimal.Digit>): (s: Str)
    ensures |s| == |ds| && forall i :: 0 <= i < |s| ==> s[i] == 48 + ds[i] as int
  {
    seq(|ds|, i requires 0 <= i < |ds| => 48 + ds[i] as int)
  }

  /** None where `str` raises ValueError: the number has too many digits. */
  function Print(n: int): Option<Str> {
    var ds := Decimal.Digits(if n < 0 then -n else n);
    if |ds| > MAX_STR_DIGITS then None
    else if n < 0 then Some([MINUS] + DigitText(ds)) else Some(DigitText(ds))
  }

  predicate Space(c: int) {
    9 <= c <= 13 || c == 32
  }

  predicate DigitPoint(c: int) {
    48 <= c <= 57
  }

  function StripLeft(s: Str): Str {
    if s != [] && Space(s[0]) then StripLeft(s[1..]) else s
  }

  function StripRight(s: Str): Str {
    if s != [] && Space(s[|s| - 1]) then StripRight(s[..|s| - 1]) else s
  }

  /** Digits, single underscores allowed between two of them. */
  predicate DigitRun(s: Str) {
    && s != []
    && s[0] != UNDERSCORE && s[|s| - 1] != UNDERSCORE
    && (forall i :: 0 <= i < |s| ==> DigitPoint(s[i]) || s[i] == UNDERSCORE)
    && (forall i :: 0 < i < |s| ==> !(s[i - 1] == UNDERSCORE && s[i] == UNDERSCORE))
  }

  function DigitsOf(s: Str): seq<Decimal.Digit>
    requires forall i :: 0 <= i < |s| ==> DigitPoint(s[i]) || s[i] == UNDERSCORE
  {
    if s == [] then []
    else if s[0] == UNDERSCORE then DigitsOf(s[1..])
    else
      assert DigitPoint(s[0]);
      var d: Decimal.Digit := s[0] as int - 48;
      [d] + DigitsOf(s[1..])
  }

  /** What a non-ASCII code point counts as: a space, a digit, or neither. `int` consults the Unicode
      database; the model takes it as a parameter. */
  type UnicodeDatabase = CodePoint -> Option<CodePoint>

  function ToAscii(s: Str, unicode: UnicodeDatabase): Option<Str> {
    if s == [] then Some([])
    else
      var c := if s[0] < 127 then Some(s[0]) else unicode(s[0]);
      var rest := ToAscii(s[1..], unicode);
      if c == None || rest == None then None else Some([c.value] + rest.value)
  }

  /** A number without spaces around it. */
  function ParseSigned(t: Str): Option<int> {
    var signed := t != [] && (t[0] == PLUS || t[0] == MINUS);
    var body := if signed then t[1..] else t;
    if !DigitRun(body) || |DigitsOf(body)| > MAX_STR_DIGITS then None
    else
      var n: int := Decimal.Value(DigitsOf(body));
      Some(if signed && t[0] == MINUS then -n else n)
  }

  /** None where `int` raises ValueError. */
  function Parse(s: Str, unicode: UnicodeDatabase): Option<int> {
    match ToAscii(s, unicode)
    case None => None
    case Some(ascii) => ParseSigned(StripRight(StripLeft(ascii)))
  }

  lemma {:induction false} AsciiToAscii(s: Str, unicode: UnicodeDatabase)
    requires forall i :: 0 <= i < |s| ==> s[i] < 127
    ensures ToAscii(s, unicode) == Some(s)
  {
    if s != [] {
      AsciiToAscii(s[1..], unicode);
      assert [s[0]] + s[1..] == s;
    }
  }

  lemma {:induction false} DigitsOfText(ds: seq<Decimal.Digit>)
    ensures DigitsOf(DigitText(ds)) == ds
  {
    if ds != [] {
      DigitsOfText(ds[1..]);
      assert DigitText(ds)[1..] == DigitText(ds[1..]);
      assert [ds[0]] + ds[1..] == ds;
    }
  }

  lemma StripNothing(s: Str)
    requires s != [] && !Space(s[0]) && !Space(s[|s| - 1])
    ensures StripRight(StripLeft(s)) == s
  {}

  lemma DigitTextRun(ds: seq<Decimal.Digit>)
    requires ds != []
    ensures DigitRun(DigitText(ds))
  {}

  /** A printed number is ASCII without spaces around it. */
  lemma PlainText(ds: seq<Decimal.Digit>, negative: bool)
    requires ds != []
    ensures var s := if negative then [MINUS] + DigitText(ds) else DigitText(ds);
      (forall i :: 0 <= i < |s| ==> s[i] < 127) && StripRight(StripLeft(s)) == s
  {
    var body := DigitText(ds);
    var s := if negative then [MINUS] + body else body;
    assert body[0] == 48 + ds[0] as int && s[|s| - 1] == 48 + ds[|ds| - 1] as int;
    StripNothing(s);
  }

  /** A run of digits, signed or not, reads as its value. */
  lemma ParseRun(ds: seq<Decimal.Digit>, negative: bool, unicode: UnicodeDatabase)
    requires 0 < |ds| <= MAX_STR_DIGITS
    ensures var s := if negative then [MINUS] + DigitText(ds) else DigitText(ds);
      Parse(s, unicode) == Some(if negative then -(Decimal.Value(ds) as int) else Decimal.Value(ds))
  {
    var body := DigitText(ds);
    var s := if negative then [MINUS] + body else body;
    PlainText(ds, negative);
    AsciiToAscii(s, unicode);
    DigitTextRun(ds);
    DigitsOfText(ds);
    ParseStripped(s, unicode);
    SignedDigits(s, negative, body, ds);
  }

  lemma SignedDigits(t: Str, negative: bool, body: Str, ds: seq<Decimal.Digit>)
    requires t == if negative then [MINUS] + body else body
    requires DigitRun(body) && DigitsOf(body) == ds && |ds| <= MAX_STR_DIGITS
    ensures ParseSigned(t) == Some(if negative then -(Decimal.Value(ds) as int) else Decimal.Value(ds))
  {
    if negative {
      assert t[1..] == body && t[0] == MINUS;
    } else {
      assert t[0] != MINUS && t[0] != PLUS;
    }
  }

  lemma ParseStripped(s: Str, unicode: UnicodeDatabase)
    requires ToAscii(s, unicode) == Some(s) && StripRight(StripLeft(s)) == s
    ensures Parse(s, unicode) == ParseSigned(s)
  {}

  /** Whatever `str` prints, `int` reads back. */
  lemma PrintParse(n: int, unicode: UnicodeDatabase)
    requires Print(n).Some?
    ensures Parse(Print(n).value, unicode) == Some(n)
    ensures Print(n).value != [] && Ascii(Print(n).value)
  {
    var m := if n < 0 then -n else n;
    ParseRun(Decimal.Digits(m), n < 0, unicode);
    Decimal.ValueOfDigits(m);
  }

  // ---- what `int` reads ----

  ghost predicate Blank(s: Str) {
    forall i :: 0 <= i < |s| ==> Space(s[i])
  }

  /** Spaces, perhaps a sign, a run of digits, spaces. */
  ghost predicate Spells(before: Str, sign: Str, body: Str, after: Str, text: Str, n: int) {
    && text == before + (sign + body) + after && Blank(before) && Blank(after)
    && (sign == [] || sign == Lit("+") || sign == Lit("-"))
    && DigitRun(body) && |DigitsOf(body)| <= 4300
    && n == (if sign == Lit("-") then -1 else 1) * Decimal.Value(DigitsOf(body))
  }

  lemma {:induction false} StripLeftMeaning(s: Str) returns (before: Str)
    ensures Blank(before) && s == before + StripLeft(s)
    ensures StripLeft(s) != [] ==> !Space(StripLeft(s)[0])
  {
    before := [];
    if s != [] && Space(s[0]) {
      var more := StripLeftMeaning(s[1..]);
      before := [s[0]] + more;
      assert s == [s[0]] + s[1..];
    }
  }

  lemma {:induction false} StripRightMeaning(s: Str) returns (after: Str)
    ensures Blank(after) && s == StripRight(s) + after
    ensures StripRight(s) != [] ==> !Space(StripRight(s)[|StripRight(s)| - 1])
  {
    after := [];
    if s != [] && Space(s[|s| - 1]) {
      var more := StripRightMeaning(s[..|s| - 1]);
      after := more + [s[|s| - 1]];
      assert s == s[..|s| - 1] + [s[|s| - 1]];
    }
  }

  lemma {:induction false} StripLeftBlank(before: Str, s: Str)
    requires Blank(before) && s != [] && !Space(s[0])
    ensures StripLeft(before + s) == s
  {
    if before == [] {
      assert before + s == s;
    } else {
      assert (before + s)[1..] == before[1..] + s;
      StripLeftBlank(before[1..], s);
    }
  }

  lemma {:induction false} StripRightBlank(s: Str, after: Str)
    requires Blank(after) && s != [] && !Space(s[|s| - 1])
    ensures StripRight(s + after) == s
  {
    if after == [] {
      assert s + after == s;
    } else {
      assert (s + after)[..|s + after| - 1] == s + after[..|after| - 1];
      StripRightBlank(s, after[..|after| - 1]);
    }
  }

  /** What is left after stripping is the sign and the digits. */
  lemma SpelledText(before: Str, sign: Str, body: Str, after: Str, text: Str, n: int)
    requires Spells(before, sign, body, after, text, n)
    ensures StripRight(StripLeft(text)) == sign + body
  {
    var t := sign + body;
    assert t[|t| - 1] == body[|body| - 1] && t[0] == if sign == [] then body[0] else sign[0];
    assert text == before + (t + after);
    StripLeftBlank(before, t + after);
    StripRightBlank(t, after);
  }

  lemma SpelledIsParsed(before: Str, sign: Str, body: Str, after: Str, s: Str, unicode: UnicodeDatabase, n: int)
    requires ToAscii(s, unicode).Some? && Spells(before, sign, body, after, ToAscii(s, unicode).value, n)
    ensures Parse(s, unicode) == Some(n)
  {
    SpelledText(before, sign, body, after, ToAscii(s, unicode).value, n);
    var t := sign + body;
    if sign == [] {
      assert t == body;
    } else {
      assert t[1..] == body && t[0] == sign[0];
    }
  }

  lemma Regroup(a: Str, b: Str, c: Str)
    ensures a + (b + c) == a + b + c
  {}

  lemma SplitSign(t: Str) returns (sign: Str, body: Str)
    ensures t == sign + body && (sign == [] || sign == Lit("+") || sign == Lit("-"))
    ensures var signed := t != [] && (t[0] == PLUS || t[0] == MINUS);
      body == (if signed then t[1..] else t) && (sign == Lit("-") <==> signed && t[0] == MINUS)
  {
    var signed := t != [] && (t[0] == PLUS || t[0] == MINUS);
    if signed {
      sign, body := [t[0]], t[1..];
      assert t[0] == PLUS ==> sign == Lit("+");
      assert t[0] == MINUS ==> sign == Lit("-");
      assert sign[0] == t[0] && Lit("-")[0] == MINUS;
    } else {
      sign, body := [], t;
    }
  }

  lemma ParsedIsSpelled(s: Str, unicode: UnicodeDatabase) returns (before: Str, sign: Str, body: Str, after: Str)
    requires Parse(s, unicode).Some?
    ensures Spells(before, sign, body, after, ToAscii(s, unicode).value, Parse(s, unicode).value)
  {
    var text := ToAscii(s, unicode).value;
    before := StripLeftMeaning(text);
    after := StripRightMeaning(StripLeft(text));
    var t := StripRight(StripLeft(text));
    sign, body := SplitSign(t);
    assert text == before + (sign + body) + after by { Regroup(before, t, after); }
  }

  /** `int` reads n from a text exactly if the text, its characters taken as ASCII, is n in decimal with
      perhaps a sign, single underscores between digits and spaces around. */
  lemma ParseMeaning(s: Str, unicode: UnicodeDatabase, n: int)
    ensures Parse(s, unicode) == Some(n)
      <==> ToAscii(s, unicode).Some?
           && exists before, sign, body, after :: Spells(before, sign, body, after, ToAscii(s, unicode).value, n)
  {
    if Parse(s, unicode) == Some(n) {
      var before, sign, body, after := ParsedIsSpelled(s, unicode);
    }
    if ToAscii(s, unicode).Some? {
      if before, sign, body, after :| Spells(before, sign, body, after, ToAscii(s, unicode).value, n) {
        SpelledIsParsed(before, sign, body, after, s, unicode, n);
      }
    }
  }

  /** Every character is taken as it is below 127, and as the database says from there on. */
  lemma {:induction false} ToAsciiMeaning(s: Str, unicode: UnicodeDatabase)
    ensures ToAscii(s, unicode).Some? <==> forall i :: 0 <= i < |s| && s[i] >= 127 ==> unicode(s[i]).Some?
    ensures ToAscii(s, unicode).Some? ==>
      |ToAscii(s, unicode).value| == |s|
      && forall i :: 0 <= i < |s| ==>
           ToAscii(s, unicode).value[i] == if s[i] < 127 then s[i] else unicode(s[i]).value
  {
    if s != [] {
      ToAsciiMeaning(s[1..], unicode);
      if ToAscii(s, unicode) == None && (s[0] < 127 || unicode(s[0]).Some?) {
        var i :| 0 <= i < |s[1..]| && s[1..][i] >= 127 && unicode(s[1..][i]) == None;
        assert s[i + 1] == s[1..][i];
      }
    }
  }
}
