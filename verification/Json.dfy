/** Python's `json`: the ASCII-only string printer of `dumps`, and `loads` over the whole grammar
    (sections 2 to 7 of RFC 8259, with Python's NaN and Infinity). */
module Json {
  import opened Wrappers
  import opened Text
  import opened Dict
  import DecimalText

  /** A parsed document. A number is kept as the literal it was written as. */
  datatype Json =
    | Null
    | Bool(b: bool)
    | Number(literal: Str)
    | String(text: Str)
    | Array(elements: seq<Json>)
    | Object(members: seq<Entry<Str, Json>>)

  /** A value read off the front of a text, and what follows it. */
  datatype Read<+T> = Bad | Read(value: T, rest: Str)

  const QUOTE: CodePoint := 34
  const BACKSLASH: CodePoint := 92
  const COMMA: CodePoint := 44
  const COLON: CodePoint := 58
  const SPACE: CodePoint := 32
  const LBRACE: CodePoint := 123
  const RBRACE: CodePoint := 125
  const LBRACKET: CodePoint := 91
  const RBRACKET: CodePoint := 93
  const LOWER_U: CodePoint := 117

  // ---- printing strings ----

  predicate High(c: int) { 0xD800 <= c < 0xDC00 }

  predicate Low(c: int) { 0xDC00 <= c < 0xE000 }

  function Join(high: int, low: int): CodePoint
    requires High(high) && Low(low)
  {
    0x1_0000 + (high - 0xD800) * 0x400 + (low - 0xDC00)
  }

  /** The surrogate pair of a code point beyond the basic plane. */
  function HighHalf(c: CodePoint): (h: int)
    requires c >= 0x1_0000
    ensures High(h)
  {
    0xD800 + (c - 0x1_0000) / 0x400
  }

  function LowHalf(c: CodePoint): (l: int)
    requires c >= 0x1_0000
    ensures Low(l)
  {
    0xDC00 + (c - 0x1_0000) % 0x400
  }

  function HexDigit(n: int): CodePoint
    requires 0 <= n < 16
  {
    if n < 10 then 48 + n else 87 + n
  }

  /** The six-character escape of one code unit, in lower-case hexadecimal. */
  function UnitEscape(n: int): (e: Str)
    requires 0 <= n < 0x1_0000
    ensures |e| == 6
  {
    [BACKSLASH, LOWER_U, HexDigit(n / 0x1000), HexDigit(n / 0x100 % 16), HexDigit(n / 0x10 % 16), HexDigit(n % 16)]
  }

  /** The letter of the two-character escape of c, if it has one. */
  function ShortEscape(c: CodePoint): Option<CodePoint> {
    if c == QUOTE || c == BACKSLASH then Some(c)
    else if c == 8 then Some(98)
    else if c == 9 then Some(116)
    else if c == 10 then Some(110)
    else if c == 12 then Some(102)
    else if c == 13 then Some(114)
    else None
  }

  predicate Plain(c: CodePoint) {
    32 <= c <= 126 && c != QUOTE && c != BACKSLASH
  }

  /** Code point c as it stands inside a printed string, followed by t. */
  function EscapePoint(c: CodePoint, t: Str): Str {
    if Plain(c) then [c] + t
    else if ShortEscape(c).Some? then [BACKSLASH, ShortEscape(c).value] + t
    else if c < 0x1_0000 then UnitEscape(c) + t
    else UnitEscape(HighHalf(c)) + (UnitEscape(LowHalf(c)) + t)
  }

  /** The inside of the printed string s, followed by t. */
  function Escaped(s: Str, t: Str): Str {
    if s == [] then t else EscapePoint(s[0], Escaped(s[1..], t))
  }

  lemma ConcatIsAscii(a: Str, b: Str)
    requires Ascii(a) && Ascii(b)
    ensures Ascii(a + b)
  {}

  lemma PointIsAscii(c: CodePoint, t: Str)
    requires Ascii(t)
    ensures Ascii(EscapePoint(c, t))
  {
    if Plain(c) {
      ConcatIsAscii([c], t);
    } else if ShortEscape(c).Some? {
      ConcatIsAscii([BACKSLASH, ShortEscape(c).value], t);
    } else if c < 0x1_0000 {
      ConcatIsAscii(UnitEscape(c), t);
    } else {
      ConcatIsAscii(UnitEscape(LowHalf(c)), t);
      ConcatIsAscii(UnitEscape(HighHalf(c)), UnitEscape(LowHalf(c)) + t);
    }
  }

  lemma {:induction false} EscapedIsAscii(s: Str, t: Str)
    requires Ascii(t)
    ensures Ascii(Escaped(s, t))
  {
    if s != [] {
      EscapedIsAscii(s[1..], t);
      PointIsAscii(s[0], Escaped(s[1..], t));
    }
  }

  // ---- reading strings ----

  function HexValue(c: CodePoint): (h: Option<int>)
    ensures h.Some? ==> 0 <= h.value < 16
  {
    if 48 <= c <= 57 then Some(c - 48)
    else if 97 <= c <= 102 then Some(c - 87)
    else if 65 <= c <= 70 then Some(c - 55)
    else None
  }

  /** The code unit of the `\uXXXX` that s starts with, if it does. */
  function Unit(s: Str): (u: Option<int>)
    ensures u.Some? ==> |s| >= 6 && s[0] == BACKSLASH && 0 <= u.value < 0x1_0000
  {
    if |s| < 6 || s[0] != BACKSLASH || s[1] != LOWER_U then None
    else
      var a, b, c, d := HexValue(s[2]), HexValue(s[3]), HexValue(s[4]), HexValue(s[5]);
      if a == None || b == None || c == None || d == None then None
      else Some(a.value * 0x1000 + b.value * 0x100 + c.value * 0x10 + d.value)
  }

  function Unescape(letter: CodePoint): Option<CodePoint> {
    if letter == QUOTE || letter == BACKSLASH || letter == 47 then Some(letter)
    else if letter == 98 then Some(8)
    else if letter == 116 then Some(9)
    else if letter == 110 then Some(10)
    else if letter == 102 then Some(12)
    else if letter == 114 then Some(13)
    else None
  }

  function Prepend(c: CodePoint, r: Read<Str>): (p: Read<Str>)
    ensures p.Read? <==> r.Read?
    ensures p.Read? ==> p.rest == r.rest
  {
    match r
    case Bad => Bad
    case Read(s, rest) => Read([c] + s, rest)
  }

  /** Reads a string whose opening quote is already behind. Escaped surrogate pairs are joined. */
  function ScanString(s: Str): (r: Read<Str>)
    ensures r.Read? ==> |r.rest| < |s|
  {
    if s == [] then Bad
    else if s[0] == QUOTE then Read([], s[1..])
    else if s[0] != BACKSLASH then if s[0] < 32 then Bad else Prepend(s[0], ScanString(s[1..]))
    else if Unit(s).Some? then
      var c, next := Unit(s).value, Unit(s[6..]);
      if High(c) && next.Some? && Low(next.value) then Prepend(Join(c, next.value), ScanString(s[6..][6..]))
      else Prepend(c, ScanString(s[6..]))
    else if |s| > 1 && Unescape(s[1]).Some? then Prepend(Unescape(s[1]).value, ScanString(s[2..]))
    else Bad
  }

  // ---- reading documents ----

  predicate Blank(c: CodePoint) {
    c == 32 || c == 9 || c == 10 || c == 13
  }

  function Skip(s: Str): (r: Str)
    ensures |r| <= |s|
  {
    if s != [] && Blank(s[0]) then Skip(s[1..]) else s
  }

  function ParseValue(s: Str): (r: Read<Json>)
    ensures r.Read? ==> |r.rest| < |s|
    decreases |s|, 0
  {
    if s == [] then Bad
    else if s[0] == QUOTE then
      (match ScanString(s[1..])
       case Bad => Bad
       case Read(t, rest) => Read(String(t), rest))
    else if s[0] == LBRACE then
      (match ParseObject(s[1..])
       case Bad => Bad
       case Read(pairs, rest) => Read(Object(FromPairs(pairs)), rest))
    else if s[0] == LBRACKET then
      (match ParseArray(s[1..])
       case Bad => Bad
       case Read(elements, rest) => Read(Array(elements), rest))
    else ParseAtom(s)
  }

  /** What follows `{`. */
  function ParseObject(s: Str): (r: Read<seq<Entry<Str, Json>>>)
    ensures r.Read? ==> |r.rest| < |s|
    decreases |s|, 1
  {
    var t := Skip(s);
    if t == [] then Bad
    else if t[0] == RBRACE then Read([], t[1..])
    else if t[0] == QUOTE then ParseMembers(t[1..])
    else Bad
  }

  /** Past the colon after a key. */
  function AfterColon(s: Str): (r: Option<Str>)
    ensures r.Some? ==> |r.value| < |s|
  {
    var colon := Skip(s);
    if colon == [] || colon[0] != COLON then None else Some(Skip(colon[1..]))
  }

  /** What comes after a member: the end of the object, or the next key with its opening quote behind. */
  datatype Follow = End(rest: Str) | More(next: Str) | Broken

  function AfterMember(s: Str): (f: Follow)
    ensures f.End? ==> |f.rest| < |s|
    ensures f.More? ==> |f.next| < |s|
  {
    var t := Skip(s);
    if t == [] then Broken
    else if t[0] == RBRACE then End(t[1..])
    else if t[0] != COMMA then Broken
    else
      var quote := Skip(t[1..]);
      if quote == [] || quote[0] != QUOTE then Broken else More(quote[1..])
  }

  /** One or more members; the quote opening the first key is already behind. */
  function ParseMembers(s: Str): (r: Read<seq<Entry<Str, Json>>>)
    ensures r.Read? ==> |r.rest| < |s|
    decreases |s|, 0
  {
    match ScanString(s)
    case Bad => Bad
    case Read(key, afterKey) =>
      var start := AfterColon(afterKey);
      if start == None then Bad
      else
        match ParseValue(start.value)
        case Bad => Bad
        case Read(value, afterValue) =>
          match AfterMember(afterValue)
          case Broken => Bad
          case End(rest) => Read([Entry(key, value)], rest)
          case More(next) =>
            match ParseMembers(next)
            case Bad => Bad
            case Read(more, rest) => Read([Entry(key, value)] + more, rest)
  }

  /** What follows `[`. */
  function ParseArray(s: Str): (r: Read<seq<Json>>)
    ensures r.Read? ==> |r.rest| < |s|
    decreases |s|, 2
  {
    var t := Skip(s);
    if t != [] && t[0] == RBRACKET then Read([], t[1..]) else ParseElements(t)
  }

  function ParseElements(s: Str): (r: Read<seq<Json>>)
    ensures r.Read? ==> |r.rest| < |s|
    decreases |s|, 1
  {
    match ParseValue(s)
    case Bad => Bad
    case Read(value, afterValue) =>
      var next := Skip(afterValue);
      if next == [] then Bad
      else if next[0] == RBRACKET then Read([value], next[1..])
      else if next[0] != COMMA then Bad
      else
        match ParseElements(Skip(next[1..]))
        case Bad => Bad
        case Read(more, rest) => Read([value] + more, rest)
  }

  const TRUE: Str := [116, 114, 117, 101]
  const FALSE: Str := [102, 97, 108, 115, 101]
  const NULL: Str := [110, 117, 108, 108]
  const NAN: Str := [78, 97, 78]
  const INFINITY: Str := [73, 110, 102, 105, 110, 105, 116, 121]

  function ParseAtom(s: Str): (r: Read<Json>)
    ensures r.Read? ==> |r.rest| < |s|
  {
    if NULL <= s then Read(Null, s[4..])
    else if TRUE <= s then Read(Bool(true), s[4..])
    else if FALSE <= s then Read(Bool(false), s[5..])
    else if NAN <= s then Read(Number(NAN), s[3..])
    else if INFINITY <= s then Read(Number(INFINITY), s[8..])
    else if [45] + INFINITY <= s then Read(Number(s[..9]), s[9..])
    else
      var whole := WholeLength(s);
      if whole == 0 then Bad
      else
        var n := whole + FractionLength(s[whole..]);
        var m := n + ExponentLength(s[n..]);
        if m == whole && TooLong(s[..m]) then Bad else Read(Number(s[..m]), s[m..])
  }

  /** How much of s is an integer literal: a sign, then 0 or digits that do not start with it. */
  function WholeLength(s: Str): (n: nat)
    ensures n <= |s|
  {
    var sign := if s != [] && s[0] == 45 then 1 else 0;
    if |s| == sign || !(48 <= s[sign] <= 57) then 0
    else if s[sign] == 48 then sign + 1
    else sign + DecimalText.DigitPrefix(s[sign..])
  }

  /** How much of s is a fraction: a point and at least one digit. */
  function FractionLength(s: Str): (n: nat)
    ensures n <= |s|
  {
    if s == [] || s[0] != 46 || DecimalText.DigitPrefix(s[1..]) == 0 then 0
    else 1 + DecimalText.DigitPrefix(s[1..])
  }

  /** How much of s is an exponent: its letter, perhaps a sign, and at least one digit. */
  function ExponentLength(s: Str): (n: nat)
    ensures n <= |s|
  {
    if s == [] || (s[0] != 69 && s[0] != 101) then 0
    else
      var sign := if |s| > 1 && (s[1] == 43 || s[1] == 45) then 2 else 1;
      var digits := DecimalText.DigitPrefix(s[sign..]);
      if digits == 0 then 0 else sign + digits
  }

  /** `int` refuses an integer literal of more than 4300 digits. */
  predicate TooLong(literal: Str) {
    |literal| > (if literal != [] && literal[0] == 45 then 4301 else 4300)
  }

  /** `json.loads`: None where it raises JSONDecodeError. */
  function Loads(s: Str): Option<Json> {
    match ParseValue(Skip(s))
    case Bad => None
    case Read(v, rest) => if Skip(rest) == [] then Some(v) else None
  }

  // ---- strings come back ----

  /** s with each high surrogate directly before a low one joined with it. */
  function Joined(s: Str): Str {
    if s == [] then []
    else if |s| > 1 && High(s[0]) && Low(s[1]) then [Join(s[0], s[1])] + Joined(s[2..])
    else [s[0]] + Joined(s[1..])
  }

  ghost predicate NoPair(s: Str) {
    forall i :: 0 < i < |s| ==> !(High(s[i - 1]) && Low(s[i]))
  }

  lemma {:induction false} JoinedShorter(s: Str)
    ensures |Joined(s)| <= |s|
    ensures Joined(s) == s <==> NoPair(s)
  {
    if s != [] {
      if |s| > 1 && High(s[0]) && Low(s[1]) {
        JoinedShorter(s[2..]);
        assert !NoPair(s) by { assert !(High(s[1 - 1]) && Low(s[1])) <==> false; }
      } else {
        JoinedShorter(s[1..]);
        assert s == [s[0]] + s[1..];
        NoPairTail(s);
      }
    }
  }

  lemma NoPairTail(s: Str)
    requires s != [] && !(|s| > 1 && High(s[0]) && Low(s[1]))
    ensures NoPair(s) <==> NoPair(s[1..])
  {
    if NoPair(s[1..]) {
      forall i | 0 < i < |s| ensures !(High(s[i - 1]) && Low(s[i])) {
        if i > 1 { assert s[1..][i - 1] == s[i] && s[1..][i - 2] == s[i - 1]; }
      }
    }
    if NoPair(s) {
      forall i | 0 < i < |s[1..]| ensures !(High(s[1..][i - 1]) && Low(s[1..][i])) {
        assert !(High(s[i + 1 - 1]) && Low(s[i + 1]));
      }
    }
  }

  lemma HexRoundTrip(n: int)
    requires 0 <= n < 16
    ensures HexValue(HexDigit(n)) == Some(n)
  {}

  lemma UnitOf(n: int, t: Str)
    requires 0 <= n < 0x1_0000
    ensures var s := UnitEscape(n) + t; Unit(s) == Some(n) && s[6..] == t && s[0] == BACKSLASH
  {
    HexRoundTrip(n / 0x1000);
    HexRoundTrip(n / 0x100 % 16);
    HexRoundTrip(n / 0x10 % 16);
    HexRoundTrip(n % 16);
    HexSum(n);
  }

  lemma HexSum(n: int)
    requires 0 <= n < 0x1_0000
    ensures n / 0x1000 * 0x1000 + n / 0x100 % 16 * 0x100 + n / 0x10 % 16 * 0x10 + n % 16 == n
  {
    var a, b := n / 0x10, n / 0x100;
    assert n == a * 0x10 + n % 16 && a == b * 0x10 + a % 16 && b == n / 0x1000 * 0x10 + b % 16;
  }

  lemma ReadShort(c: CodePoint, letter: CodePoint, t: Str)
    requires ShortEscape(c) == Some(letter)
    ensures ScanString([BACKSLASH, letter] + t) == Prepend(c, ScanString(t))
  {
    var s := [BACKSLASH, letter] + t;
    assert s[2..] == t && s[1] == letter && Unit(s) == None;
  }

  lemma ReadPlain(c: CodePoint, t: Str)
    requires Plain(c)
    ensures ScanString([c] + t) == Prepend(c, ScanString(t))
  {
    assert ([c] + t)[1..] == t;
  }

  lemma ReadUnit(c: CodePoint, t: Str)
    requires c < 0x1_0000
    ensures ScanString(UnitEscape(c) + t)
         == if High(c) && Unit(t).Some? && Low(Unit(t).value) then Prepend(Join(c, Unit(t).value), ScanString(t[6..]))
            else Prepend(c, ScanString(t))
  {
    UnitOf(c, t);
  }

  /** Reading one printed code point: it may join with a low surrogate printed right after it. */
  lemma ReadPoint(c: CodePoint, t: Str)
    ensures ScanString(EscapePoint(c, t))
         == if High(c) && Unit(t).Some? && Low(Unit(t).value) then Prepend(Join(c, Unit(t).value), ScanString(t[6..]))
            else Prepend(c, ScanString(t))
  {
    if Plain(c) {
      ReadPlain(c, t);
    } else if ShortEscape(c).Some? {
      ReadShort(c, ShortEscape(c).value, t);
    } else if c < 0x1_0000 {
      ReadUnit(c, t);
    } else {
      ReadAstral(c, t);
    }
  }

  lemma JoinHalves(c: CodePoint)
    requires c >= 0x1_0000
    ensures Join(HighHalf(c), LowHalf(c)) == c
  {}

  lemma ReadAstral(c: CodePoint, t: Str)
    requires c >= 0x1_0000
    ensures ScanString(UnitEscape(HighHalf(c)) + (UnitEscape(LowHalf(c)) + t)) == Prepend(c, ScanString(t))
  {
    JoinHalves(c);
    ReadPair(HighHalf(c), LowHalf(c), t);
  }

  lemma ReadPair(high: int, low: int, t: Str)
    requires High(high) && Low(low)
    ensures ScanString(UnitEscape(high) + (UnitEscape(low) + t)) == Prepend(Join(high, low), ScanString(t))
  {
    UnitOf(low, t);
    UnitOf(high, UnitEscape(low) + t);
  }

  /** The code unit a printed string starts with, when its first point is printed as `\uXXXX`. */
  lemma FirstUnit(s: Str, t: Str)
    ensures var u := Unit(Escaped(s, [QUOTE] + t));
      if s != [] && Low(s[0]) then u == Some(s[0]) else u == None || !Low(u.value)
  {
    if s != [] {
      var rest := Escaped(s[1..], [QUOTE] + t);
      if !Plain(s[0]) && ShortEscape(s[0]) == None {
        if s[0] < 0x1_0000 {
          UnitOf(s[0], rest);
        } else {
          UnitOf(HighHalf(s[0]), UnitEscape(LowHalf(s[0])) + rest);
        }
      }
    }
  }

  lemma ReadSingle(c: CodePoint, t: Str, s: Str, rest: Str)
    requires ScanString(t) == Read(s, rest)
    requires !(High(c) && Unit(t).Some? && Low(Unit(t).value))
    ensures ScanString(EscapePoint(c, t)) == Read([c] + s, rest)
  {
    ReadPoint(c, t);
  }

  /** Every printed string is read back as itself with its surrogate pairs joined. */
  lemma {:induction false} StringRoundTrip(s: Str, t: Str)
    ensures ScanString(Escaped(s, [QUOTE] + t)) == Read(Joined(s), t)
    decreases |s|
  {
    if s == [] {
      assert ([QUOTE] + t)[1..] == t;
    } else if |s| > 1 && High(s[0]) && Low(s[1]) {
      StringRoundTrip(s[2..], t);
      ReadPair(s[0], s[1], Escaped(s[2..], [QUOTE] + t));
      EscapedPair(s, [QUOTE] + t);
    } else {
      StringRoundTrip(s[1..], t);
      FirstUnit(s[1..], t);
      ReadSingle(s[0], Escaped(s[1..], [QUOTE] + t), Joined(s[1..]), t);
    }
  }

  lemma EscapedPair(s: Str, t: Str)
    requires |s| > 1 && High(s[0]) && Low(s[1])
    ensures Escaped(s, t) == UnitEscape(s[0]) + (UnitEscape(s[1]) + Escaped(s[2..], t))
  {
    assert s[1..][1..] == s[2..];
  }

  // ---- the escapes ----

  /** What follows `\u`: four digits of base 16 that make n. */
  ghost predicate HexFour(n: int, e: Str) {
    exists a: nat, b: nat, c: nat, d: nat ::
      a < 16 && b < 16 && c < 16 && d < 16 && a * 4096 + b * 256 + c * 16 + d == n
      && e == Lit("\\u") + [Hex(a), Hex(b), Hex(c), Hex(d)]
  }

  function Hex(n: nat): CodePoint
    requires n < 16
  {
    "0123456789abcdef"[n] as int
  }

  lemma UnitNotation(n: int)
    requires 0 <= n < 0x1_0000
    ensures HexFour(n, UnitEscape(n))
  {
    var a, b, c, d := n / 0x1000, n / 0x100 % 16, n / 0x10 % 16, n % 16;
    HexSum(n);
    HexLetter(a);
    HexLetter(b);
    HexLetter(c);
    HexLetter(d);
    UnitText(HexDigit(a), HexDigit(b), HexDigit(c), HexDigit(d));
  }

  lemma HexLetter(n: nat)
    requires n < 16
    ensures HexDigit(n) == Hex(n)
  {}

  lemma UnitText(a: CodePoint, b: CodePoint, c: CodePoint, d: CodePoint)
    ensures [BACKSLASH, LOWER_U, a, b, c, d] == Lit("\\u") + [a, b, c, d]
  {}

  lemma AddNothing(s: Str)
    ensures s + [] == s
  {}

  /** Printable ASCII stands for itself; other code points of the basic plane without a two-character
      escape are one `\u` escape (section 7 of RFC 8259). */
  lemma EscapeNotation(c: CodePoint)
    ensures 32 <= c <= 126 && c != '\"' as int && c != '\\' as int ==> EscapePoint(c, []) == [c]
    ensures (c < 32 && c !in {8, 9, 10, 12, 13}) || 127 <= c < 0x1_0000 ==> EscapePoint(c, []) == UnitEscape(c)
  {
    if c < 0x1_0000 { AddNothing(UnitEscape(c)); }
  }

  /** Beyond the basic plane the escapes of the two UTF-16 halves are printed. */
  lemma PairNotation(c: CodePoint) returns (high: int, low: int)
    requires 0x1_0000 <= c
    ensures 0xD800 <= high < 0xDC00 && 0xDC00 <= low < 0xE000
    ensures c == 65536 + (high - 0xD800) * 1024 + (low - 0xDC00)
    ensures EscapePoint(c, []) == UnitEscape(high) + UnitEscape(low)
  {
    high, low := HighHalf(c), LowHalf(c);
    AddNothing(UnitEscape(low));
  }

  lemma ShortNotation()
    ensures EscapePoint('\"' as int, []) == Lit("\\\"") && EscapePoint('\\' as int, []) == Lit("\\\\")
    ensures EscapePoint(8, []) == Lit("\\b") && EscapePoint(9, []) == Lit("\\t") && EscapePoint(10, []) == Lit("\\n")
    ensures EscapePoint(12, []) == Lit("\\f") && EscapePoint(13, []) == Lit("\\r")
  {
    AddNothing([BACKSLASH, QUOTE]);
    AddNothing([BACKSLASH, BACKSLASH]);
    AddNothing([BACKSLASH, 98]);
    AddNothing([BACKSLASH, 116]);
    AddNothing([BACKSLASH, 110]);
    AddNothing([BACKSLASH, 102]);
    AddNothing([BACKSLASH, 114]);
  }
}
