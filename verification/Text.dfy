/** Python text and bytes. A `str` is a sequence of code points, lone surrogates included. */
module Text {
  import opened Wrappers

  type CodePoint = c: int | 0 <= c < 0x11_0000
  type Byte = b: int | 0 <= b < 256
  type Str = seq<CodePoint>
  type Bytes = seq<Byte>

  /** A literal as Python text. */
  function Lit(s: string): (t: Str)
    ensures |t| == |s| && forall i :: 0 <= i < |s| ==> t[i] == s[i] as int
  {
    seq(|s|, i requires 0 <= i < |s| => s[i] as int)
  }

  predicate Surrogate(c: int) {
    0xD800 <= c < 0xE000
  }

  ghost predicate Ascii(s: seq<int>) {
    forall i :: 0 <= i < |s| ==> 0 <= s[i] < 128
  }

  /** `s.encode()`: UTF-8, which has no form for a surrogate. */
  function Utf8Encode(s: Str): Option<Bytes> {
    if s == [] then Some([])
    else
      var rest := Utf8Encode(s[1..]);
      if Surrogate(s[0]) || rest == None then None else Some(EncodePoint(s[0]) + rest.value)
  }

  function EncodePoint(c: CodePoint): Bytes {
    if c < 0x80 then [c]
    else if c < 0x800 then [0xC0 + c / 0x40, 0x80 + c % 0x40]
    else if c < 0x1_0000 then [0xE0 + c / 0x1000, 0x80 + c / 0x40 % 0x40, 0x80 + c % 0x40]
    else [0xF0 + c / 0x4_0000, 0x80 + c / 0x1000 % 0x40, 0x80 + c / 0x40 % 0x40, 0x80 + c % 0x40]
  }

  predicate Continuation(b: Byte) {
    0x80 <= b < 0xC0
  }

  /** `b.decode()`: strict UTF-8, section 3 of RFC 3629. */
  function Utf8Decode(b: Bytes): Option<Str> {
    if b == [] then Some([])
    else if b[0] < 0x80 then Then(b[0], Utf8Decode(b[1..]))
    else if 0xC2 <= b[0] < 0xE0 && |b| >= 2 && Continuation(b[1]) then
      Then((b[0] - 0xC0) as int * 0x40 + (b[1] - 0x80), Utf8Decode(b[2..]))
    else if 0xE0 <= b[0] < 0xF0 && |b| >= 3 && Continuation(b[1]) && Continuation(b[2]) then
      var c := (b[0] - 0xE0) as int * 0x1000 + (b[1] - 0x80) as int * 0x40 + (b[2] - 0x80);
      if c < 0x800 || Surrogate(c) then None else Then(c, Utf8Decode(b[3..]))
    else if 0xF0 <= b[0] < 0xF5 && |b| >= 4 && Continuation(b[1]) && Continuation(b[2]) && Continuation(b[3]) then
      var c := (b[0] - 0xF0) as int * 0x4_0000 + (b[1] - 0x80) as int * 0x1000 + (b[2] - 0x80) as int * 0x40
          + (b[3] - 0x80);
      if c < 0x1_0000 || c >= 0x11_0000 then None else Then(c, Utf8Decode(b[4..]))
    else None
  }

  function Then(c: CodePoint, rest: Option<Str>): Option<Str> {
    if rest == None then None else Some([c] + rest.value)
  }

  /** ASCII text and its bytes are the same numbers. */
  lemma {:induction false} AsciiBytes(s: Bytes)
    requires Ascii(s)
    ensures Utf8Encode(s) == Some(s)
    ensures Utf8Decode(s) == Some(s)
  {
    if s != [] {
      AsciiBytes(s[1..]);
      assert [s[0]] + s[1..] == s;
    }
  }

  lemma EncodedPoint(c: CodePoint, b: Bytes)
    requires !Surrogate(c)
    ensures Utf8Decode(EncodePoint(c) + b) == Then(c, Utf8Decode(b))
  {
    var e := EncodePoint(c);
    assert (e + b)[|e|..] == b;
    if c < 0x80 {
    } else if c < 0x800 {
      TwoBytes(c, b);
    } else if c < 0x1_0000 {
      ThreeBytes(c, b);
    } else {
      FourBytes(c, b);
    }
  }

  lemma TwoBytes(c: CodePoint, b: Bytes)
    requires 0x80 <= c < 0x800
    ensures Utf8Decode(EncodePoint(c) + b) == Then(c, Utf8Decode(b))
  {
    var d := EncodePoint(c) + b;
    assert d[2..] == b;
    assert (d[0] - 0xC0) as int * 0x40 + (d[1] - 0x80) == c;
  }

  lemma ThreeBytes(c: CodePoint, b: Bytes)
    requires 0x800 <= c < 0x1_0000 && !Surrogate(c)
    ensures Utf8Decode(EncodePoint(c) + b) == Then(c, Utf8Decode(b))
  {
    var d := EncodePoint(c) + b;
    assert d[3..] == b;
    assert (d[0] - 0xE0) as int * 0x1000 + (d[1] - 0x80) as int * 0x40 + (d[2] - 0x80) == c;
  }

  lemma FourBytes(c: CodePoint, b: Bytes)
    requires 0x1_0000 <= c
    ensures Utf8Decode(EncodePoint(c) + b) == Then(c, Utf8Decode(b))
  {
    var w, x, y, z := c / 0x4_0000, c / 0x1000 % 0x40, c / 0x40 % 0x40, c % 0x40;
    SixBitGroups(c, w, x, y, z);
    ReadFourBytes(w, x, y, z, b);
  }

  lemma SixBitGroups(c: CodePoint, w: nat, x: nat, y: nat, z: nat)
    requires w == c / 0x4_0000 && x == c / 0x1000 % 0x40 && y == c / 0x40 % 0x40 && z == c % 0x40
    ensures w * 0x4_0000 + x * 0x1000 + y * 0x40 + z == c
    ensures w < 5 && x < 0x40 && y < 0x40 && z < 0x40
  {
    var c1, c2 := c / 0x40, c / 0x1000;
    assert c == c1 * 0x40 + z && c1 == c2 * 0x40 + y && c2 == w * 0x40 + x;
  }

  lemma ReadFourBytes(w: nat, x: nat, y: nat, z: nat, b: Bytes)
    requires w < 5 && x < 0x40 && y < 0x40 && z < 0x40
    requires 0x1_0000 <= w * 0x4_0000 + x * 0x1000 + y * 0x40 + z < 0x11_0000
    ensures Utf8Decode([0xF0 + w, 0x80 + x, 0x80 + y, 0x80 + z] + b)
         == Then(w * 0x4_0000 + x * 0x1000 + y * 0x40 + z, Utf8Decode(b))
  {
    var d: Bytes := [0xF0 + w, 0x80 + x, 0x80 + y, 0x80 + z] + b;
    assert d[4..] == b;
    DecodeFour(d, w * 0x4_0000 + x * 0x1000 + y * 0x40 + z);
  }

  lemma DecodeFour(d: Bytes, c: nat)
    requires |d| >= 4 && 0xF0 <= d[0] < 0xF5 && Continuation(d[1]) && Continuation(d[2]) && Continuation(d[3])
    requires c == (d[0] - 0xF0) as int * 0x4_0000 + (d[1] - 0x80) as int * 0x1000 + (d[2] - 0x80) as int * 0x40
                  + (d[3] - 0x80)
    requires 0x1_0000 <= c < 0x11_0000
    ensures Utf8Decode(d) == Then(c, Utf8Decode(d[4..]))
  {}

  /** The bytes of a code point, as the table in section 3 of RFC 3629 lays them out: a leading byte that
      tells the length, then six bits a byte. */
  lemma EncodedPointLayout(c: CodePoint)
    ensures var e := EncodePoint(c);
      && (c <= 0x7F ==> e == [c])
      && (0x80 <= c <= 0x7FF ==>
            |e| == 2 && 0xC0 <= e[0] < 0xE0 && Continuation(e[1]) && c == (e[0] - 0xC0) as int * 64 + (e[1] - 0x80))
      && (0x800 <= c <= 0xFFFF ==>
            |e| == 3 && 0xE0 <= e[0] < 0xF0 && Continuation(e[1]) && Continuation(e[2])
            && c == (e[0] - 0xE0) as int * 4096 + (e[1] - 0x80) as int * 64 + (e[2] - 0x80))
      && (0x1_0000 <= c ==>
            |e| == 4 && 0xF0 <= e[0] < 0xF8 && Continuation(e[1]) && Continuation(e[2]) && Continuation(e[3])
            && c == (e[0] - 0xF0) as int * 262144 + (e[1] - 0x80) as int * 4096 + (e[2] - 0x80) as int * 64
                 + (e[3] - 0x80))
  {
    var w, x, y, z := c / 0x4_0000, c / 0x1000 % 0x40, c / 0x40 % 0x40, c % 0x40;
    SixBitGroups(c, w, x, y, z);
  }

  /** Text has a UTF-8 form exactly when it holds no surrogate, and strict decoding undoes it. */
  lemma {:induction false} Utf8RoundTrip(s: Str)
    ensures Utf8Encode(s).Some? <==> forall i :: 0 <= i < |s| ==> !Surrogate(s[i])
    ensures Utf8Encode(s).Some? ==> Utf8Decode(Utf8Encode(s).value) == Some(s)
  {
    if s != [] {
      Utf8RoundTrip(s[1..]);
      assert s == [s[0]] + s[1..];
      if Utf8Encode(s).Some? {
        EncodedPoint(s[0], Utf8Encode(s[1..]).value);
      } else if Utf8Encode(s[1..]) == None {
        var i :| 0 <= i < |s[1..]| && Surrogate(s[1..][i]);
        assert Surrogate(s[i + 1]);
      }
    }
  }

  /** Python's order on `str`: by code points, a prefix first. */
  predicate Le(a: Str, b: Str) {
    a == [] || (b != [] && (a[0] < b[0] || (a[0] == b[0] && Le(a[1..], b[1..]))))
  }

  /** a is a prefix of b, or is smaller where they first differ. */
  ghost predicate Lexicographic(a: Str, b: Str) {
    a <= b || exists k :: 0 <= k < |a| && k < |b| && a[..k] == b[..k] && a[k] < b[k]
  }

  /** The order compares text from the front. */
  lemma {:induction false} LeMeaning(a: Str, b: Str)
    ensures Le(a, b) <==> Lexicographic(a, b)
  {
    if a != [] && b != [] {
      LeMeaning(a[1..], b[1..]);
      FirstPoints(a, b);
    }
  }

  /** Two texts compare by their first points, and by the rest when those are equal. */
  lemma FirstPoints(a: Str, b: Str)
    requires a != [] && b != []
    ensures Lexicographic(a, b) <==> a[0] < b[0] || (a[0] == b[0] && Lexicographic(a[1..], b[1..]))
  {
    if a[0] < b[0] {
      assert a[..0] == b[..0];
    } else if a[0] == b[0] {
      SameFirstPoint(a, b);
    } else {
      forall k | 0 <= k <= |a| && k <= |b| ensures k > 0 && a[..k] == b[..k] ==> a[0] == b[0] {
        PrefixesAgree(a, b, k);
      }
    }
  }

  lemma PrefixesAgree(a: Str, b: Str, k: nat)
    requires k <= |a| && k <= |b|
    ensures k > 0 && a[..k] == b[..k] ==> a[0] == b[0]
  {
    if k > 0 { assert a[..k][0] == a[0] && b[..k][0] == b[0]; }
  }

  lemma SameFirstPoint(a: Str, b: Str)
    requires a != [] && b != [] && a[0] == b[0]
    ensures Lexicographic(a, b) <==> Lexicographic(a[1..], b[1..])
  {
    var s, t := a[1..], b[1..];
    assert a == [a[0]] + s && b == [a[0]] + t;
    if k :| 0 <= k < |a| && k < |b| && a[..k] == b[..k] && a[k] < b[k] {
      assert s[..k - 1] == a[..k][1..] && t[..k - 1] == b[..k][1..];
      assert s[k - 1] < t[k - 1];
    }
    if k :| 0 <= k < |s| && k < |t| && s[..k] == t[..k] && s[k] < t[k] {
      assert a[..k + 1] == [a[0]] + s[..k] && b[..k + 1] == [a[0]] + t[..k];
      assert a[k + 1] < b[k + 1];
    }
  }

  lemma {:induction false} LeTotal(a: Str, b: Str)
    ensures Le(a, b) || Le(b, a)
  {
    if a != [] && b != [] { LeTotal(a[1..], b[1..]); }
  }

  lemma {:induction false} LeTransitive(a: Str, b: Str, c: Str)
    requires Le(a, b) && Le(b, c)
    ensures Le(a, c)
  {
    if a != [] && a[0] == b[0] && b[0] == c[0] { LeTransitive(a[1..], b[1..], c[1..]); }
  }

  lemma {:induction false} LeAntisymmetric(a: Str, b: Str)
    requires Le(a, b) && Le(b, a)
    ensures a == b
  {
    if a != [] {
      LeAntisymmetric(a[1..], b[1..]);
      assert a == [a[0]] + a[1..] && b == [b[0]] + b[1..];
    }
  }
}
