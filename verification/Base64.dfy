/** `base64.urlsafe_b64encode` and CPython's lenient `urlsafe_b64decode` (section 5 of RFC 4648). */
module Base64 {
  import opened Wrappers
  import opened Text

  type Sextet = v: int | 0 <= v < 64

  const PAD: Byte := 61

  function Letter(v: Sextet): Byte {
    if v < 26 then 65 + v
    else if v < 52 then 97 + (v - 26)
    else if v < 62 then 48 + (v - 52)
    else if v == 62 then 45
    else 95
  }

  /** The decoder reads '+' and '/' as it reads '-' and '_', and knows no other letters. */
  function ValueOf(c: Byte): Option<Sextet> {
    if 65 <= c <= 90 then Some(c - 65)
    else if 97 <= c <= 122 then Some(c - 97 + 26)
    else if 48 <= c <= 57 then Some(c - 48 + 52)
    else if c == 43 || c == 45 then Some(62)
    else if c == 47 || c == 95 then Some(63)
    else None
  }

  function Encode(b: Bytes): Bytes {
    if |b| == 0 then []
    else if |b| == 1 then [Letter(b[0] / 4), Letter(b[0] % 4 * 16), PAD, PAD]
    else if |b| == 2 then
      [Letter(b[0] / 4), Letter(b[0] % 4 * 16 + b[1] / 16), Letter(b[1] % 16 * 4), PAD]
    else
      [Letter(b[0] / 4), Letter(b[0] % 4 * 16 + b[1] / 16), Letter(b[1] % 16 * 4 + b[2] / 64), Letter(b[2] % 64)]
      + Encode(b[3..])
  }

  /** The decoder's loop: `quad` letters of the current group were read, `left` are their bits not yet
      written, `pads` pad characters came since the last letter. Other characters are skipped; enough
      padding ends the input early; a group cut short without it is an error. */
  function DecodeFrom(s: Bytes, quad: nat, left: nat, pads: nat): Option<Bytes>
    requires quad < 4 && left < 64 && (quad == 2 ==> left < 16) && (quad == 3 ==> left < 4)
  {
    if s == [] then if quad == 0 then Some([]) else None
    else if s[0] == PAD then
      if quad < 2 then DecodeFrom(s[1..], quad, left, pads)
      else if quad + pads + 1 >= 4 then Some([])
      else DecodeFrom(s[1..], quad, left, pads + 1)
    else
      match ValueOf(s[0])
      case None => DecodeFrom(s[1..], quad, left, pads)
      case Some(v) =>
        if quad == 0 then DecodeFrom(s[1..], 1, v, 0)
        else if quad == 1 then Emit(left * 4 + v / 16, DecodeFrom(s[1..], 2, v % 16, 0))
        else if quad == 2 then Emit(left * 16 + v / 4, DecodeFrom(s[1..], 3, v % 4, 0))
        else Emit(left % 4 * 64 + v, DecodeFrom(s[1..], 0, 0, 0))
  }

  function Emit(b: Byte, rest: Option<Bytes>): Option<Bytes> {
    if rest == None then None else Some([b] + rest.value)
  }

  function Decode(s: Bytes): Option<Bytes> {
    DecodeFrom(s, 0, 0, 0)
  }

  lemma {:induction false} EncodeIsAscii(b: Bytes)
    ensures Ascii(Encode(b))
    ensures b != [] ==> Encode(b) != []
  {
    if |b| >= 3 { EncodeIsAscii(b[3..]); }
  }

  /** The bits of three bytes, cut into four sextets, make the bytes again. */
  lemma ThreeBytes(x: Byte, y: Byte, z: Byte)
    ensures var v1, v2 := x % 4 * 16 + y / 16, y % 16 * 4 + z / 64;
      v1 < 64 && v2 < 64 && x / 4 * 4 + v1 / 16 == x && v1 % 16 * 16 + v2 / 4 == y && v2 % 4 * 64 + z % 64 == z
  {
    TwoBytes(x, y);
    var v2 := y % 16 * 4 + z / 64;
    assert v2 / 4 == y % 16 && v2 % 4 == z / 64;
  }

  lemma TwoBytes(x: Byte, y: Byte)
    ensures var v1 := x % 4 * 16 + y / 16;
      v1 < 64 && x / 4 * 4 + v1 / 16 == x && v1 % 16 == y / 16 && y / 16 * 16 + y % 16 * 4 / 4 == y
  {
    var v1 := x % 4 * 16 + y / 16;
    assert v1 / 16 == x % 4 && v1 % 16 == y / 16;
  }

  /** Decoding what was encoded gives the bytes back. */
  lemma {:induction false} RoundTrip(b: Bytes)
    ensures Decode(Encode(b)) == Some(b)
  {
    if |b| >= 3 {
      RoundTrip(b[3..]);
      ThreeBytes(b[0], b[1], b[2]);
      Group(b[0] / 4, b[0] % 4 * 16 + b[1] / 16, b[1] % 16 * 4 + b[2] / 64, b[2] % 64, Encode(b[3..]));
      assert [b[0], b[1], b[2]] + b[3..] == b;
    } else if |b| == 2 {
      TwoBytes(b[0], b[1]);
      TailTwo(b[0] / 4, b[0] % 4 * 16 + b[1] / 16, b[1] % 16 * 4);
      assert [b[0], b[1]] == b;
    } else if |b| == 1 {
      TailOne(b[0] / 4, b[0] % 4 * 16);
      assert [b[0]] == b;
    }
  }

  lemma LetterValue(v: Sextet)
    ensures ValueOf(Letter(v)) == Some(v) && Letter(v) != PAD
  {}

  /** One letter read at each place of a group. */
  lemma ReadLetter(v: Sextet, rest: Bytes, quad: nat, left: nat, pads: nat)
    requires quad < 4 && left < 64 && (quad == 2 ==> left < 16) && (quad == 3 ==> left < 4)
    ensures DecodeFrom([Letter(v)] + rest, quad, left, pads) ==
      if quad == 0 then DecodeFrom(rest, 1, v, 0)
      else if quad == 1 then Emit(left * 4 + v / 16, DecodeFrom(rest, 2, v % 16, 0))
      else if quad == 2 then Emit(left * 16 + v / 4, DecodeFrom(rest, 3, v % 4, 0))
      else Emit(left * 64 + v, DecodeFrom(rest, 0, 0, 0))
  {
    LetterValue(v);
    assert ([Letter(v)] + rest)[1..] == rest;
  }

  lemma Group(v0: Sextet, v1: Sextet, v2: Sextet, v3: Sextet, rest: Bytes)
    requires Decode(rest).Some?
    ensures Decode([Letter(v0), Letter(v1), Letter(v2), Letter(v3)] + rest)
         == Some([v0 * 4 + v1 / 16, v1 % 16 * 16 + v2 / 4, v2 % 4 * 64 + v3] + Decode(rest).value)
  {
    var s3 := [Letter(v3)] + rest;
    var s2 := [Letter(v2)] + s3;
    var s1 := [Letter(v1)] + s2;
    assert [Letter(v0), Letter(v1), Letter(v2), Letter(v3)] + rest == [Letter(v0)] + s1;
    ReadLetter(v0, s1, 0, 0, 0);
    ReadLetter(v1, s2, 1, v0, 0);
    ReadLetter(v2, s3, 2, v1 % 16, 0);
    ReadLetter(v3, rest, 3, v2 % 4, 0);
    var x, y, z, r := v0 * 4 + v1 / 16, v1 % 16 * 16 + v2 / 4, v2 % 4 * 64 + v3, Decode(rest).value;
    assert [x] + ([y] + ([z] + r)) == [x, y, z] + r;
  }

  lemma TailTwo(v0: Sextet, v1: Sextet, v2: Sextet)
    ensures Decode([Letter(v0), Letter(v1), Letter(v2), PAD])
         == Some([v0 * 4 + v1 / 16, v1 % 16 * 16 + v2 / 4])
  {
    var s2: Bytes := [Letter(v2)] + [PAD];
    var s1 := [Letter(v1)] + s2;
    assert [Letter(v0), Letter(v1), Letter(v2), PAD] == [Letter(v0)] + s1;
    ReadLetter(v0, s1, 0, 0, 0);
    ReadLetter(v1, s2, 1, v0, 0);
    ReadLetter(v2, [PAD], 2, v1 % 16, 0);
    var x, y, z := v0 * 4 + v1 / 16, v1 % 16 * 16 + v2 / 4, v2 % 4;
    StopAtPad([PAD], 3, z, 0);
    assert [y] + [] == [y] && [x] + [y] == [x, y];
  }

  /** Padding after enough letters ends the input. */
  lemma StopAtPad(s: Bytes, quad: nat, left: nat, pads: nat)
    requires 2 <= quad < 4 && (quad == 2 ==> left < 16) && (quad == 3 ==> left < 4)
    requires s != [] && s[0] == PAD && quad + pads >= 3
    ensures DecodeFrom(s, quad, left, pads) == Some([])
  {}

  lemma TailOne(v0: Sextet, v1: Sextet)
    ensures Decode([Letter(v0), Letter(v1), PAD, PAD]) == Some([v0 * 4 + v1 / 16])
  {
    var s1: Bytes := [Letter(v1)] + [PAD, PAD];
    assert [Letter(v0), Letter(v1), PAD, PAD] == [Letter(v0)] + s1;
    ReadLetter(v0, s1, 0, 0, 0);
    ReadLetter(v1, [PAD, PAD], 1, v0, 0);
    assert [PAD, PAD][1..] == [PAD];
    var x, y := v0 * 4 + v1 / 16, v1 % 16;
    StopAtPad([PAD], 2, y, 1);
    assert DecodeFrom([PAD, PAD], 2, y, 0) == Some([]);
    assert [x] + [] == [x];
  }

  // ---- the text itself ----

  /** The alphabet of section 5 of RFC 4648, in order; '+' and '/' are read as '-' and '_' are. */
  lemma AlphabetMeaning(v: Sextet, c: Byte)
    ensures v < 26 ==> Letter(v) == 'A' as int + v
    ensures 26 <= v < 52 ==> Letter(v) == 'a' as int + (v - 26)
    ensures 52 <= v < 62 ==> Letter(v) == '0' as int + (v - 52)
    ensures Letter(62) == '-' as int && Letter(63) == '_' as int
    ensures ValueOf(c) == Some(v)
      <==> c == Letter(v) || (c == '+' as int && v == 62) || (c == '/' as int && v == 63)
  {}

  /** Three bytes are four letters: one number, in base 256 and in base 64. */
  lemma FullGroup(x: Byte, y: Byte, z: Byte) returns (p: Sextet, q: Sextet, r: Sextet, s: Sextet)
    ensures Encode([x, y, z]) == [Letter(p), Letter(q), Letter(r), Letter(s)]
    ensures p as int * 262144 + q as int * 4096 + r as int * 64 + s == x as int * 65536 + y as int * 256 + z
  {
    ThreeBytes(x, y, z);
    p, q, r, s := x / 4, x % 4 * 16 + y / 16, y % 16 * 4 + z / 64, z % 64;
    assert Encode([x, y, z][3..]) == [];
  }

  /** Two last bytes are followed by two zero bits and one pad. */
  lemma GroupOfTwo(x: Byte, y: Byte) returns (p: Sextet, q: Sextet, r: Sextet)
    ensures Encode([x, y]) == [Letter(p), Letter(q), Letter(r), '=' as int]
    ensures p as int * 4096 + q as int * 64 + r == (x as int * 256 + y) * 4
  {
    TwoBytes(x, y);
    p, q, r := x / 4, x % 4 * 16 + y / 16, y % 16 * 4;
  }

  /** One last byte is followed by four zero bits and two pads. */
  lemma GroupOfOne(x: Byte) returns (p: Sextet, q: Sextet)
    ensures Encode([x]) == [Letter(p), Letter(q), '=' as int, '=' as int]
    ensures p as int * 64 + q == x as int * 16
  {
    p, q := x / 4, x % 4 * 16;
  }

  /** Longer input is encoded group by group. */
  lemma GroupsFollow(x: Byte, y: Byte, z: Byte, rest: Bytes)
    ensures Encode([x, y, z] + rest) == Encode([x, y, z]) + Encode(rest)
  {
    assert ([x, y, z] + rest)[3..] == rest;
    assert [x, y, z][3..] == [];
    assert Encode([]) == [];
  }
}
