/** The opaque item cursor: DynamoDB's last evaluated key as JSON in base64url. */
module ItemCursor {
  import opened Wrappers
  import opened Errors
  import opened Text
  import opened Dict
  import opened Json
  import Base64
  import Pagination

  /** A key attribute's type: text, or a number given as text. Binary keys have no JSON form. */
  datatype KeyType = S | N

  datatype KeyPart = KeyPart(name: Str, keyType: KeyType, value: Str)

  /** The dictionary name -> {type: value} in insertion order. */
  type Key = seq<KeyPart>

  ghost predicate DistinctNames(key: Key) {
    forall i, j :: 0 <= i < j < |key| ==> key[i].name != key[j].name
  }

  function TypeText(t: KeyType): Str {
    if t.S? then [83] else [78]
  }

  // ---- `_encode_item_cursor` ----

  /** What `dumps` prints after the name of a part, up to and including `tail`. */
  function PartText(part: KeyPart, tail: Str): Str {
    [LBRACE] + ([QUOTE] + Escaped(TypeText(part.keyType), [QUOTE] + ([COLON] + ([SPACE] + ([QUOTE]
    + Escaped(part.value, [QUOTE] + ([RBRACE] + tail)))))))
  }

  /** What `dumps` prints after the quote opening the first name. */
  function PartsText(key: Key): Str
    requires key != []
  {
    Escaped(key[0].name, [QUOTE] + ([COLON] + ([SPACE] + PartText(key[0], AfterPart(key)))))
  }

  function AfterPart(key: Key): Str
    requires key != []
    decreases key, 0
  {
    if |key| == 1 then [RBRACE] else [COMMA] + ([SPACE] + ([QUOTE] + PartsText(key[1..])))
  }

  /** The whole key as one printed JSON object. */
  function KeyText(key: Key): Str {
    if key == [] then [LBRACE, RBRACE] else [LBRACE] + ([QUOTE] + PartsText(key))
  }

  /** None where `.encode()` raises. */
  function EncodeItemCursor(key: Key): Option<Str> {
    match Utf8Encode(KeyText(key))
    case None => None
    case Some(bytes) => Some(Base64.Encode(bytes))
  }

  // ---- `_decode_item_cursor` ----

  /** None is "from the start": no cursor, or one that holds JSON's null. */
  function DecodeItemCursor(cursor: Option<Str>): Result<Option<Json>, AppError> {
    if cursor == None || cursor.value == [] then Ok(None)
    else
      match Pagination.CursorText(cursor.value)
      case None => Err(Pagination.InvalidCursor)
      case Some(text) =>
        match Loads(text)
        case None => Err(Pagination.InvalidCursor)
        case Some(v) => Ok(if v == Null then None else Some(v))
  }

  // ---- the round trip ----

  function PartJson(part: KeyPart): Json {
    Object([Entry(TypeText(part.keyType), String(part.value))])
  }

  /** The members of the key's JSON object. */
  function Members(key: Key): (m: seq<Entry<Str, Json>>)
    ensures |m| == |key|
    ensures forall i :: 0 <= i < |key| ==> m[i] == Entry(key[i].name, PartJson(key[i]))
  {
    seq(|key|, i requires 0 <= i < |key| => Entry(key[i].name, PartJson(key[i])))
  }

  /** The key with the surrogate pairs in its names and values joined. */
  function JoinedKey(key: Key): (k: Key)
    ensures |k| == |key|
    ensures forall i :: 0 <= i < |key| ==> k[i] == KeyPart(Joined(key[i].name), key[i].keyType, Joined(key[i].value))
  {
    seq(|key|, i requires 0 <= i < |key| => KeyPart(Joined(key[i].name), key[i].keyType, Joined(key[i].value)))
  }

  lemma ConsIsAscii(c: CodePoint, t: Str)
    requires c < 128 && Ascii(t)
    ensures Ascii([c] + t)
  {}

  lemma PartTextIsAscii(part: KeyPart, tail: Str)
    requires Ascii(tail)
    ensures Ascii(PartText(part, tail))
  {
    var a := [QUOTE] + ([RBRACE] + tail);
    ConsIsAscii(RBRACE, tail);
    ConsIsAscii(QUOTE, [RBRACE] + tail);
    EscapedIsAscii(part.value, a);
    var b := Escaped(part.value, a);
    ConsIsAscii(QUOTE, b);
    ConsIsAscii(SPACE, [QUOTE] + b);
    ConsIsAscii(COLON, [SPACE] + ([QUOTE] + b));
    ConsIsAscii(QUOTE, [COLON] + ([SPACE] + ([QUOTE] + b)));
    var c := [QUOTE] + ([COLON] + ([SPACE] + ([QUOTE] + b)));
    EscapedIsAscii(TypeText(part.keyType), c);
    ConsIsAscii(QUOTE, Escaped(TypeText(part.keyType), c));
    ConsIsAscii(LBRACE, [QUOTE] + Escaped(TypeText(part.keyType), c));
  }

  lemma {:induction false} PartsTextIsAscii(key: Key)
    requires key != []
    ensures Ascii(PartsText(key))
  {
    var tail := AfterPart(key);
    if |key| > 1 {
      PartsTextIsAscii(key[1..]);
      ConsIsAscii(QUOTE, PartsText(key[1..]));
      ConsIsAscii(SPACE, [QUOTE] + PartsText(key[1..]));
      ConsIsAscii(COMMA, [SPACE] + ([QUOTE] + PartsText(key[1..])));
    }
    PartTextIsAscii(key[0], tail);
    var t := PartText(key[0], tail);
    ConsIsAscii(SPACE, t);
    ConsIsAscii(COLON, [SPACE] + t);
    ConsIsAscii(QUOTE, [COLON] + ([SPACE] + t));
    EscapedIsAscii(key[0].name, [QUOTE] + ([COLON] + ([SPACE] + t)));
  }

  lemma KeyTextIsAscii(key: Key)
    ensures Ascii(KeyText(key)) && KeyText(key) != []
  {
    if key != [] {
      PartsTextIsAscii(key);
      ConsIsAscii(QUOTE, PartsText(key));
      ConsIsAscii(LBRACE, [QUOTE] + PartsText(key));
    }
  }

  lemma Cons(c: CodePoint, t: Str)
    ensures ([c] + t)[0] == c && ([c] + t)[1..] == t && [c] + t != []
  {}

  lemma SkipSpace(t: Str)
    requires t != [] && !Blank(t[0])
    ensures Skip([SPACE] + t) == t && Skip(t) == t
  {
    Cons(SPACE, t);
  }

  lemma ColonThen(text: Str)
    requires text != [] && !Blank(text[0])
    ensures AfterColon([COLON] + ([SPACE] + text)) == Some(text)
  {
    Cons(COLON, [SPACE] + text);
    SkipSpace(text);
  }

  lemma BraceEnds(rest: Str)
    ensures AfterMember([RBRACE] + rest) == End(rest)
  {
    Cons(RBRACE, rest);
  }

  lemma CommaContinues(next: Str)
    ensures AfterMember([COMMA] + ([SPACE] + ([QUOTE] + next))) == More(next)
  {
    Cons(COMMA, [SPACE] + ([QUOTE] + next));
    Cons(QUOTE, next);
    SkipSpace([QUOTE] + next);
  }

  /** A member is read from its key, its value and what follows it. */
  lemma MemberReads(s: Str, key: Str, afterKey: Str, text: Str, value: Json, afterValue: Str)
    requires ScanString(s) == Read(key, afterKey)
    requires AfterColon(afterKey) == Some(text)
    requires ParseValue(text) == Read(value, afterValue)
    ensures AfterMember(afterValue).End?
      ==> ParseMembers(s) == Read([Entry(key, value)], AfterMember(afterValue).rest)
    ensures AfterMember(afterValue).More? && ParseMembers(AfterMember(afterValue).next).Read?
      ==> var r := ParseMembers(AfterMember(afterValue).next);
          ParseMembers(s) == Read([Entry(key, value)] + r.value, r.rest)
  {}

  lemma StringValue(s: Str, tail: Str)
    ensures ParseValue([QUOTE] + Escaped(s, [QUOTE] + tail)) == Read(String(Joined(s)), tail)
  {
    StringRoundTrip(s, tail);
    Cons(QUOTE, Escaped(s, [QUOTE] + tail));
  }

  lemma PartReads(part: KeyPart, tail: Str)
    ensures ParseValue(PartText(part, tail))
         == Read(Object([Entry(TypeText(part.keyType), String(Joined(part.value)))]), tail)
  {
    var value := [QUOTE] + Escaped(part.value, [QUOTE] + ([RBRACE] + tail));
    var member := Escaped(TypeText(part.keyType), [QUOTE] + ([COLON] + ([SPACE] + value)));
    StringValue(part.value, [RBRACE] + tail);
    StringRoundTrip(TypeText(part.keyType), [COLON] + ([SPACE] + value));
    assert Joined(TypeText(part.keyType)) == TypeText(part.keyType);
    ColonThen(value);
    BraceEnds(tail);
    MemberReads(member, TypeText(part.keyType), [COLON] + ([SPACE] + value), value, String(Joined(part.value)),
        [RBRACE] + tail);
    ObjectReads(member, [Entry(TypeText(part.keyType), String(Joined(part.value)))], tail);
    OnePair(TypeText(part.keyType), String(Joined(part.value)));
  }

  lemma ObjectReads(member: Str, pairs: seq<Entry<Str, Json>>, rest: Str)
    requires ParseMembers(member) == Read(pairs, rest)
    ensures ParseValue([LBRACE] + ([QUOTE] + member)) == Read(Object(FromPairs(pairs)), rest)
  {
    Cons(LBRACE, [QUOTE] + member);
    Cons(QUOTE, member);
  }

  lemma OnePair(k: Str, v: Json)
    ensures FromPairs([Entry(k, v)]) == [Entry(k, v)]
  {
    assert [Entry(k, v)][..0] == [];
  }

  function JoinedMember(part: KeyPart): Entry<Str, Json> {
    Entry(Joined(part.name), Object([Entry(TypeText(part.keyType), String(Joined(part.value)))]))
  }

  lemma MembersCons(key: Key)
    requires key != []
    ensures Members(JoinedKey(key)) == [JoinedMember(key[0])] + Members(JoinedKey(key[1..]))
  {}

  lemma FirstPartReads(key: Key)
    requires key != []
    ensures var m, s, after := JoinedMember(key[0]), PartsText(key), AfterMember(AfterPart(key));
      && (after.End? ==> ParseMembers(s) == Read([m], after.rest))
      && (after.More? && ParseMembers(after.next).Read?
          ==> ParseMembers(s) == Read([m] + ParseMembers(after.next).value, ParseMembers(after.next).rest))
  {
    var text := PartText(key[0], AfterPart(key));
    PartReads(key[0], AfterPart(key));
    StringRoundTrip(key[0].name, [COLON] + ([SPACE] + text));
    ColonThen(text);
    MemberReads(PartsText(key), Joined(key[0].name), [COLON] + ([SPACE] + text), text, JoinedMember(key[0]).value,
        AfterPart(key));
  }

  lemma {:induction false} PartsRead(key: Key)
    requires key != []
    ensures ParseMembers(PartsText(key)) == Read(Members(JoinedKey(key)), [])
  {
    FirstPartReads(key);
    MembersCons(key);
    if |key| == 1 {
      BraceEnds([]);
      assert [RBRACE] + [] == [RBRACE] && Members(JoinedKey(key)) == [JoinedMember(key[0])];
    } else {
      PartsRead(key[1..]);
      CommaContinues(PartsText(key[1..]));
    }
  }

  lemma LoadsObject(text: Str, v: Json)
    requires text != [] && !Blank(text[0]) && ParseValue(text) == Read(v, [])
    ensures Loads(text) == Some(v)
  {}

  lemma KeyTextLoads(key: Key)
    requires key != []
    ensures Loads(KeyText(key)) == Some(Object(FromPairs(Members(JoinedKey(key)))))
  {
    PartsRead(key);
    ObjectReads(PartsText(key), Members(JoinedKey(key)), []);
    LoadsObject(KeyText(key), Object(FromPairs(Members(JoinedKey(key)))));
  }

  lemma DecodeOf(cursor: Str, text: Str, v: Json)
    requires cursor != [] && Pagination.CursorText(cursor) == Some(text) && Loads(text) == Some(v) && v != Null
    ensures DecodeItemCursor(Some(cursor)) == Ok(Some(v))
  {}

  /** What decoding an encoded key gives, for every key. */
  lemma DecodeOfEncode(key: Key)
    requires key != []
    ensures EncodeItemCursor(key).Some? && EncodeItemCursor(key).value != []
    ensures DecodeItemCursor(EncodeItemCursor(key)) == Ok(Some(Object(FromPairs(Members(JoinedKey(key))))))
  {
    KeyTextIsAscii(key);
    var text: Bytes := KeyText(key);
    AsciiBytes(text);
    Pagination.CursorTextRoundTrip(text);
    KeyTextLoads(key);
    DecodeOf(Base64.Encode(text), text, Object(FromPairs(Members(JoinedKey(key)))));
  }

  /** No name and no value has a high surrogate directly before a low one. */
  ghost predicate NoPairs(key: Key) {
    forall i :: 0 <= i < |key| ==> NoPair(key[i].name) && NoPair(key[i].value)
  }

  /** A key comes back from its cursor exactly when no name and no value holds a high surrogate directly
      before a low one; DynamoDB's UTF-8 text holds no surrogate at all. */
  lemma ItemCursorRoundTrip(key: Key)
    requires key != [] && DistinctNames(key)
    ensures EncodeItemCursor(key).Some? && EncodeItemCursor(key).value != []
    ensures DecodeItemCursor(EncodeItemCursor(key)) == Ok(Some(Object(Members(key)))) <==> NoPairs(key)
  {
    DecodeOfEncode(key);
    var joined := Members(JoinedKey(key));
    FromPairsKeeps(joined);
    forall i | 0 <= i < |key|
      ensures joined[i] == Members(key)[i] <==> NoPair(key[i].name) && NoPair(key[i].value)
    {
      JoinedShorter(key[i].name);
      JoinedShorter(key[i].value);
    }
    if FromPairs(joined) == Members(key) {
      assert joined == Members(key);
    }
    if NoPairs(key) {
      assert joined == Members(key) && Distinct(joined);
    }
  }

  /** The same in literal JSON: each part comes back under its name as {"S": value} or {"N": value}, as its
      type says. */
  lemma TaggedRoundTrip(key: Key)
    requires key != [] && DistinctNames(key) && NoPairs(key)
    ensures EncodeItemCursor(key).Some?
    ensures DecodeItemCursor(EncodeItemCursor(key))
         == Ok(Some(Object(seq(|key|, i requires 0 <= i < |key| =>
              Entry(key[i].name,
                    Object([Entry(if key[i].keyType.S? then [83] else [78], String(key[i].value))]))))))
  {
    ItemCursorRoundTrip(key);
    assert Members(key) == seq(|key|, i requires 0 <= i < |key| =>
      Entry(key[i].name, Object([Entry(if key[i].keyType.S? then [83] else [78], String(key[i].value))])));
  }

  /** A key value made of the two halves of U+10000 comes back as that one code point. */
  lemma SurrogateHalvesMerge(name: Str, t: KeyType)
    requires NoPair(name)
    ensures var key := [KeyPart(name, t, [0xD800, 0xDC00])];
      DecodeItemCursor(EncodeItemCursor(key)) == Ok(Some(Object(Members([KeyPart(name, t, [0x1_0000])]))))
  {
    var key := [KeyPart(name, t, [0xD800, 0xDC00])];
    DecodeOfEncode(key);
    JoinedShorter(name);
    assert key[0].value[2..] == [];
    assert Joined(key[0].value) == [0x1_0000];
    assert Members(JoinedKey(key)) == Members([KeyPart(name, t, [0x1_0000])]);
    OnePair(name, PartJson(KeyPart(name, t, [0x1_0000])));
    assert Members(JoinedKey(key)) == [Entry(name, PartJson(KeyPart(name, t, [0x1_0000])))];
  }

  /** Any other cursor is read as some JSON value or refused with one non-retryable 400. */
  lemma DecodeTotal(cursor: Option<Str>)
    ensures match DecodeItemCursor(cursor)
      case Ok(start) => start != Some(Null)
      case Err(e) => e.code == VALIDATION_ERROR && e.statusCode == 400 && !e.retryable
  {}

  // ---- the text itself ----

  function Quoted(s: Str): Str {
    Lit("\"") + Escaped(s, []) + Lit("\"")
  }

  /** One member: the name, the type and the value. */
  function MemberText(part: KeyPart): Str {
    Quoted(part.name) + Lit(": {") + Quoted(if part.keyType.S? then Lit("S") else Lit("N")) + Lit(": ")
    + Quoted(part.value) + Lit("}")
  }

  function MembersText(key: Key): Str
    requires key != []
  {
    if |key| == 1 then MemberText(key[0]) else MemberText(key[0]) + Lit(", ") + MembersText(key[1..])
  }

  lemma EscapePointTail(c: CodePoint, t: Str, u: Str)
    ensures EscapePoint(c, t + u) == EscapePoint(c, t) + u
  {}

  lemma {:induction false} EscapedTail(s: Str, t: Str)
    ensures Escaped(s, t) == Escaped(s, []) + t
  {
    if s != [] {
      EscapedTail(s[1..], t);
      EscapePointTail(s[0], Escaped(s[1..], []), t);
    } else {
      assert [] + t == t;
    }
  }

  lemma Between(open: Str, inside: Str, close: Str, tail: Str)
    ensures open + (inside + (close + tail)) == open + inside + close + tail
  {}

  lemma QuotedThen(s: Str, tail: Str)
    ensures [QUOTE] + Escaped(s, [QUOTE] + tail) == Quoted(s) + tail
  {
    EscapedTail(s, [QUOTE] + tail);
    assert Lit("\"") == [QUOTE];
    Between([QUOTE], Escaped(s, []), [QUOTE], tail);
  }

  lemma Separators(t: Str)
    ensures [COLON] + ([SPACE] + t) == Lit(": ") + t
    ensures [COMMA] + ([SPACE] + t) == Lit(", ") + t
    ensures [LBRACE] + t == Lit("{") + t && [RBRACE] + t == Lit("}") + t
  {}

  lemma ValueLayout(part: KeyPart, tail: Str)
    ensures PartText(part, tail)
         == Lit("{") + (Quoted(if part.keyType.S? then Lit("S") else Lit("N"))
            + (Lit(": ") + (Quoted(part.value) + (Lit("}") + tail))))
  {
    var tag := if part.keyType.S? then Lit("S") else Lit("N");
    assert tag == TypeText(part.keyType);
    var value := [QUOTE] + Escaped(part.value, [QUOTE] + ([RBRACE] + tail));
    Separators(tail);
    QuotedThen(part.value, [RBRACE] + tail);
    Separators(value);
    QuotedThen(tag, [COLON] + ([SPACE] + value));
    Separators([QUOTE] + Escaped(tag, [QUOTE] + ([COLON] + ([SPACE] + value))));
  }

  lemma SixParts(a: Str, b: Str, c: Str, d: Str, e: Str, f: Str, tail: Str)
    ensures a + (b + (c + (d + (e + (f + tail))))) == a + b + c + d + e + f + tail
  {
    Between(d, e, f, tail);
    Between(a, b, c, d + e + f + tail);
    Between(a + b + c, d, e + f, tail);
    Between(a + b + c + d, e, f, tail);
  }

  lemma BraceAfterColon(t: Str)
    ensures Lit(": ") + (Lit("{") + t) == Lit(": {") + t
  {}

  lemma PartLayout(part: KeyPart, tail: Str)
    ensures [QUOTE] + Escaped(part.name, [QUOTE] + ([COLON] + ([SPACE] + PartText(part, tail))))
         == MemberText(part) + tail
  {
    var text := PartText(part, tail);
    ValueLayout(part, tail);
    QuotedThen(part.name, [COLON] + ([SPACE] + text));
    Separators(text);
    var tag := Quoted(if part.keyType.S? then Lit("S") else Lit("N"));
    BraceAfterColon(tag + (Lit(": ") + (Quoted(part.value) + (Lit("}") + tail))));
    SixParts(Quoted(part.name), Lit(": {"), tag, Lit(": "), Quoted(part.value), Lit("}"), tail);
  }

  lemma {:induction false} PartsLayout(key: Key)
    requires key != []
    ensures [QUOTE] + PartsText(key) == MembersText(key) + Lit("}")
  {
    PartLayout(key[0], AfterPart(key));
    if |key| > 1 {
      PartsLayout(key[1..]);
      Separators([QUOTE] + PartsText(key[1..]));
      Between(MemberText(key[0]), Lit(", "), MembersText(key[1..]), Lit("}"));
    } else {
      assert [RBRACE] == Lit("}");
    }
  }

  /** The text inside a cursor is `{"name": {"S": "value"}, ...}` as `dumps` lays it out. */
  lemma KeyLayout(key: Key)
    ensures KeyText(key) == if key == [] then Lit("{}") else Lit("{") + (MembersText(key) + Lit("}"))
  {
    if key != [] {
      PartsLayout(key);
      Separators([QUOTE] + PartsText(key));
    }
  }
}
