/** The opaque offset cursor: a decimal number in base64url. */
module Pagination {
  import opened Wrappers
  import opened Errors
  import opened Text
  import Base64
  import Decimal
  import Integers

  const InvalidCursor := AppError(VALIDATION_ERROR, "Invalid pagination cursor.", 400, false)

  /** None where `str(offset)` raises, which no offset short of 4301 digits does. */
  function EncodeCursor(offset: int): Option<Str> {
    match Integers.Print(offset)
    case None => None
    case Some(text) =>
      match Utf8Encode(text)
      case None => None
      case Some(bytes) => Some(Base64.Encode(bytes))
  }

  /** The text inside a cursor: base64url around UTF-8. None where either layer raises. */
  function CursorText(cursor: Str): Option<Str> {
    match Utf8Encode(cursor)
    case None => None
    case Some(bytes) =>
      match Base64.Decode(bytes)
      case None => None
      case Some(decoded) => Utf8Decode(decoded)
  }

  function DecodeCursor(cursor: Option<Str>, unicode: Integers.UnicodeDatabase): Result<nat, AppError> {
    if cursor == None || cursor.value == [] then Ok(0)
    else
      match CursorText(cursor.value)
      case None => Err(InvalidCursor)
      case Some(text) =>
        match Integers.Parse(text, unicode)
        case None => Err(InvalidCursor)
        case Some(n) => Ok(if n < 0 then 0 else n)
  }

  /** Any ASCII text put into base64url comes back out of it. */
  lemma CursorTextRoundTrip(text: Bytes)
    requires Ascii(text)
    ensures CursorText(Base64.Encode(text)) == Some(text)
    ensures text != [] ==> Base64.Encode(text) != []
  {
    Base64.EncodeIsAscii(text);
    Base64.RoundTrip(text);
    AsciiBytes(Base64.Encode(text));
    AsciiBytes(text);
  }

  /** Base64url around the UTF-8 form of any text carries that text. */
  lemma CursorCarriesText(text: Str)
    requires forall i :: 0 <= i < |text| ==> !Surrogate(text[i])
    ensures Utf8Encode(text).Some? && CursorText(Base64.Encode(Utf8Encode(text).value)) == Some(text)
    ensures text != [] ==> Base64.Encode(Utf8Encode(text).value) != []
  {
    Utf8RoundTrip(text);
    var bytes := Utf8Encode(text).value;
    Base64.EncodeIsAscii(bytes);
    Base64.RoundTrip(bytes);
    AsciiBytes(Base64.Encode(bytes));
  }

  /** A cursor a client makes of any nonempty text is read as the number `int` reads from that text, a
      negative one as 0, and is refused exactly if `int` refuses the text. */
  lemma ClientCursor(text: Str, unicode: Integers.UnicodeDatabase)
    requires text != [] && forall i :: 0 <= i < |text| ==> !Surrogate(text[i])
    ensures Utf8Encode(text).Some?
    ensures DecodeCursor(Some(Base64.Encode(Utf8Encode(text).value)), unicode)
         == match Integers.Parse(text, unicode)
            case None => Err(InvalidCursor)
            case Some(n) => Ok(if n < 0 then 0 else n)
  {
    CursorCarriesText(text);
    CursorReads(Base64.Encode(Utf8Encode(text).value), text, unicode);
  }

  lemma CursorReads(cursor: Str, text: Str, unicode: Integers.UnicodeDatabase)
    requires cursor != [] && CursorText(cursor) == Some(text)
    ensures DecodeCursor(Some(cursor), unicode)
         == match Integers.Parse(text, unicode)
            case None => Err(InvalidCursor)
            case Some(n) => Ok(if n < 0 then 0 else n)
  {}

  /** A cursor with a surrogate in it is refused: it has no UTF-8 form. */
  lemma SurrogateCursorRefused(cursor: Str, unicode: Integers.UnicodeDatabase)
    requires exists i :: 0 <= i < |cursor| && Surrogate(cursor[i])
    ensures DecodeCursor(Some(cursor), unicode) == Err(InvalidCursor)
  {
    Utf8RoundTrip(cursor);
  }

  /** Every cursor handed out for an offset is read back as that offset, never as "no cursor". A
      negative offset, which a negative page size can produce, is read back as 0. */
  lemma CursorRoundTrip(offset: int, unicode: Integers.UnicodeDatabase)
    requires EncodeCursor(offset).Some?
    ensures EncodeCursor(offset).value != []
    ensures DecodeCursor(EncodeCursor(offset), unicode) == Ok(if offset < 0 then 0 else offset)
  {
    Integers.PrintParse(offset, unicode);
    var text := Integers.Print(offset).value;
    AsciiBytes(text);
    CursorTextRoundTrip(text);
  }

  /** A cursor exists for an offset exactly when it has at most 4300 digits. */
  lemma CursorExists(offset: int)
    ensures EncodeCursor(offset).Some?
      <==> |Decimal.Digits(if offset < 0 then -offset else offset)| <= Integers.MAX_STR_DIGITS
  {
    if Integers.Print(offset).Some? {
      Integers.PrintParse(offset, c => None);
      AsciiBytes(Integers.Print(offset).value);
    }
  }

  /** Every other cursor is either read as some offset or refused with one non-retryable 400. */
  lemma DecodeTotal(cursor: Option<Str>, unicode: Integers.UnicodeDatabase)
    ensures match DecodeCursor(cursor, unicode)
      case Ok(offset) => offset >= 0
      case Err(e) => e.code == VALIDATION_ERROR && e.statusCode == 400 && !e.retryable
  {}
}
