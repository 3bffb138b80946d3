/** What an item looks like as DynamoDB's typed attribute values, and which numbers those can carry. */
module WireFormat {
  import opened Wrappers
  import opened Text
  import opened DynamoValues
  import Decimal
  import DecimalText
  import ItemRoundTrip

  // ---- typed values ----

  /** The text of a number: an int is written as its decimal digits with a minus sign if it is negative, a
      float in the notation `str` gives its decimal. */
  ghost predicate NumberText(v: Value, text: Str) {
    match v
    case Int(n) =>
      text == (if n < 0 then Lit("-") else []) + DecimalText.Chars(Decimal.Digits(if n < 0 then -n else n))
    case Float(d) => text == DecimalText.Print(d)
    case _ => false
  }

  /** The attribute carries the value under the tag of its kind, at every depth, with keys and order kept. */
  ghost predicate Typed(v: Value, a: Attribute)
    decreases v, 1
  {
    match v
    case NoneValue => a == NULL
    case Bool(b) => a == BOOL(b)
    case Int(_) => a.N? && NumberText(v, a.text)
    case Float(_) => a.N? && NumberText(v, a.text)
    case Text(s) => a == S(s)
    case List(items) => a.L? && TypedItems(items, a.items)
    case Dict(fields) => a.M? && TypedFields(fields, a.fields)
    case _ => false
  }

  ghost predicate TypedItems(items: seq<Value>, typed: seq<Attribute>)
    decreases items, 0
  {
    if items == [] then typed == [] else typed != [] && Typed(items[0], typed[0]) && TypedItems(items[1..], typed[1..])
  }

  ghost predicate TypedFields(fields: seq<Field>, typed: seq<AttributeField>)
    decreases fields, 0
  {
    if fields == [] then typed == []
    else
      typed != [] && typed[0].key == fields[0].key && Typed(fields[0].value, typed[0].value)
      && TypedFields(fields[1..], typed[1..])
  }

  lemma IntText(n: int)
    ensures NumberText(Int(n), DecimalText.Print(IntNumber(n)))
  {
    var d := IntNumber(n);
    DecimalText.SignNotation(d);
    DecimalText.WholeNotation(Decimal.Digits(d.coefficient));
  }

  lemma {:induction false} ValueIsTyped(v: Value)
    requires ItemRoundTrip.Json(ItemRoundTrip.Scalars(v)) && Serialize(ToCompatible(v)).Ok?
    ensures Typed(v, Serialize(ToCompatible(v)).value)
    decreases v, 1
  {
    if v.List? {
      ItemsAreTyped(v.items);
    } else if v.Dict? {
      FieldsAreTyped(v.fields);
    } else if v.Int? {
      IntText(v.n);
    } else {
      assert v in ItemRoundTrip.Scalars(v);
    }
  }

  lemma {:induction false} ItemsAreTyped(items: seq<Value>)
    requires ItemRoundTrip.Json(ItemRoundTrip.ScalarsOfItems(items)) && SerializeItems(ToCompatibleItems(items)).Ok?
    ensures TypedItems(items, SerializeItems(ToCompatibleItems(items)).value)
    decreases items, 0
  {
    if items != [] {
      ItemRoundTrip.JsonConcat(ItemRoundTrip.Scalars(items[0]), ItemRoundTrip.ScalarsOfItems(items[1..]));
      var compatible := ToCompatibleItems(items);
      assert compatible[1..] == ToCompatibleItems(items[1..]);
      ValueIsTyped(items[0]);
      ItemsAreTyped(items[1..]);
      assert SerializeItems(compatible).value[1..] == SerializeItems(compatible[1..]).value;
    }
  }

  lemma {:induction false} FieldsAreTyped(fields: seq<Field>)
    requires ItemRoundTrip.Json(ItemRoundTrip.ScalarsOfFields(fields))
    requires SerializeFields(ToCompatibleFields(fields)).Ok?
    ensures TypedFields(fields, SerializeFields(ToCompatibleFields(fields)).value)
    decreases fields, 0
  {
    if fields != [] {
      ItemRoundTrip.JsonConcat(ItemRoundTrip.Scalars(fields[0].value), ItemRoundTrip.ScalarsOfFields(fields[1..]));
      var compatible := ToCompatibleFields(fields);
      assert compatible[1..] == ToCompatibleFields(fields[1..]);
      ValueIsTyped(fields[0].value);
      FieldsAreTyped(fields[1..]);
      assert SerializeFields(compatible).value[1..] == SerializeFields(compatible[1..]).value;
    }
  }

  /** What a put hands to DynamoDB is the item, typed. */
  lemma PutIsTyped(item: seq<Field>)
    requires ItemRoundTrip.Json(ItemRoundTrip.ScalarsOfFields(item)) && ToAttributeValueMap(item).Ok?
    ensures TypedFields(item, ToAttributeValueMap(item).value)
  {
    FieldsAreTyped(item);
  }

  // ---- which numbers it carries ----

  /** A number has at most k digits exactly if it is below 10^k. */
  lemma {:induction false} DigitsCount(n: nat, k: nat)
    requires k >= 1
    ensures |Decimal.Digits(n)| <= k <==> n < Pow10(k)
  {
    assert Pow10(1) == 10 * Pow10(0);
    if n < 10 {
      PowersGrow(1, k);
    } else if k > 1 {
      DigitsCount(n / 10, k - 1);
    }
  }

  lemma {:induction false} PowersGrow(j: nat, k: nat)
    requires j <= k
    ensures Pow10(j) <= Pow10(k)
    decreases k - j
  {
    if j < k { PowersGrow(j, k - 1); }
  }

  /** DynamoDB's decimal context takes a number exactly if it has at most 38 digits, is below 10^127, and
      needs no digit behind the 165th place after the point. Zero only needs an exponent in range. */
  lemma AcceptedMeans(d: Number)
    ensures d.coefficient == 0 ==> (Accepted(d) <==> -165 <= d.exponent <= 126)
    ensures d.coefficient > 0 ==>
      (Accepted(d) <==>
         -165 <= d.exponent <= 126 && d.coefficient < Pow10(38) && d.coefficient < Pow10(127 - d.exponent))
  {
    if d.coefficient > 0 {
      DigitsCount(d.coefficient, 38);
      if d.exponent <= 126 { DigitsCount(d.coefficient, 127 - d.exponent); }
    }
  }

  /** The whole part is the coefficient cut off at the point. */
  lemma WholeIsCutOff(d: Number)
    ensures d.exponent >= 0 ==> Whole(d) == d.coefficient * Pow10(d.exponent)
    ensures d.exponent < 0 ==>
      var p := Pow10(-d.exponent); Whole(d) * p <= d.coefficient < Whole(d) * p + p
  {
    if d.exponent < 0 {
      var p := Pow10(-d.exponent);
      assert d.coefficient == d.coefficient / p * p + d.coefficient % p;
    }
  }
}
