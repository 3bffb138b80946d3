/** What putting an item and listing it again does to its value. */
module ItemRoundTrip {
  import opened Wrappers
  import opened Text
  import opened Errors
  import opened DynamoValues
  import Decimal
  import DecimalText

  /** The scalars of a value in the order a left-to-right walk meets them. */
  function Scalars(v: Value): seq<Value>
    decreases v, 1
  {
    match v
    case List(items) => ScalarsOfItems(items)
    case Dict(fields) => ScalarsOfFields(fields)
    case _ => [v]
  }

  function ScalarsOfItems(items: seq<Value>): seq<Value>
    decreases items, 0
  {
    if items == [] then [] else Scalars(items[0]) + ScalarsOfItems(items[1..])
  }

  function ScalarsOfFields(fields: seq<Field>): seq<Value>
    decreases fields, 0
  {
    if fields == [] then [] else Scalars(fields[0].value) + ScalarsOfFields(fields[1..])
  }

  /** A parsed JSON document holds no `Decimal`. */
  ghost predicate Json(scalars: seq<Value>) {
    forall s :: s in scalars ==> !s.Dec?
  }

  /** The number a scalar stands for, if it is one. */
  function NumberOf(s: Value): Option<Number> {
    match s
    case Int(n) => Some(IntNumber(n))
    case Float(d) => Some(d)
    case Dec(d) => Some(d)
    case _ => None
  }

  /** What keeps a JSON scalar from being stored. */
  function Fault(s: Value): Option<Raised> {
    if s == NotFinite then Some(TypeError)
    else if NumberOf(s).Some? && !Accepted(NumberOf(s).value) then Some(DecimalSignal)
    else None
  }

  function FirstFault(scalars: seq<Value>): Option<Raised> {
    if scalars == [] then None
    else if Fault(scalars[0]) != None then Fault(scalars[0])
    else FirstFault(scalars[1..])
  }

  /** The integer part of every number has at most 28 digits. */
  ghost predicate Listable(scalars: seq<Value>) {
    forall s :: s in scalars && NumberOf(s).Some? ==> Divisible(NumberOf(s).value)
  }

  lemma {:induction false} FirstFaultConcat(a: seq<Value>, b: seq<Value>)
    ensures FirstFault(a + b) == if FirstFault(a) != None then FirstFault(a) else FirstFault(b)
  {
    if a == [] {
      assert a + b == b;
    } else {
      FirstFaultConcat(a[1..], b);
      assert (a + b)[1..] == a[1..] + b;
    }
  }

  /** The form an item is read back in: every number a decimal. */
  function AsDecimals(v: Value): Value
    decreases v, 1
  {
    match v
    case Int(n) => Dec(IntNumber(n))
    case Float(d) => Dec(d)
    case List(items) => List(AsDecimalItems(items))
    case Dict(fields) => Dict(AsDecimalFields(fields))
    case _ => v
  }

  function AsDecimalItems(items: seq<Value>): seq<Value>
    decreases items, 0
  {
    if items == [] then [] else [AsDecimals(items[0])] + AsDecimalItems(items[1..])
  }

  function AsDecimalFields(fields: seq<Field>): seq<Field>
    decreases fields, 0
  {
    if fields == [] then [] else [Field(fields[0].key, AsDecimals(fields[0].value))] + AsDecimalFields(fields[1..])
  }

  // ---- storing ----

  lemma NumberSurvives(d: Number)
    requires Accepted(d)
    ensures Deserialize(N(DecimalText.Print(d))) == Ok(Dec(d))
  {
    DecimalText.PrintParse(d);
  }

  ghost predicate StoresItems(items: seq<Value>) {
    match FirstFault(ScalarsOfItems(items))
    case Some(e) => SerializeItems(ToCompatibleItems(items)) == Err(e)
    case None =>
      var r := SerializeItems(ToCompatibleItems(items));
      r.Ok? && DeserializeItems(r.value) == Ok(AsDecimalItems(items))
  }

  ghost predicate StoresFields(fields: seq<Field>) {
    match FirstFault(ScalarsOfFields(fields))
    case Some(e) => SerializeFields(ToCompatibleFields(fields)) == Err(e)
    case None =>
      var r := SerializeFields(ToCompatibleFields(fields));
      r.Ok? && DeserializeFields(r.value) == Ok(AsDecimalFields(fields))
  }

  ghost predicate Stores(v: Value) {
    match FirstFault(Scalars(v))
    case Some(e) => Serialize(ToCompatible(v)) == Err(e)
    case None =>
      var r := Serialize(ToCompatible(v));
      r.Ok? && Deserialize(r.value) == Ok(AsDecimals(v))
  }

  lemma ScalarStores(v: Value)
    requires !v.List? && !v.Dict? && !v.Dec?
    ensures Stores(v)
  {
    assert [v][1..] == [];
    if NumberOf(v).Some? && Accepted(NumberOf(v).value) { NumberSurvives(NumberOf(v).value); }
  }

  lemma {:induction false} ValueStores(v: Value)
    requires Json(Scalars(v))
    ensures Stores(v)
    decreases v, 1
  {
    if v.List? {
      ItemsStore(v.items);
    } else if v.Dict? {
      FieldsStore(v.fields);
    } else {
      assert v in Scalars(v);
      ScalarStores(v);
    }
  }

  lemma {:induction false} ItemsStore(items: seq<Value>)
    requires Json(ScalarsOfItems(items))
    ensures StoresItems(items)
    decreases items, 0
  {
    if items != [] {
      ValueStores(items[0]);
      ItemsStore(items[1..]);
      FirstFaultConcat(Scalars(items[0]), ScalarsOfItems(items[1..]));
      ConsItemsStore(items);
    }
  }

  lemma ConsItemsStore(items: seq<Value>)
    requires items != [] && Stores(items[0]) && StoresItems(items[1..])
    requires FirstFault(ScalarsOfItems(items))
          == if FirstFault(Scalars(items[0])) != None then FirstFault(Scalars(items[0]))
              else FirstFault(ScalarsOfItems(items[1..]))
    ensures StoresItems(items)
  {
    var compatible := ToCompatibleItems(items);
    assert compatible[1..] == ToCompatibleItems(items[1..]);
    if FirstFault(ScalarsOfItems(items)) == None {
      var r := SerializeItems(compatible).value;
      assert r[1..] == SerializeItems(compatible[1..]).value;
    }
  }

  lemma {:induction false} FieldsStore(fields: seq<Field>)
    requires Json(ScalarsOfFields(fields))
    ensures StoresFields(fields)
    decreases fields, 0
  {
    if fields != [] {
      ValueStores(fields[0].value);
      FieldsStore(fields[1..]);
      FirstFaultConcat(Scalars(fields[0].value), ScalarsOfFields(fields[1..]));
      ConsFieldsStore(fields);
    }
  }

  lemma ConsFieldsStore(fields: seq<Field>)
    requires fields != [] && Stores(fields[0].value) && StoresFields(fields[1..])
    requires FirstFault(ScalarsOfFields(fields))
          == if FirstFault(Scalars(fields[0].value)) != None then FirstFault(Scalars(fields[0].value))
             else FirstFault(ScalarsOfFields(fields[1..]))
    ensures StoresFields(fields)
  {
    var compatible := ToCompatibleFields(fields);
    assert compatible[1..] == ToCompatibleFields(fields[1..]);
    if FirstFault(ScalarsOfFields(fields)) == None {
      var r := SerializeFields(compatible).value;
      assert r[1..] == SerializeFields(compatible[1..]).value;
    }
  }

  // ---- listing ----

  /** An integral float becomes an int; nothing else changes. */
  function NormalScalar(s: Value): Value {
    if s.Float? && Integral(s.repr) then Int(Truncated(s.repr)) else s
  }

  function Normalize(v: Value): Value
    decreases v, 1
  {
    match v
    case List(items) => List(NormalizeItems(items))
    case Dict(fields) => Dict(NormalizeFields(fields))
    case _ => NormalScalar(v)
  }

  function NormalizeItems(items: seq<Value>): seq<Value>
    decreases items, 0
  {
    if items == [] then [] else [Normalize(items[0])] + NormalizeItems(items[1..])
  }

  function NormalizeFields(fields: seq<Field>): seq<Field>
    decreases fields, 0
  {
    if fields == [] then [] else [Field(fields[0].key, Normalize(fields[0].value))] + NormalizeFields(fields[1..])
  }

  ghost predicate Lists(v: Value) {
    FromDynamo(AsDecimals(v)) == if Listable(Scalars(v)) then Ok(Normalize(v)) else Err(DecimalSignal)
  }

  ghost predicate ListsItems(items: seq<Value>) {
    FromDynamoItems(AsDecimalItems(items))
    == if Listable(ScalarsOfItems(items)) then Ok(NormalizeItems(items)) else Err(DecimalSignal)
  }

  ghost predicate ListsFields(fields: seq<Field>) {
    FromDynamoFields(AsDecimalFields(fields))
    == if Listable(ScalarsOfFields(fields)) then Ok(NormalizeFields(fields)) else Err(DecimalSignal)
  }

  lemma ListableConcat(a: seq<Value>, b: seq<Value>)
    ensures Listable(a + b) <==> Listable(a) && Listable(b)
  {
    if Listable(a + b) {
      forall s | s in a && NumberOf(s).Some? ensures Divisible(NumberOf(s).value) { assert s in a + b; }
      forall s | s in b && NumberOf(s).Some? ensures Divisible(NumberOf(s).value) { assert s in a + b; }
    }
  }

  lemma IntNumberIsInt(n: int)
    ensures Integral(IntNumber(n)) && Truncated(IntNumber(n)) == n
  {
    assert Pow10(0) == 1;
  }

  lemma ScalarLists(v: Value)
    requires !v.List? && !v.Dict? && !v.Dec?
    ensures Lists(v)
  {
    assert v in Scalars(v);
    assert Listable([v]) <==> (NumberOf(v).Some? ==> Divisible(NumberOf(v).value));
    if v.Int? { IntNumberIsInt(v.n); }
  }

  lemma {:induction false} ValueLists(v: Value)
    requires Json(Scalars(v))
    ensures Lists(v)
    decreases v, 1
  {
    if v.List? {
      ItemsList(v.items);
    } else if v.Dict? {
      FieldsList(v.fields);
    } else {
      assert v in Scalars(v);
      ScalarLists(v);
    }
  }

  lemma {:induction false} ItemsList(items: seq<Value>)
    requires Json(ScalarsOfItems(items))
    ensures ListsItems(items)
    decreases items, 0
  {
    if items != [] {
      ValueLists(items[0]);
      ItemsList(items[1..]);
      ListableConcat(Scalars(items[0]), ScalarsOfItems(items[1..]));
      assert AsDecimalItems(items)[1..] == AsDecimalItems(items[1..]);
    }
  }

  lemma {:induction false} FieldsList(fields: seq<Field>)
    requires Json(ScalarsOfFields(fields))
    ensures ListsFields(fields)
    decreases fields, 0
  {
    if fields != [] {
      ValueLists(fields[0].value);
      FieldsList(fields[1..]);
      ListableConcat(Scalars(fields[0].value), ScalarsOfFields(fields[1..]));
      assert AsDecimalFields(fields)[1..] == AsDecimalFields(fields[1..]);
    }
  }

  // ---- what the normal form means ----

  /** The number itself. */
  ghost function Amount(d: Number): real {
    var m := if d.exponent >= 0 then (d.coefficient * Pow10(d.exponent)) as real
             else d.coefficient as real / Pow10(-d.exponent) as real;
    if d.negative then -m else m
  }

  /** Equal, except that a float may have become the int of the same value. */
  ghost predicate SameScalar(s: Value, t: Value) {
    s == t || (s.Float? && t.Int? && Amount(s.repr) == t.n as real)
  }

  /** The same nesting, keys, order and scalars, up to floats that became ints. */
  ghost predicate Same(v: Value, w: Value)
    decreases v, 1
  {
    match v
    case List(items) => w.List? && SameItems(items, w.items)
    case Dict(fields) => w.Dict? && SameFields(fields, w.fields)
    case _ => SameScalar(v, w)
  }

  ghost predicate SameItems(items: seq<Value>, others: seq<Value>)
    decreases items, 0
  {
    if items == [] then others == []
    else others != [] && Same(items[0], others[0]) && SameItems(items[1..], others[1..])
  }

  ghost predicate SameFields(fields: seq<Field>, others: seq<Field>)
    decreases fields, 0
  {
    if fields == [] then others == []
    else others != [] && fields[0].key == others[0].key && Same(fields[0].value, others[0].value)
         && SameFields(fields[1..], others[1..])
  }

  /** No float is left that an int could stand for. */
  ghost predicate Normal(scalars: seq<Value>) {
    forall s :: s in scalars && s.Float? ==> !Integral(s.repr)
  }

  lemma DividesExactly(c: nat, p: nat, n: int)
    requires p > 0
    ensures c as real / p as real == n as real <==> c == n * p
  {
    var q := c as real / p as real;
    assert q * p as real == c as real;
    if q == n as real { assert c as real == (n * p) as real; }
    if c == n * p { SameQuotient(q, n as real, p as real); }
  }

  lemma SameQuotient(q: real, n: real, p: real)
    requires p > 0.0 && q * p == n * p
    ensures q == n
  {}

  /** Integral numbers are the ones with an integer amount, and that integer is what they become. */
  lemma IntegralAmount(d: Number, n: int)
    ensures Amount(d) == n as real <==> Integral(d) && Truncated(d) == n
  {
    var m := if d.negative then -n else n;
    if d.exponent < 0 {
      var p := Pow10(-d.exponent);
      DividesExactly(d.coefficient, p, m);
      assert d.coefficient == d.coefficient / p * p + d.coefficient % p;
      if d.coefficient == m * p { MultipleOf(d.coefficient, p, m); }
      assert (-n) as real == -(n as real);
    }
  }

  lemma {:induction false} Multiples(k: int, p: nat)
    requires k >= 1
    ensures k * p >= p
  {
    if k > 1 {
      Multiples(k - 1, p);
      assert k * p == (k - 1) * p + p;
    }
  }

  lemma Difference(m: int, q: int, p: int)
    ensures (m - q) * p == m * p - q * p
  {}

  lemma NoRemainder(m: int, q: int, p: nat, r: int)
    requires m * p == q * p + r && 0 <= r < p
    ensures m == q && r == 0
  {
    if m > q {
      Difference(m, q, p);
      Multiples(m - q, p);
    } else if m < q {
      Difference(q, m, p);
      Multiples(q - m, p);
    }
  }

  lemma MultipleOf(c: nat, p: nat, m: int)
    requires p > 0 && c == m * p
    ensures c % p == 0 && c / p == m
  {
    var q, r := c / p, c % p;
    NoRemainder(m, q, p, r);
  }

  lemma NormalConcat(a: seq<Value>, b: seq<Value>)
    ensures Normal(a + b) <==> Normal(a) && Normal(b)
  {
    if Normal(a + b) {
      forall s | s in a && s.Float? ensures !Integral(s.repr) { assert s in a + b; }
      forall s | s in b && s.Float? ensures !Integral(s.repr) { assert s in a + b; }
    }
  }

  lemma ScalarNormalForm(s: Value, t: Value)
    ensures SameScalar(s, t) && (t.Float? ==> !Integral(t.repr)) <==> t == NormalScalar(s)
  {
    if s.Float? && t.Int? { IntegralAmount(s.repr, t.n); }
  }

  ghost predicate HasNormalForm(v: Value, w: Value) {
    Same(v, w) && Normal(Scalars(w)) <==> w == Normalize(v)
  }

  /** The normal form is the only value that is the same as the given one and has no integral float. */
  lemma {:induction false} ValueNormalForm(v: Value, w: Value)
    ensures HasNormalForm(v, w)
    decreases v, 1
  {
    if v.List? {
      if w.List? { ItemsNormalForm(v.items, w.items); }
    } else if v.Dict? {
      if w.Dict? { FieldsNormalForm(v.fields, w.fields); }
    } else {
      ScalarNormalForm(v, w);
      if !w.List? && !w.Dict? { assert w in Scalars(w) && (Normal([w]) <==> (w.Float? ==> !Integral(w.repr))); }
    }
  }

  lemma {:induction false} ItemsNormalForm(items: seq<Value>, others: seq<Value>)
    ensures SameItems(items, others) && Normal(ScalarsOfItems(others)) <==> others == NormalizeItems(items)
    decreases items, 0
  {
    if items != [] && others != [] {
      ValueNormalForm(items[0], others[0]);
      ItemsNormalForm(items[1..], others[1..]);
      NormalConcat(Scalars(others[0]), ScalarsOfItems(others[1..]));
      HeadAndTail(others, Normalize(items[0]), NormalizeItems(items[1..]));
    }
  }

  lemma {:induction false} FieldsNormalForm(fields: seq<Field>, others: seq<Field>)
    ensures SameFields(fields, others) && Normal(ScalarsOfFields(others)) <==> others == NormalizeFields(fields)
    decreases fields, 0
  {
    if fields != [] && others != [] {
      ValueNormalForm(fields[0].value, others[0].value);
      FieldsNormalForm(fields[1..], others[1..]);
      NormalConcat(Scalars(others[0].value), ScalarsOfFields(others[1..]));
      HeadAndTail(others, Field(fields[0].key, Normalize(fields[0].value)), NormalizeFields(fields[1..]));
    }
  }

  lemma HeadAndTail<T>(s: seq<T>, x: T, t: seq<T>)
    requires s != []
    ensures s == [x] + t <==> s[0] == x && s[1..] == t
  {
    assert s == [s[0]] + s[1..];
  }

  // ---- a second trip ----

  /** Nothing in these scalars stops them from being stored or listed. */
  ghost predicate Carried(scalars: seq<Value>) {
    forall s :: s in scalars ==> CarriedScalar(s)
  }

  ghost predicate CarriedScalar(s: Value) {
    !s.Dec? && Fault(s) == None && (NumberOf(s).Some? ==> Divisible(NumberOf(s).value))
  }

  lemma CarriedConcat(a: seq<Value>, b: seq<Value>)
    ensures Carried(a + b) <==> Carried(a) && Carried(b)
  {
    if Carried(a + b) {
      forall s | s in a ensures CarriedScalar(s) { assert s in a + b; }
      forall s | s in b ensures CarriedScalar(s) { assert s in a + b; }
    }
  }

  lemma {:induction false} CarriedMeaning(scalars: seq<Value>)
    ensures Carried(scalars) <==> Json(scalars) && FirstFault(scalars) == None && Listable(scalars)
  {
    if scalars != [] {
      var head, rest := [scalars[0]], scalars[1..];
      CarriedMeaning(rest);
      assert scalars == head + rest;
      CarriedConcat(head, rest);
      ListableConcat(head, rest);
      JsonConcat(head, rest);
      assert scalars[0] in head && (Carried(head) <==> CarriedScalar(scalars[0]));
    }
  }

  lemma JsonConcat(a: seq<Value>, b: seq<Value>)
    ensures Json(a + b) <==> Json(a) && Json(b)
  {
    if Json(a + b) {
      forall s | s in a ensures !s.Dec? { assert s in a + b; }
      forall s | s in b ensures !s.Dec? { assert s in a + b; }
    }
  }

  /** A number below 10^k has at most k digits. */
  lemma {:induction false} DigitsBelow(n: nat, k: nat)
    requires k >= 1 && n < Pow10(k)
    ensures |Decimal.Digits(n)| <= k
  {
    if n >= 10 {
      assert Pow10(1) == 10 * Pow10(0);
      DigitsBelow(n / 10, k - 1);
    }
  }

  lemma NormalScalarCarried(s: Value)
    requires CarriedScalar(s)
    ensures CarriedScalar(NormalScalar(s))
  {
    if s.Float? && Integral(s.repr) {
      var m := Whole(s.repr);
      DigitsBelow(m, 28);
      IntNumberIsInt(Truncated(s.repr));
      assert Whole(IntNumber(Truncated(s.repr))) == m by { assert Pow10(0) == 1; }
    }
  }

  lemma {:induction false} ValueCarried(v: Value)
    requires Carried(Scalars(v))
    ensures Carried(Scalars(Normalize(v)))
    decreases v, 1
  {
    if v.List? {
      ItemsCarried(v.items);
    } else if v.Dict? {
      FieldsCarried(v.fields);
    } else {
      assert v in Scalars(v);
      NormalScalarCarried(v);
    }
  }

  lemma {:induction false} ItemsCarried(items: seq<Value>)
    requires Carried(ScalarsOfItems(items))
    ensures Carried(ScalarsOfItems(NormalizeItems(items)))
    decreases items, 0
  {
    if items != [] {
      CarriedConcat(Scalars(items[0]), ScalarsOfItems(items[1..]));
      ValueCarried(items[0]);
      ItemsCarried(items[1..]);
      CarriedConcat(Scalars(Normalize(items[0])), ScalarsOfItems(NormalizeItems(items[1..])));
      assert NormalizeItems(items)[1..] == NormalizeItems(items[1..]);
    }
  }

  lemma {:induction false} FieldsCarried(fields: seq<Field>)
    requires Carried(ScalarsOfFields(fields))
    ensures Carried(ScalarsOfFields(NormalizeFields(fields)))
    decreases fields, 0
  {
    if fields != [] {
      CarriedConcat(Scalars(fields[0].value), ScalarsOfFields(fields[1..]));
      ValueCarried(fields[0].value);
      FieldsCarried(fields[1..]);
      CarriedConcat(Scalars(Normalize(fields[0].value)), ScalarsOfFields(NormalizeFields(fields[1..])));
      assert NormalizeFields(fields)[1..] == NormalizeFields(fields[1..]);
    }
  }

  // ---- main results ----

  /** Putting an item: it is stored exactly when no scalar is at fault. Otherwise the first scalar at
      fault decides: NaN or an infinity is answered with the service's 400, a number outside DynamoDB's
      decimal context with an exception the service does not catch. */
  lemma PutOutcome(item: seq<Field>)
    requires Json(ScalarsOfFields(item))
    ensures match FirstFault(ScalarsOfFields(item))
      case None => ToAttributeValueMap(item).Ok?
      case Some(TypeError) => ToAttributeValueMap(item) == Err(Refused(UnsupportedValue))
      case Some(DecimalSignal) => ToAttributeValueMap(item) == Err(Uncaught)
  {
    FieldsStore(item);
  }

  /** Listing what was put: the normal form of the item when every integer part has at most 28 digits,
      and an exception otherwise. */
  lemma PutThenList(item: seq<Field>)
    requires Json(ScalarsOfFields(item)) && ToAttributeValueMap(item).Ok?
    ensures ToPlain(ToAttributeValueMap(item).value)
         == if Listable(ScalarsOfFields(item)) then Ok(NormalizeFields(item)) else Err(DecimalSignal)
  {
    FieldsStore(item);
    FieldsList(item);
  }

  /** What comes back is the same item with integral floats as ints: the same keys, order, nesting,
      text, booleans, nulls and amounts. It is determined by that. */
  lemma NormalFormIsTheItem(item: seq<Field>, listed: seq<Field>)
    ensures SameFields(item, listed) && Normal(ScalarsOfFields(listed)) <==> listed == NormalizeFields(item)
  {
    FieldsNormalForm(item, listed);
  }

  /** Once listed, an item can be put and listed again without any change. */
  lemma SecondTripIsIdentity(item: seq<Field>, listed: seq<Field>)
    requires Json(ScalarsOfFields(item)) && ToAttributeValueMap(item).Ok?
    requires ToPlain(ToAttributeValueMap(item).value) == Ok(listed)
    ensures ToAttributeValueMap(listed).Ok? && ToPlain(ToAttributeValueMap(listed).value) == Ok(listed)
  {
    PutOutcome(item);
    PutThenList(item);
    CarriedMeaning(ScalarsOfFields(item));
    FieldsCarried(item);
    CarriedMeaning(ScalarsOfFields(listed));
    PutOutcome(listed);
    PutThenList(listed);
    NormalFormIsTheItem(item, listed);
    SameIsReflexive(listed);
    NormalFormIsTheItem(listed, listed);
  }

  lemma {:induction false} SameValueIsReflexive(v: Value)
    ensures Same(v, v)
    decreases v, 1
  {
    if v.List? { SameItemsIsReflexive(v.items); } else if v.Dict? { SameIsReflexive(v.fields); }
  }

  lemma {:induction false} SameItemsIsReflexive(items: seq<Value>)
    ensures SameItems(items, items)
    decreases items, 0
  {
    if items != [] {
      SameValueIsReflexive(items[0]);
      SameItemsIsReflexive(items[1..]);
    }
  }

  lemma {:induction false} SameIsReflexive(fields: seq<Field>)
    ensures SameFields(fields, fields)
    decreases fields, 0
  {
    if fields != [] {
      SameValueIsReflexive(fields[0].value);
      SameIsReflexive(fields[1..]);
    }
  }

  /** The float 1e200 is a JSON number DynamoDB's decimal context overflows on: putting it raises an
      exception the service does not catch. */
  lemma LargeFloatEscapes(key: Str)
    ensures ToAttributeValueMap([Field(key, Float(DecimalText.Number(false, 1, 200)))]) == Err(Uncaught)
  {
    var v := Float(DecimalText.Number(false, 1, 200));
    var item := [Field(key, v)];
    assert item[1..] == [] && ScalarsOfFields(item) == [v] && [v][1..] == [];
    assert Decimal.Digits(1) == [1];
    PutOutcome(item);
  }

  lemma OneNumber(key: Str, n: int)
    requires Accepted(IntNumber(n)) && !Divisible(IntNumber(n))
    ensures var item := [Field(key, Int(n))];
      ToAttributeValueMap(item).Ok? && ToPlain(ToAttributeValueMap(item).value) == Err(DecimalSignal)
  {
    var item := [Field(key, Int(n))];
    assert item[1..] == [] && ScalarsOfFields(item) == [Int(n)];
    OneScalar(Int(n));
    PutOutcome(item);
    PutThenList(item);
  }

  lemma OneScalar(s: Value)
    requires !s.Dec? && Fault(s) == None
    ensures Json([s]) && FirstFault([s]) == None
    ensures NumberOf(s).Some? && !Divisible(NumberOf(s).value) ==> !Listable([s])
  {
    assert [s][1..] == [] && s in [s];
  }

  lemma PowerOfTen(k: nat)
    requires 28 <= k < 38
    ensures Accepted(IntNumber(Pow10(k))) && Whole(IntNumber(Pow10(k))) == Pow10(k)
  {
    var n := Pow10(k);
    assert Pow10(k + 1) == 10 * n;
    DigitsBelow(n, k + 1);
    assert Pow10(0) == 1;
  }

  /** 10^28 is stored but can then not be listed: `value % 1` needs a 29-digit quotient. */
  lemma StoredButNotListable(key: Str)
    ensures var item := [Field(key, Int(Pow10(28)))];
      ToAttributeValueMap(item).Ok? && ToPlain(ToAttributeValueMap(item).value) == Err(DecimalSignal)
  {
    PowerOfTen(28);
    OneNumber(key, Pow10(28));
  }
}
