/** The conversion between plain JSON items and DynamoDB's typed attribute values. */
module DynamoValues {
  import opened Wrappers
  import opened Text
  import opened Errors
  import Decimal
  import DecimalText

  type Number = DecimalText.Number

  /** Python values as they pass through the conversion. A finite float is given by the decimal number
      its shortest `repr` denotes; `NotFinite` is the float NaN or infinity; `Dec` is Python's decimal type. */
  datatype Value =
    | NoneValue
    | Bool(b: bool)
    | Int(n: int)
    | Float(repr: Number)
    | NotFinite
    | Dec(d: Number)
    | Text(s: Str)
    | List(items: seq<Value>)
    | Dict(fields: seq<Field>)

  datatype Field = Field(key: Str, value: Value)

  datatype Attribute =
    | NULL
    | BOOL(b: bool)
    | N(text: Str)
    | S(s: Str)
    | L(items: seq<Attribute>)
    | M(fields: seq<AttributeField>)

  datatype AttributeField = AttributeField(key: Str, value: Attribute)

  /** What the conversions raise: boto3's TypeError, or a trapped signal of the decimal module. */
  datatype Raised = TypeError | DecimalSignal

  /** The one error the service answers itself. */
  const UnsupportedValue := AppError(VALIDATION_ERROR, "Unsupported value type in item", 400, false)

  datatype PutError = Refused(error: AppError) | Uncaught

  // ---- `_to_dynamo_compatible` ----

  /** Floats become decimals, at every depth. */
  function ToCompatible(v: Value): Value
    decreases v, 1
  {
    match v
    case Float(d) => Dec(d)
    case Dict(fields) => Dict(ToCompatibleFields(fields))
    case List(items) => List(ToCompatibleItems(items))
    case _ => v
  }

  function ToCompatibleItems(items: seq<Value>): seq<Value>
    decreases items, 0
  {
    if items == [] then [] else [ToCompatible(items[0])] + ToCompatibleItems(items[1..])
  }

  function ToCompatibleFields(fields: seq<Field>): seq<Field>
    decreases fields, 0
  {
    if fields == [] then []
    else [Field(fields[0].key, ToCompatible(fields[0].value))] + ToCompatibleFields(fields[1..])
  }

  // ---- boto3's serializer and deserializer ----

  /** The decimal context of boto3 (precision 38, exponents from -128 to 126, every rounding trapped)
      takes exactly these numbers, unchanged. */
  predicate Accepted(d: Number) {
    if d.coefficient == 0 then -165 <= d.exponent <= 126
    else
      var digits := |Decimal.Digits(d.coefficient)|;
      digits <= 38 && digits + d.exponent - 1 <= 126 && -165 <= d.exponent
  }

  function IntNumber(n: int): Number {
    DecimalText.Number(n < 0, if n < 0 then -n else n, 0)
  }

  function SerializeNumber(d: Number): Result<Attribute, Raised> {
    if Accepted(d) then Ok(N(DecimalText.Print(d))) else Err(DecimalSignal)
  }

  function Serialize(v: Value): Result<Attribute, Raised>
    decreases v, 1
  {
    match v
    case NoneValue => Ok(NULL)
    case Bool(b) => Ok(BOOL(b))
    case Int(n) => SerializeNumber(IntNumber(n))
    case Float(_) | NotFinite => Err(TypeError)
    case Dec(d) => SerializeNumber(d)
    case Text(s) => Ok(S(s))
    case List(items) =>
      (match SerializeItems(items)
       case Err(e) => Err(e)
       case Ok(l) => Ok(L(l)))
    case Dict(fields) =>
      (match SerializeFields(fields)
       case Err(e) => Err(e)
       case Ok(m) => Ok(M(m)))
  }

  function SerializeItems(items: seq<Value>): Result<seq<Attribute>, Raised>
    decreases items, 0
  {
    if items == [] then Ok([])
    else
      match Serialize(items[0])
      case Err(e) => Err(e)
      case Ok(a) =>
        match SerializeItems(items[1..])
        case Err(e) => Err(e)
        case Ok(rest) => Ok([a] + rest)
  }

  function SerializeFields(fields: seq<Field>): Result<seq<AttributeField>, Raised>
    decreases fields, 0
  {
    if fields == [] then Ok([])
    else
      match Serialize(fields[0].value)
      case Err(e) => Err(e)
      case Ok(a) =>
        match SerializeFields(fields[1..])
        case Err(e) => Err(e)
        case Ok(rest) => Ok([AttributeField(fields[0].key, a)] + rest)
  }

  function DeserializeNumber(text: Str): Result<Value, Raised> {
    match DecimalText.Parse(text)
    case None => Err(DecimalSignal)
    case Some(d) => if Accepted(d) then Ok(Dec(d)) else Err(DecimalSignal)
  }

  function Deserialize(a: Attribute): Result<Value, Raised>
    decreases a, 1
  {
    match a
    case NULL => Ok(NoneValue)
    case BOOL(b) => Ok(Bool(b))
    case N(text) => DeserializeNumber(text)
    case S(s) => Ok(Text(s))
    case L(items) =>
      (match DeserializeItems(items)
       case Err(e) => Err(e)
       case Ok(l) => Ok(List(l)))
    case M(fields) =>
      (match DeserializeFields(fields)
       case Err(e) => Err(e)
       case Ok(m) => Ok(Dict(m)))
  }

  function DeserializeItems(items: seq<Attribute>): Result<seq<Value>, Raised>
    decreases items, 0
  {
    if items == [] then Ok([])
    else
      match Deserialize(items[0])
      case Err(e) => Err(e)
      case Ok(v) =>
        match DeserializeItems(items[1..])
        case Err(e) => Err(e)
        case Ok(rest) => Ok([v] + rest)
  }

  function DeserializeFields(fields: seq<AttributeField>): Result<seq<Field>, Raised>
    decreases fields, 0
  {
    if fields == [] then Ok([])
    else
      match Deserialize(fields[0].value)
      case Err(e) => Err(e)
      case Ok(v) =>
        match DeserializeFields(fields[1..])
        case Err(e) => Err(e)
        case Ok(rest) => Ok([Field(fields[0].key, v)] + rest)
  }

  // ---- `_from_dynamo_value` ----

  function Pow10(n: nat): nat
    ensures Pow10(n) > 0
  {
    if n == 0 then 1 else 10 * Pow10(n - 1)
  }

  function Product(a: nat, b: nat): nat { a * b }

  function Quotient(a: nat, b: nat): nat
    requires b > 0
  {
    a / b
  }

  /** The integer part of the number, without its sign. */
  function Whole(d: Number): nat {
    if d.exponent >= 0 then Product(d.coefficient, Pow10(d.exponent))
    else Quotient(d.coefficient, Pow10(-d.exponent))
  }

  predicate Integral(d: Number) {
    d.exponent >= 0 || d.coefficient % Pow10(-d.exponent) == 0
  }

  /** `value % 1` under Python's default context of 28 digits: InvalidOperation when the integer
      quotient would need more. */
  predicate Divisible(d: Number) {
    Whole(d) < Pow10(28)
  }

  function Truncated(d: Number): int {
    if d.negative then -(Whole(d) as int) else Whole(d)
  }

  function FromNumber(d: Number): Result<Value, Raised> {
    if !Divisible(d) then Err(DecimalSignal)
    else if Integral(d) then Ok(Int(Truncated(d))) else Ok(Float(d))
  }

  function FromDynamo(v: Value): Result<Value, Raised>
    decreases v, 1
  {
    match v
    case Dec(d) => FromNumber(d)
    case Dict(fields) =>
      (match FromDynamoFields(fields)
       case Err(e) => Err(e)
       case Ok(m) => Ok(Dict(m)))
    case List(items) =>
      (match FromDynamoItems(items)
       case Err(e) => Err(e)
       case Ok(l) => Ok(List(l)))
    case _ => Ok(v)
  }

  function FromDynamoItems(items: seq<Value>): Result<seq<Value>, Raised>
    decreases items, 0
  {
    if items == [] then Ok([])
    else
      match FromDynamo(items[0])
      case Err(e) => Err(e)
      case Ok(v) =>
        match FromDynamoItems(items[1..])
        case Err(e) => Err(e)
        case Ok(rest) => Ok([v] + rest)
  }

  function FromDynamoFields(fields: seq<Field>): Result<seq<Field>, Raised>
    decreases fields, 0
  {
    if fields == [] then Ok([])
    else
      match FromDynamo(fields[0].value)
      case Err(e) => Err(e)
      case Ok(v) =>
        match FromDynamoFields(fields[1..])
        case Err(e) => Err(e)
        case Ok(rest) => Ok([Field(fields[0].key, v)] + rest)
  }

  // ---- whole items ----

  /** An item as it is put: each value made compatible, then typed. */
  function ToAttributeValueMap(item: seq<Field>): Result<seq<AttributeField>, PutError> {
    match SerializeFields(ToCompatibleFields(item))
    case Ok(m) => Ok(m)
    case Err(TypeError) => Err(Refused(UnsupportedValue))
    case Err(DecimalSignal) => Err(Uncaught)
  }

  /** An item as it is listed: each attribute value untyped, then its decimals made plain numbers. */
  function ToPlain(m: seq<AttributeField>): Result<seq<Field>, Raised> {
    match DeserializeFields(m)
    case Err(e) => Err(e)
    case Ok(fields) => FromDynamoFields(fields)
  }
}
