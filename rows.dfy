/** The dynamic value model of `src/types.rs`: JSON values as the engine
    receives and renders them, `RowField` (one typed column value) and
    `Row` (a record keyed by field name), with the decoding of a JSON
    object into a row and the rendering of a row back to JSON. */
module Rows {
  import opened Common

  /** A 64-bit float, kept opaque: either a bit pattern or the float that
      converting an integer produces. Nothing numeric is said about it. */
  datatype F64 = Bits(pattern: nat) | FromInteger(i: int)

  /** A JSON number: serde_json keeps integers and floats apart. */
  datatype Number = IntNumber(i: int) | FloatNumber(f: F64)

  /** A JSON value. An object is a map: serde_json keeps one value per key. */
  datatype Json =
    | JNull
    | JBool(b: bool)
    | JNumber(n: Number)
    | JString(s: string)
    | JArray(items: seq<Json>)
    | JObject(members: map<string, Json>)

  /** One column value. `DateTime` holds seconds since the epoch. */
  datatype RowField =
    | String(s: string)
    | Integer(i: int)
    | Float(f: F64)
    | Boolean(b: bool)
    | DateTime(t: int)
    | Null

  datatype Row = Row(fields: map<string, RowField>)

  /** `RowField::to_value`. Dates render as plain integers. */
  function FieldToJson(f: RowField): (v: Json)
    ensures f.Null? <==> v.JNull?
    ensures f.Integer? || f.DateTime? <==> v.JNumber? && v.n.IntNumber?
  {
    match f
    case String(s) => JString(s)
    case Integer(i) => JNumber(IntNumber(i))
    case Float(x) => JNumber(FloatNumber(x))
    case DateTime(t) => JNumber(IntNumber(t))
    case Boolean(b) => JBool(b)
    case Null => JNull
  }

  /** `RowField::get_int`. */
  function FieldInt(f: RowField): (r: Option<int>)
    ensures r.Some? <==> f.Integer?
    ensures r.Some? ==> f == Integer(r.value)
  {
    if f.Integer? then Some(f.i) else None
  }

  /** Decoding of one member of an inbound JSON object, as `Row::from_value`
      does it: booleans, strings, floats and integers that fit in 64 bits
      are accepted; null, arrays and objects are not. */
  function DecodeMember(v: Json): (r: Result<RowField>)
    ensures r.Ok? <==> (v.JBool? || v.JString? || (v.JNumber? && (v.n.FloatNumber? || InI64(v.n.i))))
    ensures r.Ok? && v.JNumber? && v.n.IntNumber? ==> r.value == Integer(v.n.i)
    ensures r.Ok? ==> FieldToJson(r.value) == v
  {
    match v
    case JBool(b) => Ok(Boolean(b))
    case JNumber(n) =>
      (match n
       case FloatNumber(x) => Ok(Float(x))
       case IntNumber(i) => if InI64(i) then Ok(Integer(i)) else Err(InvalidInput))
    case JString(s) => Ok(String(s))
    case _ => Err(InvalidDataType)
  }

  /** A JSON value that `Row::from_value` accepts. */
  predicate Decodable(v: Json)
  {
    v.JObject? && forall k | k in v.members :: DecodeMember(v.members[k]).Ok?
  }

  /** The row an acceptable JSON object decodes to. */
  function DecodedRow(v: Json): Row
    requires Decodable(v)
  {
    Row(map k | k in v.members :: DecodeMember(v.members[k]).value)
  }

  /** `Row::from_value`: a non-object is refused; inside an object every
      member is decoded and the first member that cannot be decoded makes
      the whole conversion fail with that member's error. serde_json visits
      keys in its own order, which the model leaves open. */
  method FromValue(v: Json) returns (r: Result<Row>)
    ensures !v.JObject? ==> r == Err(InvalidData)
    ensures r.Ok? <==> Decodable(v)
    ensures r.Ok? ==> r.value == DecodedRow(v) && r.value.fields.Keys == v.members.Keys
    ensures r.Err? && v.JObject? ==> exists k | k in v.members :: DecodeMember(v.members[k]) == Err(r.error)
  {
    if !v.JObject? {
      return Err(InvalidData);
    }
    var o := v.members;
    var ret: map<string, RowField> := map[];
    var todo := o.Keys;
    while todo != {}
      invariant todo <= o.Keys
      invariant ret.Keys == o.Keys - todo
      invariant forall k | k in ret :: DecodeMember(o[k]) == Ok(ret[k])
      decreases |todo|
    {
      var k :| k in todo;
      var f := DecodeMember(o[k]);
      if f.Err? {
        return Err(f.error);
      }
      ret := ret[k := f.value];
      todo := todo - {k};
    }
    r := Ok(Row(ret));
    assert ret == DecodedRow(v).fields;
  }

  /** The JSON object a row renders to. */
  function EncodeRow(row: Row): Json
  {
    JObject(map k | k in row.fields :: FieldToJson(row.fields[k]))
  }

  /** `Row::to_value`: one member per field, rendered by `RowField::to_value`. */
  method ToValue(row: Row) returns (v: Json)
    ensures v == EncodeRow(row)
    ensures v.JObject? && v.members.Keys == row.fields.Keys
  {
    var ret: map<string, Json> := map[];
    var todo := row.fields.Keys;
    while todo != {}
      invariant todo <= row.fields.Keys
      invariant ret.Keys == row.fields.Keys - todo
      invariant forall k | k in ret :: ret[k] == FieldToJson(row.fields[k])
      decreases |todo|
    {
      var k :| k in todo;
      ret := ret[k := FieldToJson(row.fields[k])];
      todo := todo - {k};
    }
    v := JObject(ret);
  }

  /** A row whose every value survives a trip through JSON unchanged: no
      nulls, no dates (they come back as integers) and only 64-bit integers. */
  predicate JsonStable(row: Row)
  {
    forall k | k in row.fields ::
      !row.fields[k].Null? && !row.fields[k].DateTime? && (row.fields[k].Integer? ==> InI64(row.fields[k].i))
  }

  /** Rendering a stable row and decoding it again gives the row back. */
  lemma RowJsonRoundTrip(row: Row)
    requires JsonStable(row)
    ensures Decodable(EncodeRow(row))
    ensures DecodedRow(EncodeRow(row)) == row
  {
    var v := EncodeRow(row);
    forall k | k in v.members ensures DecodeMember(v.members[k]) == Ok(row.fields[k]) {
      var f := row.fields[k];
      match f
      case String(s) =>
      case Integer(i) =>
      case Float(x) =>
      case Boolean(b) =>
    }
    assert DecodedRow(v).fields == row.fields;
  }

  /** A date survives the trip as an integer of the same value: the JSON side
      does not keep the difference. */
  lemma DateTimeComesBackAsInteger(row: Row, k: string)
    requires k in row.fields && row.fields[k].DateTime? && InI64(row.fields[k].t)
    requires Decodable(EncodeRow(row))
    ensures DecodedRow(EncodeRow(row)).fields[k] == Integer(row.fields[k].t)
  {
  }

  // ---------------------------------------------------------------- accessors

  /** `Row::get`. */
  function Get(row: Row, field: string): (r: Option<RowField>)
    ensures r.Some? <==> field in row.fields
    ensures r.Some? ==> r.value == row.fields[field]
  {
    if field in row.fields then Some(row.fields[field]) else None
  }

  /** `Row::set`: insert or overwrite one field, leaving the others alone. */
  function Set(row: Row, field: string, val: RowField): (r: Row)
    ensures Get(r, field) == Some(val)
    ensures r.fields.Keys == row.fields.Keys + {field}
    ensures forall k | k in row.fields && k != field :: Get(r, k) == Get(row, k)
  {
    Row(row.fields[field := val])
  }

  /** `Row::get_str`: the text of a `String` field, nothing for any other kind. */
  function GetStr(row: Row, field: string): (r: Option<string>)
    ensures r.Some? <==> field in row.fields && row.fields[field].String?
    ensures r.Some? ==> row.fields[field] == String(r.value)
  {
    match Get(row, field)
    case Some(String(s)) => Some(s)
    case _ => None
  }

  /** `Row::get_int`: the value of an `Integer` field; a date does not count. */
  function GetInt(row: Row, field: string): (r: Option<int>)
    ensures r.Some? <==> field in row.fields && row.fields[field].Integer?
    ensures r.Some? ==> row.fields[field] == Integer(r.value)
  {
    match Get(row, field)
    case Some(Integer(i)) => Some(i)
    case _ => None
  }
}
