/** Schemas as Avro schema JSON, and back. */
module AvroSchema {
  import opened Common
  import opened BinaryIr
  import opened Decimal

  datatype Json = JStr(text: string) | JNum(number: nat) | JArr(items: seq<Json>) | JObj(members: seq<Member>)
  datatype Member = Member(key: string, value: Json)

  /** The position of a member, or the length. */
  function Find(members: seq<Member>, key: string): (i: nat)
    ensures i <= |members|
    ensures i < |members| ==> members[i].key == key
    ensures forall j :: 0 <= j < i ==> members[j].key != key
  {
    if members == [] then 0 else if members[0].key == key then 0 else 1 + Find(members[1..], key)
  }

  function Get(j: Json, key: string): Option<Json> {
    if !j.JObj? then None
    else
      var i := Find(j.members, key);
      if i < |j.members| then Some(j.members[i].value) else None
  }

  function Text(j: Option<Json>): Option<string> {
    if j.Some? && j.value.JStr? then Some(j.value.text) else None
  }

  function Word(j: Option<Json>): Option<nat> {
    if j.Some? && j.value.JNum? && j.value.number <= U32_MAX then Some(j.value.number) else None
  }

  // ---- to JSON -----------------------------------------------------------------------------------------

  function RecordName(n: nat): string {
    "maskura_record_" + ToDigits(n)
  }

  function SaturatingNext(n: nat): nat {
    if n < U32_MAX then n + 1 else U32_MAX
  }

  function LogicalJson(kind: string, logical: string): Json {
    JObj([Member("type", JStr(kind)), Member("logicalType", JStr(logical))])
  }

  datatype Written<T> = Written(json: T, records: nat)

  /** `schema_node_to_json`: the JSON and the advanced record counter. */
  function ToJson(node: Node, records: nat): Option<Written<Json>>
    decreases node, 1, 0
  {
    var raw := RawJson(node, records);
    if raw.None? then None
    else Some(raw.value.(json := if node.nullable then JArr([JStr("null"), raw.value.json]) else raw.value.json))
  }

  function RawJson(node: Node, records: nat): Option<Written<Json>>
    decreases node, 0, 0
  {
    match node.kind
    case Null => Some(Written(JStr("null"), records))
    case Boolean => Some(Written(JStr("boolean"), records))
    case I32 => Some(Written(JStr("int"), records))
    case I64 => Some(Written(JStr("long"), records))
    case F32 => Some(Written(JStr("float"), records))
    case F64 => Some(Written(JStr("double"), records))
    case Str => Some(Written(JStr("string"), records))
    case Blob => Some(Written(JStr("bytes"), records))
    case Date => Some(Written(LogicalJson("int", "date"), records))
    case Time => Some(Written(LogicalJson("long", "time-micros"), records))
    case Timestamp => Some(Written(LogicalJson("long", "timestamp-micros"), records))
    case Uuid => Some(Written(LogicalJson("string", "uuid"), records))
    case Decimal(precision, scale) =>
      Some(Written(JObj([Member("type", JStr("bytes")), Member("logicalType", JStr("decimal")),
                         Member("precision", JNum(precision)), Member("scale", JNum(scale))]), records))
    case Array(items) =>
      var inner := ToJson(items, records);
      if inner.None? then None
      else Some(inner.value.(json := JObj([Member("type", JStr("array")), Member("items", inner.value.json)])))
    case Map(values) =>
      var inner := ToJson(values, records);
      if inner.None? then None
      else Some(inner.value.(json := JObj([Member("type", JStr("map")), Member("values", inner.value.json)])))
    case Record(fields) =>
      var inner := FieldsToJson(fields, SaturatingNext(records));
      if inner.None? then None
      else Some(Written(JObj([Member("type", JStr("record")), Member("name", JStr(RecordName(records))),
                              Member("fields", JArr(inner.value.json))]), inner.value.records))
    case Custom(_, _) => None
  }

  /** The fields in order, the counter passed from one to the next. */
  function FieldsToJson(fields: seq<Field>, records: nat): (r: Option<Written<seq<Json>>>)
    ensures r.Some? ==> |r.value.json| == |fields|
    decreases fields, 2, 0
  {
    if fields == [] then Some(Written([], records))
    else
      var first := ToJson(fields[0].schema, records);
      if first.None? then None
      else
        var rest := FieldsToJson(fields[1..], first.value.records);
        if rest.None? then None
        else Some(rest.value.(json := [FieldJson(fields[0].name, first.value.json)] + rest.value.json))
  }

  function FieldJson(name: string, json: Json): Json {
    JObj([Member("name", JStr(name)), Member("type", json)])
  }

  // ---- from JSON ---------------------------------------------------------------------------------------

  function Primitive(kind: string): Option<Node> {
    if kind == "null" then Some(Node(false, Null))
    else if kind == "boolean" then Some(Node(false, Boolean))
    else if kind == "int" then Some(Node(false, I32))
    else if kind == "long" then Some(Node(false, I64))
    else if kind == "float" then Some(Node(false, F32))
    else if kind == "double" then Some(Node(false, F64))
    else if kind == "bytes" then Some(Node(false, Blob))
    else if kind == "string" then Some(Node(false, Str))
    else None
  }

  function LogicalNode(j: Json, kind: string, logical: string): Option<Node> {
    if kind == "int" && logical == "date" then Some(Node(false, Date))
    else if (kind == "int" && logical == "time-millis") || (kind == "long" && logical == "time-micros") then
      Some(Node(false, Time))
    else if kind == "long" && logical in ["timestamp-millis", "timestamp-micros", "timestamp-nanos"] then
      Some(Node(false, Timestamp))
    else if kind == "string" && logical == "uuid" then Some(Node(false, Uuid))
    else if kind == "bytes" && logical == "decimal" then
      var precision, scale := Word(Get(j, "precision")), Word(Get(j, "scale"));
      if precision.None? then None
      else Some(Node(false, Kind.Decimal(precision.value, if scale.Some? then scale.value else 0)))
    else None
  }

  predicate IsNullName(j: Json) {
    j == JStr("null")
  }

  /** `schema_node_from_json`. */
  function FromJson(j: Json): Option<Node>
    decreases j
  {
    match j
    case JStr(text) => Primitive(text)
    case JNum(_) => None
    case JArr(variants) =>
      if |variants| != 2 || (IsNullName(variants[0]) && IsNullName(variants[1])) then None
      else if !IsNullName(variants[0]) && !IsNullName(variants[1]) then None
      else
        var node := FromJson(if IsNullName(variants[0]) then variants[1] else variants[0]);
        if node.None? || node.value.kind.Null? then None else Some(node.value.(nullable := true))
    case JObj(members) =>
      var kind, logical := Text(Get(j, "type")), Text(Get(j, "logicalType"));
      if kind.None? then None
      else if logical.Some? then LogicalNode(j, kind.value, logical.value)
      else if kind.value == "record" then
        var i := Find(members, "fields");
        if i == |members| || !members[i].value.JArr? then None
        else
          var items := members[i].value.items;
          if forall k :: 0 <= k < |items| ==> FieldFromJson(items[k]).Some? then
            Some(Node(false,
              Record(seq(|items|, k requires 0 <= k < |items| && FieldFromJson(items[k]).Some? =>
              FieldFromJson(items[k]).value))))
          else None
      else if kind.value == "array" then
        var i := Find(members, "items");
        if i == |members| || FromJson(members[i].value).None? then None
        else Some(Node(false, Array(FromJson(members[i].value).value)))
      else if kind.value == "map" then
        var i := Find(members, "values");
        if i == |members| || FromJson(members[i].value).None? then None
        else Some(Node(false, Map(FromJson(members[i].value).value)))
      else Primitive(kind.value)
  }

  function FieldFromJson(j: Json): Option<Field>
    decreases j
  {
    if !j.JObj? then None
    else
      var name := Text(Get(j, "name"));
      var i := Find(j.members, "type");
      if name.None? || name.value == "" || i == |j.members| || FromJson(j.members[i].value).None? then None
      else Some(Field(name.value, FromJson(j.members[i].value).value))
  }
}
