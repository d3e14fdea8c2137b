/** The schema JSON reads back as the schema, and its record names are all different. */
module AvroSchemaTheorems {
  import opened Common
  import opened BinaryIr
  import opened Decimal
  import opened AvroSchema
  import SchemaValidation

  /** What a validated schema without custom nodes satisfies; precision and scale are 32-bit words. */
  predicate Writable(node: Node)
    decreases node
  {
    !(node.nullable && node.kind.Null?) &&
    match node.kind
    case Array(items) => Writable(items)
    case Map(values) => Writable(values)
    case Record(fields) => forall i :: 0 <= i < |fields| ==> fields[i].name != "" && Writable(fields[i].schema)
    case Decimal(precision, scale) => precision <= U32_MAX && scale <= U32_MAX
    case Custom(_, _) => false
    case _ => true
  }

  /** No custom node, and precisions that are 32-bit words. */
  predicate Encodable(node: Node)
    decreases node
  {
    match node.kind
    case Array(items) => Encodable(items)
    case Map(values) => Encodable(values)
    case Record(fields) => forall i :: 0 <= i < |fields| ==> Encodable(fields[i].schema)
    case Decimal(precision, scale) => precision <= U32_MAX && scale <= U32_MAX
    case Custom(_, _) => false
    case _ => true
  }

  lemma {:induction false} ValidatedIsWritable(node: Node)
    requires SchemaValidation.WellFormed(node) && Encodable(node)
    ensures Writable(node)
    decreases node
  {
    match node.kind
    case Array(items) => ValidatedIsWritable(items);
    case Map(values) => ValidatedIsWritable(values);
    case Record(fields) =>
      forall i | 0 <= i < |fields| ensures Writable(fields[i].schema) { ValidatedIsWritable(fields[i].schema); }
    case _ =>
  }

  lemma {:induction false} FindIs(members: seq<Member>, key: string, i: nat)
    requires i < |members| && members[i].key == key && forall j :: 0 <= j < i ==> members[j].key != key
    ensures Find(members, key) == i
  {
    hide Find;
  }

  lemma {:induction false} FindMissing(members: seq<Member>, key: string)
    requires forall j :: 0 <= j < |members| ==> members[j].key != key
    ensures Find(members, key) == |members|
  {
    hide Find;
  }

  lemma {:induction false} KeysDiffer()
    ensures "type" != "logicalType" && "type" != "items" && "type" != "values" && "type" != "fields" && "type" != "name"
    ensures "type" != "precision" && "type" != "scale" && "logicalType" != "precision" && "logicalType" != "scale"
    ensures "precision" != "scale" && "name" != "fields" && "logicalType" != "name" && "logicalType" != "fields"
    ensures "logicalType" != "items" && "logicalType" != "values"
  {
    assert |"type"| == 4 && |"logicalType"| == 11 && |"items"| == 5 && |"values"| == 6 && |"fields"| == 6;
    assert |"name"| == 4 && |"precision"| == 9 && |"scale"| == 5 && "name"[0] != "type"[0];
  }

  lemma {:induction false} LogicalReads(kind: string, logical: string)
    ensures FromJson(LogicalJson(kind, logical)) == LogicalNode(LogicalJson(kind, logical), kind, logical)
  {
    hide Find, LogicalNode;
    KeysDiffer();
    var j := LogicalJson(kind, logical);
    FindIs(j.members, "type", 0);
    FindIs(j.members, "logicalType", 1);
  }

  lemma {:induction false} LogicalRoundTrip(node: Node, records: nat)
    requires node.kind.Date? || node.kind.Time? || node.kind.Timestamp? || node.kind.Uuid?
    ensures RawJson(node, records).Some? && FromJson(RawJson(node, records).value.json) == Some(Node(false, node.kind))
  {
    hide FromJson;
    KindsDiffer();
    match node.kind
    case Date => LogicalReads("int", "date");
    case Time => LogicalReads("long", "time-micros");
    case Timestamp => LogicalReads("long", "timestamp-micros");
    case Uuid => LogicalReads("string", "uuid");
  }

  lemma {:induction false} KindsDiffer()
    ensures "int" != "long" && "int" != "string" && "long" != "string" && "bytes" != "int" && "bytes" != "long"
            && "bytes" != "string"
    ensures "timestamp-micros" in ["timestamp-millis", "timestamp-micros", "timestamp-nanos"]
    ensures "timestamp-micros" != "time-micros" && "date" != "uuid" && "time-micros" != "date"
    ensures "time-micros" !in ["timestamp-millis", "timestamp-micros", "timestamp-nanos"]
  {
    assert |"int"| == 3 && |"long"| == 4 && |"string"| == 6 && |"bytes"| == 5;
    assert |"timestamp-micros"| == 16 && |"time-micros"| == 11 && |"date"| == 4;
    assert "date"[0] == 'd' && "uuid"[0] == 'u';
    var names := ["timestamp-millis", "timestamp-micros", "timestamp-nanos"];
    assert names[1] == "timestamp-micros";
    assert |names[0]| == 16 && |names[2]| == 15;
  }

  lemma {:induction false} DecimalRoundTrip(precision: nat, scale: nat, nullable: bool, records: nat)
    requires precision <= U32_MAX && scale <= U32_MAX
    ensures var node := Node(nullable, Kind.Decimal(precision, scale));
            RawJson(node, records).Some? && FromJson(RawJson(node, records).value.json) == Some(Node(false, node.kind))
  {
    hide Find;
    KeysDiffer();
    KindsDiffer();
    var j := RawJson(Node(nullable, Kind.Decimal(precision, scale)), records).value.json;
    FindIs(j.members, "type", 0);
    FindIs(j.members, "logicalType", 1);
    FindIs(j.members, "precision", 2);
    FindIs(j.members, "scale", 3);
  }

  lemma {:induction false} ContainerReads(kind: string, key: string, inner: Json)
    requires key != "type" && key != "logicalType"
    ensures var j := JObj([Member("type", JStr(kind)), Member(key, inner)]);
            && Find(j.members, key) == 1 && Get(j, "type") == Some(JStr(kind)) && Get(j, "logicalType") == None
  {
    hide Find;
    KeysDiffer();
    var j := JObj([Member("type", JStr(kind)), Member(key, inner)]);
    FindIs(j.members, "type", 0);
    FindIs(j.members, key, 1);
    FindMissing(j.members, "logicalType");
  }

  lemma {:induction false} ShapesDiffer()
    ensures "array" != "record" && "map" != "record" && "map" != "array"
  {
    assert |"array"| == 5 && |"record"| == 6 && |"map"| == 3;
  }

  lemma {:induction false} ArrayReads(inner: Json)
    ensures FromJson(JObj([Member("type", JStr("array")), Member("items", inner)])) ==
            if FromJson(inner).None? then None else Some(Node(false, Array(FromJson(inner).value)))
  {
    hide Find;
    KeysDiffer();
    ShapesDiffer();
    ContainerReads("array", "items", inner);
  }

  lemma {:induction false} MapReads(inner: Json)
    ensures FromJson(JObj([Member("type", JStr("map")), Member("values", inner)])) ==
            if FromJson(inner).None? then None else Some(Node(false, Map(FromJson(inner).value)))
  {
    hide Find;
    KeysDiffer();
    ShapesDiffer();
    ContainerReads("map", "values", inner);
  }

  lemma {:induction false} FieldReads(name: string, json: Json)
    requires name != "" && FromJson(json).Some?
    ensures FieldFromJson(FieldJson(name, json)) == Some(Field(name, FromJson(json).value))
  {
    hide Find, FromJson;
    KeysDiffer();
    var j := FieldJson(name, json);
    FindIs(j.members, "name", 0);
    FindIs(j.members, "type", 1);
  }

  lemma {:induction false} RecordReads(name: string, items: seq<Json>, fields: seq<Field>)
    requires |items| == |fields| && forall k :: 0 <= k < |items| ==> FieldFromJson(items[k]) == Some(fields[k])
    ensures FromJson(JObj([Member("type", JStr("record")), Member("name", JStr(name)),
            Member("fields", JArr(items))])) ==
            Some(Node(false, Record(fields)))
  {
    hide Find, FieldFromJson;
    KeysDiffer();
    var j := JObj([Member("type", JStr("record")), Member("name", JStr(name)), Member("fields", JArr(items))]);
    FindIs(j.members, "type", 0);
    FindIs(j.members, "fields", 2);
    FindMissing(j.members, "logicalType");
    assert FromJson(j).value.kind.fields == fields;
  }

  lemma {:induction false} UnionReads(raw: Json, node: Node)
    requires FromJson(raw) == Some(Node(false, node.kind)) && !node.kind.Null?
    ensures FromJson(JArr([JStr("null"), raw])) == Some(Node(true, node.kind))
  {
    assert FromJson(JStr("null")) == Some(Node(false, Null));
    assert !IsNullName(raw);
  }

  /** Writing a schema and reading it back is the identity, wherever the counter stands. */
  lemma {:induction false} SchemaRoundTrip(node: Node, records: nat)
    requires Writable(node)
    ensures ToJson(node, records).Some? && FromJson(ToJson(node, records).value.json) == Some(node)
    decreases node, 1, 0
  {
    hide FromJson, RawJson, Writable;
    RawRoundTrip(node, records);
    NullNotNullable(node);
    if node.nullable { UnionReads(RawJson(node, records).value.json, node); }
  }

  lemma {:induction false} NullNotNullable(node: Node)
    requires Writable(node)
    ensures !(node.nullable && node.kind.Null?)
  {
  }

  lemma {:induction false} RawRoundTrip(node: Node, records: nat)
    requires Writable(node)
    ensures RawJson(node, records).Some? && FromJson(RawJson(node, records).value.json) == Some(Node(false, node.kind))
    decreases node, 0, 0
  {
    hide FromJson, ToJson, FieldsToJson;
    match node.kind
    case Array(items) =>
      SchemaRoundTrip(items, records);
      ArrayReads(ToJson(items, records).value.json);
    case Map(values) =>
      SchemaRoundTrip(values, records);
      MapReads(ToJson(values, records).value.json);
    case Record(fields) =>
      FieldsRoundTrip(fields, SaturatingNext(records));
      RecordReads(RecordName(records), FieldsToJson(fields, SaturatingNext(records)).value.json, fields);
    case Decimal(precision, scale) => DecimalRoundTrip(precision, scale, node.nullable, records);
    case Date => LogicalRoundTrip(node, records);
    case Time => LogicalRoundTrip(node, records);
    case Timestamp => LogicalRoundTrip(node, records);
    case Uuid => LogicalRoundTrip(node, records);
    case _ => PrimitiveRoundTrip(node, records);
  }

  lemma {:induction false} PrimitiveRoundTrip(node: Node, records: nat)
    requires node.kind.Null? || node.kind.Boolean? || node.kind.I32? || node.kind.I64? || node.kind.F32?
             || node.kind.F64?
             || node.kind.Str? || node.kind.Blob?
    ensures RawJson(node, records).Some? && FromJson(RawJson(node, records).value.json) == Some(Node(false, node.kind))
  {
    assert |"null"| == 4 && |"boolean"| == 7 && |"int"| == 3 && |"long"| == 4 && |"float"| == 5 && |"double"| == 6;
    assert |"bytes"| == 5 && |"string"| == 6;
    assert "null"[0] == 'n' && "long"[0] == 'l' && "float"[0] == 'f' && "bytes"[0] == 'b' && "double"[0] == 'd'
      && "string"[0] == 's';
  }

  lemma {:induction false} FieldsRoundTrip(fields: seq<Field>, records: nat)
    requires forall i :: 0 <= i < |fields| ==> fields[i].name != "" && Writable(fields[i].schema)
    ensures FieldsToJson(fields, records).Some?
    ensures var items := FieldsToJson(fields, records).value.json;
            forall k :: 0 <= k < |fields| ==> FieldFromJson(items[k]) == Some(fields[k])
    decreases fields, 2, 0
  {
    hide FromJson, ToJson, FieldFromJson, FieldJson;
    if fields != [] {
      SchemaRoundTrip(fields[0].schema, records);
      var first := ToJson(fields[0].schema, records).value;
      FieldReads(fields[0].name, first.json);
      FieldsRoundTrip(fields[1..], first.records);
      var items := FieldsToJson(fields, records).value.json;
      var rest := FieldsToJson(fields[1..], first.records).value.json;
      forall k | 0 <= k < |fields| ensures FieldFromJson(items[k]) == Some(fields[k]) {
        if k > 0 { assert items[k] == rest[k - 1] && fields[1..][k - 1] == fields[k]; }
      }
    }
  }

  // ---- record names ------------------------------------------------------------------------------------

  function Records(node: Node): nat
    decreases node, 0, 0
  {
    match node.kind
    case Array(items) => Records(items)
    case Map(values) => Records(values)
    case Record(fields) => 1 + RecordsIn(fields)
    case Custom(_, value) => Records(value)
    case _ => 0
  }

  function RecordsIn(fields: seq<Field>): nat
    decreases fields, 1, 0
  {
    if fields == [] then 0 else Records(fields[0].schema) + RecordsIn(fields[1..])
  }

  /** The record names of a schema document, in order. */
  function Names(j: Json): seq<string>
    decreases j, 0
  {
    match j
    case JStr(_) => []
    case JNum(_) => []
    case JArr(items) => NamesOfItems(items)
    case JObj(members) =>
      (if Get(j, "type") == Some(JStr("record")) && Get(j, "fields").Some? && Text(Get(j, "name")).Some? then
        [Text(Get(j, "name")).value] else []) +
      NamesOfMembers(members)
  }

  function NamesOfItems(items: seq<Json>): seq<string>
    decreases items, 1
  {
    if items == [] then [] else Names(items[0]) + NamesOfItems(items[1..])
  }

  function NamesOfMembers(members: seq<Member>): seq<string>
    decreases members, 1
  {
    if members == [] then [] else Names(members[0].value) + NamesOfMembers(members[1..])
  }

  /** The counter after `n` more records. */
  function Counter(records: nat, n: nat): nat {
    Min(records + n, U32_MAX)
  }

  /** The names given to `n` records from a counter on. */
  function NamesFrom(records: nat, n: nat): seq<string>
    decreases n
  {
    if n == 0 then [] else [RecordName(records)] + NamesFrom(SaturatingNext(records), n - 1)
  }

  lemma {:induction false} NamesJoin(records: nat, a: nat, b: nat)
    requires records <= U32_MAX
    ensures NamesFrom(records, a + b) == NamesFrom(records, a) + NamesFrom(Counter(records, a), b)
    decreases a
  {
    hide RecordName;
    if a == 0 {
      assert [] + NamesFrom(records, b) == NamesFrom(records, b);
    } else {
      NamesJoin(SaturatingNext(records), a - 1, b);
      assert Counter(SaturatingNext(records), a - 1) == Counter(records, a);
    }
  }

  lemma {:induction false} TwoMembers(a: Member, b: Member)
    ensures NamesOfMembers([a, b]) == Names(a.value) + Names(b.value)
  {
    hide Names;
    assert [a, b][1..] == [b] && [b][1..] == [];
    assert NamesOfMembers([b]) == Names(b.value) + [];
  }

  lemma {:induction false} ThreeMembers(a: Member, b: Member, c: Member)
    ensures NamesOfMembers([a, b, c]) == Names(a.value) + (Names(b.value) + Names(c.value))
  {
    hide Names;
    assert [a, b, c][1..] == [b, c];
    TwoMembers(b, c);
  }

  lemma {:induction false} JsonNames(node: Node, records: nat)
    requires ToJson(node, records).Some? && records <= U32_MAX
    ensures var w := ToJson(node, records).value;
            Names(w.json) == NamesFrom(records, Records(node)) && w.records == Counter(records, Records(node))
    decreases node, 1, 0
  {
    hide RawJson, NamesFrom, Counter;
    RawNames(node, records);
    if node.nullable {
      var raw := RawJson(node, records).value.json;
      var pair := [JStr("null"), raw];
      assert pair[1..] == [raw] && [raw][1..] == [];
      assert NamesOfItems([raw]) == Names(raw) + [];
      assert Names(JStr("null")) == [];
      assert NamesOfItems(pair) == [] + Names(raw);
    }
  }

  lemma {:induction false} RawNames(node: Node, records: nat)
    requires RawJson(node, records).Some? && records <= U32_MAX
    ensures var w := RawJson(node, records).value;
            Names(w.json) == NamesFrom(records, Records(node)) && w.records == Counter(records, Records(node))
    decreases node, 0, 1
  {
    hide ToJson, FieldsToJson, Find;
    match node.kind
    case Array(items) =>
      JsonNames(items, records);
      ContainerNames("array", "items", ToJson(items, records).value.json);
    case Map(values) =>
      JsonNames(values, records);
      ContainerNames("map", "values", ToJson(values, records).value.json);
    case Record(fields) => RecordNames(node, records);
    case _ => PlainNames(node, records);
  }

  lemma {:induction false} ContainerNames(kind: string, key: string, inner: Json)
    requires key != "type" && key != "logicalType" && kind != "record"
    ensures Names(JObj([Member("type", JStr(kind)), Member(key, inner)])) == Names(inner)
  {
    hide Find;
    ContainerReads(kind, key, inner);
    TwoMembers(Member("type", JStr(kind)), Member(key, inner));
    assert Names(JStr(kind)) == [];
    assert [] + Names(inner) == Names(inner);
  }

  lemma {:induction false} PlainNames(node: Node, records: nat)
    requires !node.kind.Array? && !node.kind.Map? && !node.kind.Record? && RawJson(node, records).Some?
             && records <= U32_MAX
    ensures var w := RawJson(node, records).value;
            Names(w.json) == NamesFrom(records, Records(node)) && w.records == Counter(records, Records(node))
  {
    hide Find;
    assert Records(node) == 0 && NamesFrom(records, 0) == [] && Counter(records, 0) == records;
    var j := RawJson(node, records).value.json;
    if j.JObj? {
      LogicalHasNoNames(j);
    }
  }

  /** An object of plain members whose type is not `record`. */
  lemma {:induction false} LogicalHasNoNames(j: Json)
    requires j.JObj? && |j.members| >= 1 && j.members[0].key == "type" && j.members[0].value.JStr?
    requires j.members[0].value.text in ["int", "long", "string", "bytes"]
    requires forall i :: 0 <= i < |j.members| ==> j.members[i].value.JStr? || j.members[i].value.JNum?
    ensures Names(j) == []
  {
    hide Find;
    FindIs(j.members, "type", 0);
    assert |"record"| == 6 && "record"[0] == 'r' && |"int"| == 3 && |"long"| == 4 && |"bytes"| == 5
      && "string"[0] == 's';
    PlainMembers(j.members);
  }

  lemma {:induction false} PlainMembers(members: seq<Member>)
    requires forall i :: 0 <= i < |members| ==> members[i].value.JStr? || members[i].value.JNum?
    ensures NamesOfMembers(members) == []
    decreases |members|
  {
    if members != [] {
      PlainMembers(members[1..]);
      assert Names(members[0].value) == [];
    }
  }

  lemma {:induction false} RecordNames(node: Node, records: nat)
    requires node.kind.Record? && RawJson(node, records).Some? && records <= U32_MAX
    ensures var w := RawJson(node, records).value;
            Names(w.json) == NamesFrom(records, Records(node)) && w.records == Counter(records, Records(node))
    decreases node, 0, 0
  {
    hide ToJson, FieldsToJson, Find, RecordName;
    var fields := node.kind.fields;
    var next := SaturatingNext(records);
    var inner := FieldsToJson(fields, next).value;
    FieldsNames(fields, next);
    KeysDiffer();
    var j := RawJson(node, records).value.json;
    FindIs(j.members, "type", 0);
    FindIs(j.members, "name", 1);
    FindIs(j.members, "fields", 2);
    ThreeMembers(j.members[0], j.members[1], j.members[2]);
    assert Names(JStr("record")) == [] && Names(JStr(RecordName(records))) == [];
    assert Names(JArr(inner.json)) == NamesOfItems(inner.json);
    assert [] + ([] + NamesOfItems(inner.json)) == NamesOfItems(inner.json);
    assert Counter(next, RecordsIn(fields)) == Counter(records, 1 + RecordsIn(fields));
  }

  lemma {:induction false} FieldsNames(fields: seq<Field>, records: nat)
    requires FieldsToJson(fields, records).Some? && records <= U32_MAX
    ensures var w := FieldsToJson(fields, records).value;
            NamesOfItems(w.json) == NamesFrom(records, RecordsIn(fields))
              && w.records == Counter(records, RecordsIn(fields))
    decreases fields, 2, 0
  {
    hide ToJson, Find, RecordName, Names, NamesFrom, FieldJson;
    if fields == [] {
      NoNames(records);
    } else {
      var first := ToJson(fields[0].schema, records).value;
      JsonNames(fields[0].schema, records);
      var n, m := Records(fields[0].schema), RecordsIn(fields[1..]);
      FieldsNames(fields[1..], first.records);
      FieldHasNames(fields[0].name, first.json);
      NamesJoin(records, n, m);
      var items := FieldsToJson(fields, records).value.json;
      assert items[1..] == FieldsToJson(fields[1..], first.records).value.json;
    }
  }

  lemma {:induction false} NoNames(records: nat)
    requires records <= U32_MAX
    ensures NamesFrom(records, 0) == [] && Counter(records, 0) == records
  {
  }

  lemma {:induction false} FieldHasNames(name: string, json: Json)
    ensures Names(FieldJson(name, json)) == Names(json)
  {
    hide Find;
    KeysDiffer();
    var j := FieldJson(name, json);
    FindMissing(j.members, "fields");
    TwoMembers(j.members[0], j.members[1]);
    assert Names(JStr(name)) == [];
    assert [] + Names(json) == Names(json);
  }

  lemma {:induction false} NameAt(records: nat, n: nat, k: nat)
    requires records <= U32_MAX && k < n
    ensures |NamesFrom(records, n)| == n && NamesFrom(records, n)[k] == RecordName(Counter(records, k))
    decreases n
  {
    hide RecordName;
    if k == 0 {
      if n > 1 { NameAt(SaturatingNext(records), n - 1, 0); }
    } else {
      NameAt(SaturatingNext(records), n - 1, k - 1);
      assert Counter(SaturatingNext(records), k - 1) == Counter(records, k);
    }
  }

  lemma {:induction false} NamesAreNumbers(a: nat, b: nat)
    requires RecordName(a) == RecordName(b)
    ensures a == b
  {
    hide ToDigits, FromDigits;
    var prefix := "maskura_record_";
    assert RecordName(a)[|prefix|..] == ToDigits(a) && RecordName(b)[|prefix|..] == ToDigits(b);
    DigitsRoundTrip(a);
    DigitsRoundTrip(b);
  }

  predicate AllDifferent(names: seq<string>) {
    forall i, j :: 0 <= i < j < |names| ==> names[i] != names[j]
  }

  /**
   The record names of a written schema are all different exactly when it has at most 2^32 records; beyond
   that the counter stays at its last value.
   */
  lemma {:induction false} NamesDifferExactly(root: Node)
    requires ToJson(root, 0).Some?
    ensures AllDifferent(Names(ToJson(root, 0).value.json)) <==> Records(root) <= U32_MAX + 1
  {
    hide ToJson, Names, RecordName, NamesFrom, Records;
    JsonNames(root, 0);
    var n := Records(root);
    var names := NamesFrom(0, n);
    if n > 0 { NameAt(0, n, 0); } else { NoNames(0); }
    if n <= U32_MAX + 1 {
      forall i, j | 0 <= i < j < n ensures names[i] != names[j] {
        NameAt(0, n, i);
        NameAt(0, n, j);
        if names[i] == names[j] { NamesAreNumbers(Counter(0, i), Counter(0, j)); }
      }
    } else {
      NameAt(0, n, U32_MAX);
      NameAt(0, n, U32_MAX + 1);
      assert names[U32_MAX] == names[U32_MAX + 1];
    }
  }

  /** Records nested `n` deep. */
  function Tower(n: nat): Node {
    if n == 0 then Node(false, Str) else Node(false, Record([Field("a", Tower(n - 1))]))
  }

  lemma {:induction false} TowerIs(n: nat)
    ensures Writable(Tower(n)) && Records(Tower(n)) == n
  {
    if n > 0 {
      TowerIs(n - 1);
      var fields := [Field("a", Tower(n - 1))];
      assert fields[1..] == [] && RecordsIn(fields) == Records(fields[0].schema) + RecordsIn(fields[1..]);
    }
  }

  /** Schemas whose record names do collide. */
  lemma {:induction false} NamesCollide(n: nat)
    requires n > U32_MAX + 1
    ensures ToJson(Tower(n), 0).Some? && !AllDifferent(Names(ToJson(Tower(n), 0).value.json))
  {
    hide ToJson, Names, Writable, Records, FromJson, Tower;
    TowerIs(n);
    SchemaRoundTrip(Tower(n), 0);
    NamesDifferExactly(Tower(n));
  }

  // ---- within the validator's limits names never collide ------------------------------------------------

  lemma {:induction false} TotalsCons(fields: seq<Field>)
    requires fields != []
    ensures SchemaValidation.FieldTotals(fields) ==
            SchemaValidation.FieldTotal(fields[0].schema) + SchemaValidation.FieldTotals(fields[1..])
    decreases |fields|
  {
    hide SchemaValidation.FieldTotal;
    var last := |fields| - 1;
    if last > 0 {
      TotalsCons(fields[..last]);
      assert fields[..last][1..] == fields[1..][..last - 1] && fields[1..][last - 1] == fields[last];
    }
  }

  /** Every record but the outermost sits under a field of its own. */
  lemma {:induction false} RecordsWithinFields(node: Node)
    ensures Records(node) <= 1 + SchemaValidation.FieldTotal(node)
    decreases node, 0
  {
    match node.kind
    case Array(items) => RecordsWithinFields(items);
    case Map(values) => RecordsWithinFields(values);
    case Record(fields) => RecordsInWithinFields(fields);
    case Custom(_, value) => RecordsWithinFields(value);
    case _ =>
  }

  lemma {:induction false} RecordsInWithinFields(fields: seq<Field>)
    ensures RecordsIn(fields) <= |fields| + SchemaValidation.FieldTotals(fields)
    decreases fields, 1
  {
    hide SchemaValidation.FieldTotal, SchemaValidation.FieldTotals, Records;
    if fields != [] {
      TotalsCons(fields);
      RecordsWithinFields(fields[0].schema);
      RecordsInWithinFields(fields[1..]);
    }
  }

  /** A schema validated under a field limit of 32 bits is written with different record names. */
  lemma {:induction false} ValidatedNamesDiffer(limits: SchemaValidation.Limits, root: Node)
    requires SchemaValidation.Accepts(limits, 0, 0, root) && limits.maxFields <= U32_MAX && Encodable(root)
    ensures ToJson(root, 0).Some? && AllDifferent(Names(ToJson(root, 0).value.json))
  {
    hide ToJson, Names, Writable, Records, FromJson, Encodable, SchemaValidation.FieldTotal;
    ValidatedIsWritable(root);
    SchemaRoundTrip(root, 0);
    RecordsWithinFields(root);
    NamesDifferExactly(root);
  }
}
