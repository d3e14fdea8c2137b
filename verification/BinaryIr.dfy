/** Typed schemas and values, positions in them, and what it means for a value to fit a schema. */
module BinaryIr {
  import opened Common

  datatype Node = Node(nullable: bool, kind: Kind)

  datatype Kind =
    | Null | Boolean | I32 | I64 | F32 | F64 | Str | Blob
    | Array(items: Node)
    | Map(values: Node)
    | Record(fields: seq<Field>)
    | Date | Time | Timestamp | Uuid
    | Decimal(precision: nat, scale: nat)
    | Custom(typeId: string, value: Node)

  datatype Field = Field(name: string, schema: Node)

  datatype Value =
    | VNull | VBoolean(flag: bool) | VI32(number: int) | VI64(number: int) | VF32(bits: nat) | VF64(bits: nat)
    | VStr(text: string) | VBlob(bytes: Bytes)
    | VArray(items: seq<Value>)
    | VMap(entries: seq<Entry>)
    | VRecord(fields: seq<Slot>)
    | VDate(text: string) | VTime(text: string) | VTimestamp(text: string) | VUuid(text: string)
      | VDecimal(text: string)
    | VCustom(typeId: string, value: Value)

  datatype Entry = Entry(key: string, value: Value)
  datatype Slot = Slot(name: string, value: Value)

  /** One step into a schema, and one step into a value. */
  datatype Step = InField(name: string) | Element | MapValue | Logical
  datatype At = AtField(name: string) | AtIndex(index: nat) | AtKey(key: string) | AtLogical

  type Path = seq<Step>
  type Position = seq<At>

  /** The formats the model does not look into. */
  datatype Formats = Formats(
    date: string -> bool, time: string -> bool, timestamp: string -> bool, uuid: string -> bool,
    decimal: string -> Option<Precision>)

  datatype Precision = Precision(precision: nat, scale: nat)

  // ---- lookup ------------------------------------------------------------------------------------

  function FindField(fields: seq<Field>, name: string): (i: nat)
    ensures i <= |fields|
    ensures i < |fields| ==> fields[i].name == name
    ensures forall j :: 0 <= j < i ==> fields[j].name != name
  {
    if fields == [] then 0 else if fields[0].name == name then 0 else 1 + FindField(fields[1..], name)
  }

  function FindSlot(fields: seq<Slot>, name: string): (i: nat)
    ensures i <= |fields|
    ensures i < |fields| ==> fields[i].name == name
    ensures forall j :: 0 <= j < i ==> fields[j].name != name
  {
    if fields == [] then 0 else if fields[0].name == name then 0 else 1 + FindSlot(fields[1..], name)
  }

  function FindKey(entries: seq<Entry>, key: string): (i: nat)
    ensures i <= |entries|
    ensures i < |entries| ==> entries[i].key == key
    ensures forall j :: 0 <= j < i ==> entries[j].key != key
  {
    if entries == [] then 0 else if entries[0].key == key then 0 else 1 + FindKey(entries[1..], key)
  }

  function Child(node: Node, step: Step): Option<Node> {
    if node.kind.Array? && step.Element? then Some(node.kind.items)
    else if node.kind.Map? && step.MapValue? then Some(node.kind.values)
    else if node.kind.Custom? && step.Logical? then Some(node.kind.value)
    else if node.kind.Record? && step.InField? then
      var i := FindField(node.kind.fields, step.name);
      if i < |node.kind.fields| then Some(node.kind.fields[i].schema) else None
    else None
  }

  function NodeAt(node: Node, path: Path): Option<Node>
    decreases |path|
  {
    if path == [] then Some(node)
    else if Child(node, path[0]).None? then None
    else NodeAt(Child(node, path[0]).value, path[1..])
  }

  function ChildValue(v: Value, at: At): Option<Value> {
    if v.VArray? && at.AtIndex? then (if at.index < |v.items| then Some(v.items[at.index]) else None)
    else if v.VCustom? && at.AtLogical? then Some(v.value)
    else if v.VMap? && at.AtKey? then
      var i := FindKey(v.entries, at.key);
      if i < |v.entries| then Some(v.entries[i].value) else None
    else if v.VRecord? && at.AtField? then
      var i := FindSlot(v.fields, at.name);
      if i < |v.fields| then Some(v.fields[i].value) else None
    else None
  }

  function ValueAt(v: Value, at: Position): Option<Value>
    decreases |at|
  {
    if at == [] then Some(v)
    else if ChildValue(v, at[0]).None? then None
    else ValueAt(ChildValue(v, at[0]).value, at[1..])
  }

  predicate StepSelects(step: Step, at: At) {
    match step
    case InField(name) => at == AtField(name)
    case Element => at.AtIndex?
    case MapValue => at.AtKey?
    case Logical => at.AtLogical?
  }

  /** A schema path selects the positions that take its steps, into any element and any map value. */
  predicate Selects(path: Path, at: Position) {
    |path| == |at| && forall i :: 0 <= i < |path| ==> StepSelects(path[i], at[i])
  }

  // ---- values against schemas ----------------------------------------------------------------------

  predicate DecimalFits(f: Formats, text: string, precision: nat, scale: nat) {
    var parsed := f.decimal(text);
    parsed.Some? && parsed.value.scale == scale && parsed.value.precision <= precision
  }

  predicate Conforms(f: Formats, v: Value, node: Node)
    decreases v
  {
    match v
    case VNull => node.nullable || node.kind.Null?
    case VBoolean(_) => node.kind.Boolean?
    case VI32(_) => node.kind.I32?
    case VI64(_) => node.kind.I64?
    case VF32(_) => node.kind.F32?
    case VF64(_) => node.kind.F64?
    case VStr(_) => node.kind.Str?
    case VBlob(_) => node.kind.Blob?
    case VDate(_) => node.kind.Date?
    case VTime(_) => node.kind.Time?
    case VTimestamp(_) => node.kind.Timestamp?
    case VUuid(_) => node.kind.Uuid?
    case VDecimal(text) => node.kind.Decimal? && DecimalFits(f, text, node.kind.precision, node.kind.scale)
    case VArray(items) => node.kind.Array? && forall i :: 0 <= i < |items| ==> Conforms(f, items[i], node.kind.items)
    case VMap(entries) => node.kind.Map? && forall i :: 0 <= i < |entries| ==>
      Conforms(f, entries[i].value, node.kind.values)
    case VRecord(fields) =>
      && node.kind.Record? && |fields| == |node.kind.fields|
      && forall i :: 0 <= i < |fields| ==>
           fields[i].name == node.kind.fields[i].name && Conforms(f, fields[i].value, node.kind.fields[i].schema)
    case VCustom(id, inner) => node.kind.Custom? && id == node.kind.typeId && Conforms(f, inner, node.kind.value)
  }

  /** String order by code point. */
  predicate Before(a: string, b: string) {
    b != [] && (a == [] || a[0] < b[0] || (a[0] == b[0] && Before(a[1..], b[1..])))
  }

  /** What a value must satisfy whatever its schema, apart from its depth. */
  predicate SelfValid(f: Formats, v: Value)
    decreases v
  {
    match v
    case VArray(items) => forall i :: 0 <= i < |items| ==> SelfValid(f, items[i])
    case VMap(entries) =>
      && (forall i :: 0 < i < |entries| ==> Before(entries[i - 1].key, entries[i].key))
      && (forall i :: 0 <= i < |entries| ==> SelfValid(f, entries[i].value))
    case VRecord(fields) =>
      && (forall i :: 0 <= i < |fields| ==> fields[i].name != "" && SelfValid(f, fields[i].value))
      && (forall i, j :: 0 <= i < j < |fields| ==> fields[i].name != fields[j].name)
    case VDate(text) => f.date(text)
    case VTime(text) => f.time(text)
    case VTimestamp(text) => f.timestamp(text)
    case VUuid(text) => f.uuid(text)
    case VDecimal(text) => f.decimal(text).Some?
    case VCustom(id, inner) => id != "" && SelfValid(f, inner)
    case _ => true
  }

  /** No position of the value is deeper than `limit`. */
  predicate NoDeeper(v: Value, limit: int)
    decreases v
  {
    limit >= 0 &&
    match v
    case VArray(items) => forall i :: 0 <= i < |items| ==> NoDeeper(items[i], limit - 1)
    case VMap(entries) => forall i :: 0 <= i < |entries| ==> NoDeeper(entries[i].value, limit - 1)
    case VRecord(fields) => forall i :: 0 <= i < |fields| ==> NoDeeper(fields[i].value, limit - 1)
    case VCustom(_, inner) => NoDeeper(inner, limit - 1)
    case _ => true
  }

  /** No node of the schema is deeper than `limit`. */
  predicate SchemaNoDeeper(node: Node, limit: int)
    decreases node
  {
    limit >= 0 &&
    match node.kind
    case Array(items) => SchemaNoDeeper(items, limit - 1)
    case Map(values) => SchemaNoDeeper(values, limit - 1)
    case Record(fields) => forall i :: 0 <= i < |fields| ==> SchemaNoDeeper(fields[i].schema, limit - 1)
    case Custom(_, value) => SchemaNoDeeper(value, limit - 1)
    case _ => true
  }

  /** A value is no deeper than a schema it conforms to. */
  lemma {:induction false} ConformingDepth(f: Formats, v: Value, node: Node, limit: int)
    requires Conforms(f, v, node) && SchemaNoDeeper(node, limit)
    ensures NoDeeper(v, limit)
    decreases v
  {
    match v
    case VArray(items) =>
      forall i | 0 <= i < |items| ensures NoDeeper(items[i], limit - 1) {
        ConformingDepth(f, items[i], node.kind.items, limit - 1);
      }
    case VMap(entries) =>
      forall i | 0 <= i < |entries| ensures NoDeeper(entries[i].value, limit - 1) {
        ConformingDepth(f, entries[i].value, node.kind.values, limit - 1);
      }
    case VRecord(fields) =>
      forall i | 0 <= i < |fields| ensures NoDeeper(fields[i].value, limit - 1) {
        ConformingDepth(f, fields[i].value, node.kind.fields[i].schema, limit - 1);
      }
    case VCustom(_, inner) => ConformingDepth(f, inner, node.kind.value, limit - 1);
    case _ =>
  }

  /** `ValueIr::validate`, once the schema is valid. */
  predicate ValidValue(f: Formats, v: Value, node: Node, maxDepth: nat) {
    NoDeeper(v, maxDepth) && SelfValid(f, v) && Conforms(f, v, node)
  }

  // ---- string order and map keys ---------------------------------------------------------------------

  lemma {:induction false} BeforeTotal(a: string, b: string)
    ensures Before(a, b) || a == b || Before(b, a)
    decreases |a|
  {
    if a != [] && b != [] && a[0] == b[0] {
      BeforeTotal(a[1..], b[1..]);
      assert a == [a[0]] + a[1..] && b == [b[0]] + b[1..];
    }
  }

  lemma {:induction false} BeforeAsymmetric(a: string, b: string)
    requires Before(a, b)
    ensures !Before(b, a) && a != b
    decreases |a|
  {
    if a != [] && a[0] == b[0] { BeforeAsymmetric(a[1..], b[1..]); }
  }

  lemma {:induction false} BeforeTransitive(a: string, b: string, c: string)
    requires Before(a, b) && Before(b, c)
    ensures Before(a, c)
    decreases |a|
  {
    if a != [] && a[0] == b[0] && b[0] == c[0] { BeforeTransitive(a[1..], b[1..], c[1..]); }
  }

  lemma {:induction false} NeverBeforeItself(a: string)
    ensures !Before(a, a)
    decreases |a|
  {
    if a != [] { NeverBeforeItself(a[1..]); }
  }

  lemma {:induction false} KeysAscend(entries: seq<Entry>, i: nat, j: nat)
    requires forall k :: 0 < k < |entries| ==> Before(entries[k - 1].key, entries[k].key)
    requires i < j < |entries|
    ensures Before(entries[i].key, entries[j].key) && entries[i].key != entries[j].key
    decreases j - i
  {
    hide Before;
    if i + 1 < j {
      KeysAscend(entries, i, j - 1);
      BeforeTransitive(entries[i].key, entries[j - 1].key, entries[j].key);
    } else {
      assert Before(entries[j - 1].key, entries[j].key);
    }
    NeverBeforeItself(entries[i].key);
  }

  /** Every entry of a valid map is found under its key. */
  lemma {:induction false} EntryFound(entries: seq<Entry>, i: nat)
    requires forall k :: 0 < k < |entries| ==> Before(entries[k - 1].key, entries[k].key)
    requires i < |entries|
    ensures FindKey(entries, entries[i].key) == i
  {
    hide FindKey, Before;
    var j := FindKey(entries, entries[i].key);
    if j < i { KeysAscend(entries, j, i); }
  }
}
