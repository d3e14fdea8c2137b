/** Values as Avro values, and back. Maps pass through an unordered map and come back sorted by key. */
module AvroValues {
  import opened Common
  import opened BigEndian
  import opened BinaryIr
  import opened Decimal

  datatype Avro =
    | ANull | ABoolean(flag: bool) | AInt(number: int) | ALong(number: int) | AFloat(bits: nat) | ADouble(bits: nat)
    | AString(text: string) | ABytes(bytes: Bytes)
    | ADate(days: int) | ATimeMillis(millis: int) | ATimeMicros(micros: int)
    | AStampMillis(millis: int) | AStampMicros(micros: int) | AStampNanos(nanos: int)
    | AUuid(id: nat) | ADecimal(bytes: Bytes)
    | AArray(items: seq<Avro>)
    | AMap(entries: map<string, Avro>)
    | ARecord(fields: seq<ASlot>)
    | AUnion(index: nat, value: Avro)

  datatype ASlot = ASlot(name: string, value: Avro)

  /** The conversions the model does not look into. */
  datatype Conversions = Conversions(
    toDays: string -> Option<int>, fromDays: int -> Option<string>,
    toTime: string -> Option<int>, fromTime: int -> Option<string>,
    toStamp: string -> Option<int>, fromStamp: int -> Option<string>, fromStampNanos: int -> Option<string>,
    parseUuid: string -> Option<nat>, printUuid: nat -> string,
    bigInt: string -> Option<int>, decimalLength: nat -> nat)

  // ---- sorted keys ---------------------------------------------------------------------------------------

  predicate Ascending(ks: seq<string>) {
    forall i :: 0 < i < |ks| ==> Before(ks[i - 1], ks[i])
  }

  function InsertKey(k: string, ks: seq<string>): seq<string> {
    if ks == [] then [k] else if Before(ks[0], k) then [ks[0]] + InsertKey(k, ks[1..]) else [k] + ks
  }

  /** The keys of a sorted map. */
  ghost function SortedKeys(s: set<string>): seq<string>
    decreases |s|
  {
    if s == {} then [] else
      var k :| k in s;
      InsertKey(k, SortedKeys(s - {k}))
  }

  lemma {:induction false} HeadIsLeast(ks: seq<string>, i: nat)
    requires Ascending(ks) && 0 < i < |ks|
    ensures Before(ks[0], ks[i])
    decreases i
  {
    hide Before;
    assert Before(ks[i - 1], ks[i]);
    if i > 1 {
      HeadIsLeast(ks, i - 1);
      BeforeTransitive(ks[0], ks[i - 1], ks[i]);
    }
  }

  lemma {:induction false} TailAscends(ks: seq<string>)
    requires Ascending(ks) && ks != []
    ensures Ascending(ks[1..]) && ks[0] !in ks[1..]
  {
    hide Before;
    forall i | 0 < i < |ks| - 1 ensures Before(ks[1..][i - 1], ks[1..][i]) {
      assert Before(ks[i + 1 - 1], ks[i + 1]);
    }
    forall i | 0 < i < |ks| ensures ks[i] != ks[0] {
      HeadIsLeast(ks, i);
      NeverBeforeItself(ks[0]);
    }
  }

  lemma {:induction false} SameHead(a: seq<string>, b: seq<string>)
    requires Ascending(a) && Ascending(b) && a != [] && b != []
    requires a[0] in b && b[0] in a
    ensures a[0] == b[0]
  {
    hide Before;
    var i :| 0 <= i < |b| && b[i] == a[0];
    var j :| 0 <= j < |a| && a[j] == b[0];
    if i > 0 { HeadIsLeast(b, i); }
    if j > 0 { HeadIsLeast(a, j); }
    if i > 0 && j > 0 {
      BeforeTransitive(a[0], b[0], a[0]);
      NeverBeforeItself(a[0]);
    }
  }

  /** There is only one ascending list of a set of keys. */
  lemma {:induction false} AscendingUnique(a: seq<string>, b: seq<string>)
    requires Ascending(a) && Ascending(b) && forall k :: k in a <==> k in b
    ensures a == b
    decreases |a|
  {
    hide Before, Ascending;
    assert |b| > 0 ==> b[0] in b;
    if a != [] {
      assert a[0] in b;
      assert b[0] in a;
      SameHead(a, b);
      TailAscends(a);
      TailAscends(b);
      forall k ensures k in a[1..] <==> k in b[1..] {
        assert k in a <==> k == a[0] || k in a[1..];
        assert k in b <==> k == b[0] || k in b[1..];
      }
      AscendingUnique(a[1..], b[1..]);
      assert a == [a[0]] + a[1..] && b == [b[0]] + b[1..];
    }
  }

  lemma {:induction false} InsertAscends(k: string, ks: seq<string>)
    requires Ascending(ks) && k !in ks
    ensures Ascending(InsertKey(k, ks))
    ensures forall x :: x in InsertKey(k, ks) <==> x == k || x in ks
    decreases |ks|
  {
    hide Before;
    if ks != [] {
      TailAscends(ks);
      if Before(ks[0], k) {
        var rest := InsertKey(k, ks[1..]);
        InsertAscends(k, ks[1..]);
        assert ks == [ks[0]] + ks[1..];
        assert rest[0] == k || (|ks| > 1 && rest[0] == ks[1]);
        if |ks| > 1 { assert Before(ks[1 - 1], ks[1]); }
        ConsAscends(ks[0], rest);
      } else {
        BeforeTotal(k, ks[0]);
        ConsAscends(k, ks);
      }
    }
  }

  lemma {:induction false} ConsAscends(k: string, ks: seq<string>)
    requires Ascending(ks) && ks != [] && Before(k, ks[0])
    ensures Ascending([k] + ks)
  {
    hide Before;
    var all := [k] + ks;
    forall i | 0 < i < |all| ensures Before(all[i - 1], all[i]) {
      if i > 1 { assert Before(ks[i - 1 - 1], ks[i - 1]); }
    }
  }

  lemma {:induction false} SortedKeysAscend(s: set<string>)
    ensures Ascending(SortedKeys(s)) && forall k :: k in SortedKeys(s) <==> k in s
    decreases |s|
  {
    hide InsertKey, Ascending;
    if s == {} {
      NothingAscends();
    } else {
      var k :| k in s && SortedKeys(s) == InsertKey(k, SortedKeys(s - {k}));
      SortedKeysAscend(s - {k});
      InsertAscends(k, SortedKeys(s - {k}));
    }
  }

  lemma {:induction false} NothingAscends()
    ensures Ascending([])
  {
  }

  // ---- to Avro -------------------------------------------------------------------------------------------

  /** Pairs collected into a map; a later pair replaces an earlier one. */
  function Collect(keys: seq<string>, values: seq<Avro>): map<string, Avro>
    requires |keys| == |values|
    decreases |keys|
  {
    if keys == [] then map[]
    else
      var n := |keys| - 1;
      Collect(keys[..n], values[..n])[keys[n] := values[n]]
  }

  function KeysOf(entries: seq<Entry>): (ks: seq<string>)
    ensures |ks| == |entries| && forall i :: 0 <= i < |entries| ==> ks[i] == entries[i].key
  {
    seq(|entries|, i requires 0 <= i < |entries| => entries[i].key)
  }

  /** `ir_value_to_avro`. */
  function ToAvro(c: Conversions, v: Value, node: Node): Option<Avro>
    decreases node, 1
  {
    if node.nullable && v.VNull? then Some(AUnion(0, ANull))
    else
      var required := Required(c, v, node);
      if required.None? then None else Some(if node.nullable then AUnion(1, required.value) else required.value)
  }

  function Dated(f: int -> Avro, n: Option<int>): Option<Avro> {
    if n.None? then None else Some(f(n.value))
  }

  /** `ir_value_to_avro_required`. */
  function Required(c: Conversions, v: Value, node: Node): Option<Avro>
    decreases node, 0
  {
    match node.kind
    case Null => if v.VNull? then Some(ANull) else None
    case Boolean => if v.VBoolean? then Some(ABoolean(v.flag)) else None
    case I32 => if v.VI32? then Some(AInt(v.number)) else None
    case I64 => if v.VI64? then Some(ALong(v.number)) else None
    case F32 => if v.VF32? then Some(AFloat(v.bits)) else None
    case F64 => if v.VF64? then Some(ADouble(v.bits)) else None
    case Str => if v.VStr? then Some(AString(v.text)) else None
    case Blob => if v.VBlob? then Some(ABytes(v.bytes)) else None
    case Date => if v.VDate? then Dated(n => ADate(n), c.toDays(v.text)) else None
    case Time => if v.VTime? then Dated(n => ATimeMicros(n), c.toTime(v.text)) else None
    case Timestamp => if v.VTimestamp? then Dated(n => AStampMicros(n), c.toStamp(v.text)) else None
    case Uuid => if v.VUuid? && c.parseUuid(v.text).Some? then Some(AUuid(c.parseUuid(v.text).value)) else None
    case Decimal(precision, scale) =>
      if !v.VDecimal? then None
      else
        var n := ToUnscaled(c.bigInt, v.text, scale);
        if n.None? then None else Some(ADecimal(Padded(n.value, c.decimalLength(precision))))
    case Array(items) =>
      if v.VArray? && forall i :: 0 <= i < |v.items| ==> ToAvro(c, v.items[i], items).Some? then
        Some(AArray(seq(|v.items|, i requires 0 <= i < |v.items| && ToAvro(c, v.items[i], items).Some? =>
          ToAvro(c, v.items[i], items).value)))
      else None
    case Map(values) =>
      if v.VMap? && forall i :: 0 <= i < |v.entries| ==> ToAvro(c, v.entries[i].value, values).Some? then
        Some(AMap(Collect(KeysOf(v.entries),
                          seq(|v.entries|, i requires 0 <= i < |v.entries|
                            && ToAvro(c, v.entries[i].value, values).Some? =>
                                ToAvro(c, v.entries[i].value, values).value))))
      else None
    case Record(fields) =>
      if v.VRecord? && forall i :: 0 <= i < |fields| ==> FieldToAvro(c, v, fields[i]).Some? then
        Some(ARecord(seq(|fields|, i requires 0 <= i < |fields| && FieldToAvro(c, v, fields[i]).Some? =>
          FieldToAvro(c, v, fields[i]).value)))
      else None
    case Custom(_, _) => None
  }

  function FieldToAvro(c: Conversions, v: Value, field: Field): Option<ASlot>
    requires v.VRecord?
    decreases field, 2
  {
    var i := FindSlot(v.fields, field.name);
    if i == |v.fields| || ToAvro(c, v.fields[i].value, field.schema).None? then None
    else Some(ASlot(field.name, ToAvro(c, v.fields[i].value, field.schema).value))
  }

  // ---- from Avro -----------------------------------------------------------------------------------------

  function FindASlot(fields: seq<ASlot>, name: string): (i: nat)
    ensures i <= |fields|
    ensures i < |fields| ==> fields[i].name == name
    ensures forall j :: 0 <= j < i ==> fields[j].name != name
  {
    if fields == [] then 0 else if fields[0].name == name then 0 else 1 + FindASlot(fields[1..], name)
  }

  function Bare(a: Avro): Avro {
    if a.AUnion? then a.value else a
  }

  /** `avro_value_to_ir`. */
  ghost function FromAvro(c: Conversions, a: Avro, node: Node): Option<Value>
    decreases node, 1
  {
    if node.nullable && Bare(a).ANull? then Some(VNull) else FromBare(c, Bare(a), node)
  }

  function Written(f: string -> Value, s: Option<string>): Option<Value> {
    if s.None? then None else Some(f(s.value))
  }

  ghost function FromBare(c: Conversions, a: Avro, node: Node): Option<Value>
    decreases node, 0
  {
    match node.kind
    case Null => if a.ANull? then Some(VNull) else None
    case Boolean => if a.ABoolean? then Some(VBoolean(a.flag)) else None
    case I32 => if a.AInt? then Some(VI32(a.number)) else None
    case I64 => if a.ALong? then Some(VI64(a.number)) else None
    case F32 => if a.AFloat? then Some(VF32(a.bits)) else None
    case F64 => if a.ADouble? then Some(VF64(a.bits)) else None
    case Str => if a.AString? then Some(VStr(a.text)) else None
    case Blob => if a.ABytes? then Some(VBlob(a.bytes)) else None
    case Date => if a.ADate? then Written(s => VDate(s), c.fromDays(a.days)) else None
    case Time =>
      if a.ATimeMillis? then Written(s => VTime(s), c.fromTime(a.millis * 1_000))
      else if a.ATimeMicros? then Written(s => VTime(s), c.fromTime(a.micros)) else None
    case Timestamp =>
      if a.AStampMillis? then Written(s => VTimestamp(s), c.fromStamp(a.millis * 1_000))
      else if a.AStampMicros? then Written(s => VTimestamp(s), c.fromStamp(a.micros))
      else if a.AStampNanos? then Written(s => VTimestamp(s), c.fromStampNanos(a.nanos)) else None
    case Uuid => if a.AUuid? then Some(VUuid(c.printUuid(a.id))) else None
    case Decimal(_, scale) =>
      if a.ADecimal? then Some(VDecimal(ToText(Signed(a.bytes), scale)))
      else if a.ABytes? then Some(VDecimal(ToText(Signed(a.bytes), scale))) else None
    case Array(items) =>
      if a.AArray? && forall i :: 0 <= i < |a.items| ==> FromAvro(c, a.items[i], items).Some? then
        Some(VArray(seq(|a.items|, i requires 0 <= i < |a.items| && FromAvro(c, a.items[i], items).Some? =>
          FromAvro(c, a.items[i], items).value)))
      else None
    case Map(values) =>
      if a.AMap? && forall k :: k in a.entries ==> FromAvro(c, a.entries[k], values).Some? then
        SortedKeysAscend(a.entries.Keys);
        var keys := SortedKeys(a.entries.Keys);
        Some(VMap(seq(|keys|, i requires 0 <= i < |keys| && keys[i] in a.entries
          && FromAvro(c, a.entries[keys[i]], values).Some? =>
                        Entry(keys[i], FromAvro(c, a.entries[keys[i]], values).value))))
      else None
    case Record(fields) =>
      if a.ARecord? && forall i :: 0 <= i < |fields| ==> FieldFromAvro(c, a, fields[i]).Some? then
        Some(VRecord(seq(|fields|, i requires 0 <= i < |fields| && FieldFromAvro(c, a, fields[i]).Some? =>
          FieldFromAvro(c, a, fields[i]).value)))
      else None
    case Custom(_, _) => None
  }

  ghost function FieldFromAvro(c: Conversions, a: Avro, field: Field): Option<Slot>
    requires a.ARecord?
    decreases field, 2
  {
    var i := FindASlot(a.fields, field.name);
    if i == |a.fields| || FromAvro(c, a.fields[i].value, field.schema).None? then None
    else Some(Slot(field.name, FromAvro(c, a.fields[i].value, field.schema).value))
  }
}
