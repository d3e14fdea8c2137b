/** Converting a conforming value to Avro and back is the identity. */
module AvroRoundTrip {
  import opened Common
  import opened BigEndian
  import opened BinaryIr
  import opened Decimal
  import opened AvroValues
  import opened AvroSchemaTheorems

  /** No calendar text anywhere, whose conversion may lose digits. */
  predicate Timeless(node: Node)
    decreases node
  {
    match node.kind
    case Array(items) => Timeless(items)
    case Map(values) => Timeless(values)
    case Record(fields) => forall i :: 0 <= i < |fields| ==> Timeless(fields[i].schema)
    case Custom(_, value) => Timeless(value)
    case Date => false
    case Time => false
    case Timestamp => false
    case _ => true
  }

  /** Decimals are parsed as modelled, and a valid UUID text is the one its UUID prints as. */
  ghost predicate Faithful(c: Conversions, f: Formats) {
    && (forall t :: f.decimal(t) == ParseDecimal(t))
    && (forall t :: f.uuid(t) ==> c.parseUuid(t).Some? && c.printUuid(c.parseUuid(t).value) == t)
  }

  predicate Back(v: Value, a: Option<Avro>) {
    a.Some? && !a.value.AUnion? && (a.value.ANull? <==> v.VNull?)
  }

  lemma {:induction false} DecimalBack(c: Conversions, f: Formats, v: Value, node: Node)
    requires Faithful(c, f) && node.kind.Decimal? && v.VDecimal? && Conforms(f, v, node)
    ensures Back(v, Required(c, v, node)) && FromBare(c, Required(c, v, node).value, node) == Some(v)
  {
    hide ParseDecimal, ToUnscaled, ToText, Padded, Signed;
    Reprinted(c.bigInt, v.text);
    var n := ToUnscaled(c.bigInt, v.text, node.kind.scale);
    PaddedDecodes(n.value, c.decimalLength(node.kind.precision));
  }

  /** Collecting distinct keys keeps every pair. */
  lemma {:induction false} Collected(keys: seq<string>, values: seq<Avro>)
    requires |keys| == |values| && forall i, j :: 0 <= i < j < |keys| ==> keys[i] != keys[j]
    ensures var m := Collect(keys, values);
            && (forall k :: k in m <==> k in keys)
            && (forall i :: 0 <= i < |keys| ==> keys[i] in m && m[keys[i]] == values[i])
    decreases |keys|
  {
    if keys != [] {
      var n := |keys| - 1;
      Collected(keys[..n], values[..n]);
      assert keys == keys[..n] + [keys[n]];
      forall i | 0 <= i < n ensures keys[i] != keys[n] && keys[..n][i] == keys[i] && values[..n][i] == values[i] {
      }
    }
  }

  lemma {:induction false} KeysOfValid(f: Formats, v: Value)
    requires v.VMap? && SelfValid(f, v)
    ensures Ascending(KeysOf(v.entries)) && forall i, j :: 0 <= i < j < |v.entries| ==>
            KeysOf(v.entries)[i] != KeysOf(v.entries)[j]
  {
    hide Before;
    var keys := KeysOf(v.entries);
    forall i, j | 0 <= i < j < |v.entries| ensures keys[i] != keys[j] {
      KeysAscend(v.entries, i, j);
    }
  }

  /** A map comes back with its entries in the same order, although the order was lost on the way. */
  lemma {:induction false} MapBack(c: Conversions, f: Formats, v: Value, node: Node)
    requires Faithful(c, f) && node.kind.Map? && v.VMap? && Conforms(f, v, node) && SelfValid(f, v)
    requires forall i :: 0 <= i < |v.entries| ==>
               ToAvro(c, v.entries[i].value, node.kind.values).Some? &&
               FromAvro(c, ToAvro(c, v.entries[i].value, node.kind.values).value, node.kind.values) ==
                 Some(v.entries[i].value)
    ensures Back(v, Required(c, v, node)) && FromBare(c, Required(c, v, node).value, node) == Some(v)
  {
    hide ToAvro, FromAvro, Before, Conforms, SelfValid, Faithful, Collect, SortedKeys, Ascending;
    var values, keys := node.kind.values, KeysOf(v.entries);
    KeysOfValid(f, v);
    var a := Required(c, v, node).value;
    var converted := seq(|v.entries|, i requires 0 <= i < |v.entries| && ToAvro(c, v.entries[i].value, values).Some? =>
                                        ToAvro(c, v.entries[i].value, values).value);
    assert a == AMap(Collect(keys, converted));
    Collected(keys, converted);
    SortedKeysAscend(a.entries.Keys);
    AscendingUnique(SortedKeys(a.entries.Keys), keys);
    forall k | k in a.entries ensures FromAvro(c, a.entries[k], values).Some? {
      var i :| 0 <= i < |keys| && keys[i] == k;
      assert a.entries[k] == converted[i];
    }
    var back := FromBare(c, a, node).value;
    forall i | 0 <= i < |keys| ensures back.entries[i] == v.entries[i] {
      assert a.entries[keys[i]] == converted[i];
    }
    assert back.entries == v.entries;
  }

  lemma {:induction false} ArrayBack(c: Conversions, v: Value, node: Node)
    requires node.kind.Array? && v.VArray?
    requires forall i :: 0 <= i < |v.items| ==>
               ToAvro(c, v.items[i], node.kind.items).Some? &&
               FromAvro(c, ToAvro(c, v.items[i], node.kind.items).value, node.kind.items) == Some(v.items[i])
    ensures Back(v, Required(c, v, node)) && FromBare(c, Required(c, v, node).value, node) == Some(v)
  {
    hide ToAvro, FromAvro;
    assert FromBare(c, Required(c, v, node).value, node).value.items == v.items;
  }

  lemma {:induction false} SlotFound(fields: seq<Slot>, schemas: seq<Field>, i: nat)
    requires |fields| == |schemas| && forall k :: 0 <= k < |fields| ==> fields[k].name == schemas[k].name
    requires forall j, k :: 0 <= j < k < |fields| ==> fields[j].name != fields[k].name
    requires i < |fields|
    ensures FindSlot(fields, schemas[i].name) == i
  {
    hide FindSlot;
    var name := fields[i].name;
    var j := FindSlot(fields, name);
    assert j <= i;
  }

  lemma {:induction false} ASlotFound(fields: seq<ASlot>, schemas: seq<Field>, i: nat)
    requires |fields| == |schemas| && forall k :: 0 <= k < |fields| ==> fields[k].name == schemas[k].name
    requires forall j, k :: 0 <= j < k < |schemas| ==> schemas[j].name != schemas[k].name
    requires i < |fields|
    ensures FindASlot(fields, schemas[i].name) == i
  {
    hide FindASlot;
    var name := fields[i].name;
    var j := FindASlot(fields, name);
    assert j <= i;
  }

  lemma {:induction false} RecordBack(c: Conversions, f: Formats, v: Value, node: Node)
    requires node.kind.Record? && v.VRecord? && Conforms(f, v, node) && SelfValid(f, v)
    requires forall i :: 0 <= i < |v.fields| ==>
               ToAvro(c, v.fields[i].value, node.kind.fields[i].schema).Some? &&
               FromAvro(c, ToAvro(c, v.fields[i].value, node.kind.fields[i].schema).value,
                 node.kind.fields[i].schema) == Some(v.fields[i].value)
    ensures Back(v, Required(c, v, node)) && FromBare(c, Required(c, v, node).value, node) == Some(v)
  {
    hide ToAvro, FromAvro, FindSlot, FindASlot;
    var schemas := node.kind.fields;
    forall i | 0 <= i < |schemas|
      ensures FieldToAvro(c, v, schemas[i]) ==
              Some(ASlot(schemas[i].name, ToAvro(c, v.fields[i].value, schemas[i].schema).value))
    {
      SlotFound(v.fields, schemas, i);
    }
    var a := Required(c, v, node).value;
    forall i | 0 <= i < |schemas| ensures FieldFromAvro(c, a, schemas[i]) == Some(v.fields[i]) {
      assert schemas[i].name == v.fields[i].name;
      ASlotFound(a.fields, schemas, i);
    }
    assert FromBare(c, a, node).value.fields == v.fields;
  }

  /** Every conforming value of a schema without calendar or custom types survives the trip unchanged. */
  lemma {:induction false} ValueRoundTrip(c: Conversions, f: Formats, v: Value, node: Node)
    requires Faithful(c, f) && Conforms(f, v, node) && SelfValid(f, v) && Writable(node) && Timeless(node)
    ensures ToAvro(c, v, node).Some? && FromAvro(c, ToAvro(c, v, node).value, node) == Some(v)
    decreases node, 1
  {
    hide Required, FromBare, Conforms, SelfValid, Faithful, Writable, Timeless;
    if !v.VNull? {
      RequiredRoundTrip(c, f, v, node);
    } else if !node.nullable {
      NullBack(c, f, v, node);
    }
  }

  lemma {:induction false} NullBack(c: Conversions, f: Formats, v: Value, node: Node)
    requires v.VNull? && !node.nullable && Conforms(f, v, node)
    ensures Back(v, Required(c, v, node)) && FromBare(c, Required(c, v, node).value, node) == Some(v)
  {
  }

  lemma {:induction false} RequiredRoundTrip(c: Conversions, f: Formats, v: Value, node: Node)
    requires Faithful(c, f) && Conforms(f, v, node) && SelfValid(f, v) && Writable(node) && Timeless(node) && !v.VNull?
    ensures Back(v, Required(c, v, node)) && FromBare(c, Required(c, v, node).value, node) == Some(v)
    decreases node, 0
  {
    hide ToAvro, FromAvro, Required, FromBare, Faithful;
    match node.kind
    case Array(items) =>
      forall i | 0 <= i < |v.items|
        ensures ToAvro(c, v.items[i], items).Some?
                && FromAvro(c, ToAvro(c, v.items[i], items).value, items) == Some(v.items[i])
      {
        ValueRoundTrip(c, f, v.items[i], items);
      }
      ArrayBack(c, v, node);
    case Map(values) =>
      forall i | 0 <= i < |v.entries|
        ensures ToAvro(c, v.entries[i].value, values).Some? &&
                FromAvro(c, ToAvro(c, v.entries[i].value, values).value, values) == Some(v.entries[i].value)
      {
        ValueRoundTrip(c, f, v.entries[i].value, values);
      }
      MapBack(c, f, v, node);
    case Record(fields) =>
      forall i | 0 <= i < |v.fields|
        ensures ToAvro(c, v.fields[i].value, fields[i].schema).Some? &&
                FromAvro(c, ToAvro(c, v.fields[i].value, fields[i].schema).value, fields[i].schema) ==
                  Some(v.fields[i].value)
      {
        ValueRoundTrip(c, f, v.fields[i].value, fields[i].schema);
      }
      RecordBack(c, f, v, node);
    case Decimal(_, _) => DecimalBack(c, f, v, node);
    case _ => ScalarBack(c, f, v, node);
  }

  predicate Scalar(kind: Kind) {
    !kind.Array? && !kind.Map? && !kind.Record? && !kind.Decimal? && !kind.Custom?
  }

  lemma {:induction false} ScalarBack(c: Conversions, f: Formats, v: Value, node: Node)
    requires Faithful(c, f) && Conforms(f, v, node) && SelfValid(f, v) && Timeless(node) && !v.VNull?
             && Scalar(node.kind)
    ensures Back(v, Required(c, v, node)) && FromBare(c, Required(c, v, node).value, node) == Some(v)
  {
  }
}
