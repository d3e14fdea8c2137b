/**
 The envelope transform: selected strings become envelope records (or are redacted when there is no key),
 and the schema is rewritten in step. The randomness of a sealing call is a function of the position it is
 made for, since no position is sealed twice.
 */
module Envelope {
  import opened Common
  import opened BinaryIr

  datatype Sealed = Sealed(iv: string, encDek: string, ct: string, tag: string)

  datatype Key = Redact | Seal(seal: (Position, string) -> Option<Sealed>)

  const NAMES: seq<string> := ["alg", "iv", "enc_dek", "ct", "tag"]

  function EnvelopeSchema(nullable: bool): Node {
    Node(nullable, Record(seq(5, i requires 0 <= i < 5 => Field(NAMES[i], Node(false, Str)))))
  }

  function EnvelopeValue(s: Sealed): Value {
    VRecord([Slot("alg", VStr("RSA-OAEP/AES-256-GCM")), Slot("iv", VStr(s.iv)), Slot("enc_dek", VStr(s.encDek)),
             Slot("ct", VStr(s.ct)), Slot("tag", VStr(s.tag))])
  }

  /** What a selected string becomes; nothing when sealing fails. */
  function Covered(key: Key, at: Position, text: string): Option<Value> {
    if key.Redact? then Some(VStr("[REDACTED]"))
    else if key.seal(at, text).None? then None
    else Some(EnvelopeValue(key.seal(at, text).value))
  }

  // ---- rewriting one target ------------------------------------------------------------------------

  /** `replace_schema_at_path`. */
  function Replace(node: Node, path: Path): Option<Node>
    decreases |path|
  {
    if path == [] then
      if node.kind.Str? then Some(EnvelopeSchema(node.nullable)) else None
    else if Child(node, path[0]).None? then None
    else
      var inner := Replace(Child(node, path[0]).value, path[1..]);
      if inner.None? then None else Some(WithChild(node, path[0], inner.value))
  }

  /** `node` with the child under `step` exchanged. */
  function WithChild(node: Node, step: Step, child: Node): Node
    requires Child(node, step).Some?
  {
    if step.Element? then node.(kind := Array(child))
    else if step.MapValue? then node.(kind := Map(child))
    else if step.Logical? then node.(kind := Custom(node.kind.typeId, child))
    else
      var fields := node.kind.fields;
      var i := FindField(fields, step.name);
      node.(kind := Record(fields[i := fields[i].(schema := child)]))
  }

  /** `transform_values_at_path`. */
  function Transform(v: Value, path: Path, at: Position, key: Key): Option<Value>
    decreases |path|
  {
    if path == [] then
      if v.VNull? then Some(v) else if v.VStr? then Covered(key, at, v.text) else None
    else if v.VArray? && path[0].Element? then
      if forall i :: 0 <= i < |v.items| ==> Transform(v.items[i], path[1..], at + [AtIndex(i)], key).Some? then
        Some(VArray(seq(|v.items|, i requires 0 <= i < |v.items|
          && Transform(v.items[i], path[1..], at + [AtIndex(i)], key).Some? =>
                          Transform(v.items[i], path[1..], at + [AtIndex(i)], key).value)))
      else None
    else if v.VMap? && path[0].MapValue? then
      if forall i :: 0 <= i < |v.entries| ==>
        Transform(v.entries[i].value, path[1..], at + [AtKey(v.entries[i].key)], key).Some? then
        Some(VMap(seq(|v.entries|, i requires 0 <= i < |v.entries|
          && Transform(v.entries[i].value, path[1..], at + [AtKey(v.entries[i].key)], key).Some? =>
                        v.entries[i].(value := Transform(v.entries[i].value, path[1..], at + [AtKey(v.entries[i].key)],
                          key).value))))
      else None
    else if v.VRecord? && path[0].InField? then
      var i := FindSlot(v.fields, path[0].name);
      if i == |v.fields| then None
      else
        var inner := Transform(v.fields[i].value, path[1..], at + [AtField(path[0].name)], key);
        if inner.None? then None else Some(VRecord(v.fields[i := v.fields[i].(value := inner.value)]))
    else if v.VCustom? && path[0].Logical? then
      var inner := Transform(v.value, path[1..], at + [AtLogical], key);
      if inner.None? then None else Some(VCustom(v.typeId, inner.value))
    else None
  }

  // ---- the result fits the rewritten schema ----------------------------------------------------------

  /** The schema a target's rewriting declares. */
  function Declared(node: Node, path: Path, key: Key): Option<Node> {
    if key.Redact? then Some(node) else Replace(node, path)
  }

  predicate NamesString(node: Node, path: Path) {
    NodeAt(node, path).Some? && NodeAt(node, path).value.kind.Str?
  }

  lemma {:induction false} EnvelopeFits(f: Formats, s: Sealed, nullable: bool)
    ensures Conforms(f, EnvelopeValue(s), EnvelopeSchema(nullable)) && SelfValid(f, EnvelopeValue(s))
  {
    var v, node := EnvelopeValue(s), EnvelopeSchema(nullable);
    assert |v.fields| == |node.kind.fields| == 5;
    forall i | 0 <= i < 5 ensures v.fields[i].name == NAMES[i] && v.fields[i].name != "" && v.fields[i].value.VStr? {
      NamesFilled(i);
    }
    forall i, j | 0 <= i < j < 5 ensures NAMES[i] != NAMES[j] { NamesDiffer(i, j); }
  }

  lemma {:induction false} NamesFilled(i: nat)
    requires i < 5
    ensures NAMES[i] != ""
  {
    assert i == 0 || i == 1 || i == 2 || i == 3 || i == 4;
  }

  lemma {:induction false} NamesDiffer(i: nat, j: nat)
    requires i < j < 5
    ensures NAMES[i] != NAMES[j]
  {
    assert |NAMES[0]| == 3 && |NAMES[1]| == 2 && |NAMES[2]| == 7 && |NAMES[3]| == 2 && |NAMES[4]| == 3;
    assert NAMES[0][0] == 'a' && NAMES[4][0] == 't' && NAMES[1][0] == 'i' && NAMES[3][0] == 'c';
  }

  /** The child of a value under a record field, and the schema of that field. */
  lemma {:induction false} SameIndex(fields: seq<Slot>, schemas: seq<Field>, name: string)
    requires |fields| == |schemas| && forall i :: 0 <= i < |fields| ==> fields[i].name == schemas[i].name
    ensures FindSlot(fields, name) == FindField(schemas, name)
  {
  }

  /** Values and schema rewritten along the same path still fit, and stay valid in themselves. */
  lemma {:induction false} TransformFits(f: Formats, v: Value, node: Node, path: Path, at: Position, key: Key)
    requires Conforms(f, v, node) && SelfValid(f, v) && NamesString(node, path)
    requires Transform(v, path, at, key).Some?
    ensures Declared(node, path, key).Some?
    ensures var w := Transform(v, path, at, key).value;
            Conforms(f, w, Declared(node, path, key).value) && SelfValid(f, w)
    decreases |path|
  {
    if path == [] {
      CoveredFits(f, v, node, at, key);
    } else {
      ReplaceDescends(node, path, key);
      if v.VArray? { ArrayFits(f, v, node, path, at, key); }
      else if v.VMap? { MapFits(f, v, node, path, at, key); }
      else if v.VRecord? { RecordFits(f, v, node, path, at, key); }
      else { CustomFits(f, v, node, path, at, key); }
    }
  }

  lemma {:induction false} CoveredFits(f: Formats, v: Value, node: Node, at: Position, key: Key)
    requires Conforms(f, v, node) && SelfValid(f, v) && node.kind.Str?
    requires Transform(v, [], at, key).Some?
    ensures var w := Transform(v, [], at, key).value;
            Conforms(f, w, Declared(node, [], key).value) && SelfValid(f, w)
  {
    hide EnvelopeValue, EnvelopeSchema;
    if v.VStr? && key.Seal? {
      EnvelopeFits(f, key.seal(at, v.text).value, node.nullable);
    }
    assert EnvelopeSchema(node.nullable).nullable == node.nullable by { NullableKept(node.nullable); }
  }

  lemma {:induction false} NullableKept(nullable: bool)
    ensures EnvelopeSchema(nullable).nullable == nullable
  {
  }

  /** Rewriting below a node keeps the node and rewrites the child. */
  lemma {:induction false} ReplaceDescends(node: Node, path: Path, key: Key)
    requires path != [] && NamesString(node, path)
    ensures Child(node, path[0]).Some? && NamesString(Child(node, path[0]).value, path[1..])
    ensures var child := Child(node, path[0]).value;
            Declared(child, path[1..], key).Some? ==>
              && Declared(node, path, key).Some?
              && Declared(node, path, key).value == WithChild(node, path[0], Declared(child, path[1..], key).value)
  {
  }

  lemma {:induction false} ArrayFits(f: Formats, v: Value, node: Node, path: Path, at: Position, key: Key)
    requires v.VArray? && path != [] && Conforms(f, v, node) && SelfValid(f, v) && NamesString(node, path)
    requires Transform(v, path, at, key).Some?
    ensures Declared(node, path, key).Some?
    ensures var w := Transform(v, path, at, key).value;
            Conforms(f, w, Declared(node, path, key).value) && SelfValid(f, w)
    decreases |path|, 0
  {
    hide Declared, NamesString;
    ReplaceDescends(node, path, key);
    var child := node.kind.items;
    SomewhereDeclared(child, path[1..], key);
    var w := Transform(v, path, at, key).value;
    forall i | 0 <= i < |v.items|
      ensures Conforms(f, w.items[i], Declared(child, path[1..], key).value) && SelfValid(f, w.items[i])
    {
      TransformFits(f, v.items[i], child, path[1..], at + [AtIndex(i)], key);
    }
  }

  /** A path that names a string can be rewritten. */
  lemma {:induction false} SomewhereDeclared(node: Node, path: Path, key: Key)
    requires NamesString(node, path)
    ensures Declared(node, path, key).Some?
    decreases |path|
  {
    if path != [] {
      ReplaceDescends(node, path, key);
      SomewhereDeclared(Child(node, path[0]).value, path[1..], key);
    }
  }

  lemma {:induction false} MapFits(f: Formats, v: Value, node: Node, path: Path, at: Position, key: Key)
    requires v.VMap? && path != [] && Conforms(f, v, node) && SelfValid(f, v) && NamesString(node, path)
    requires Transform(v, path, at, key).Some?
    ensures Declared(node, path, key).Some?
    ensures var w := Transform(v, path, at, key).value;
            Conforms(f, w, Declared(node, path, key).value) && SelfValid(f, w)
    decreases |path|, 0
  {
    hide Declared, NamesString;
    ReplaceDescends(node, path, key);
    var child := node.kind.values;
    SomewhereDeclared(child, path[1..], key);
    var w := Transform(v, path, at, key).value;
    forall i | 0 <= i < |v.entries|
      ensures w.entries[i].key == v.entries[i].key
      ensures Conforms(f, w.entries[i].value, Declared(child, path[1..], key).value) && SelfValid(f, w.entries[i].value)
    {
      TransformFits(f, v.entries[i].value, child, path[1..], at + [AtKey(v.entries[i].key)], key);
    }
  }

  lemma {:induction false} RecordFits(f: Formats, v: Value, node: Node, path: Path, at: Position, key: Key)
    requires v.VRecord? && path != [] && Conforms(f, v, node) && SelfValid(f, v) && NamesString(node, path)
    requires Transform(v, path, at, key).Some?
    ensures Declared(node, path, key).Some?
    ensures var w := Transform(v, path, at, key).value;
            Conforms(f, w, Declared(node, path, key).value) && SelfValid(f, w)
    decreases |path|, 0
  {
    hide Declared, NamesString, FindSlot, FindField;
    ReplaceDescends(node, path, key);
    SameIndex(v.fields, node.kind.fields, path[0].name);
    var i := FindSlot(v.fields, path[0].name);
    var child := node.kind.fields[i].schema;
    TransformFits(f, v.fields[i].value, child, path[1..], at + [AtField(path[0].name)], key);
    var inner := Transform(v.fields[i].value, path[1..], at + [AtField(path[0].name)], key).value;
    FieldFits(f, v, node, i, inner, Declared(child, path[1..], key).value);
  }

  /** A record with one field's value and schema exchanged together. */
  lemma {:induction false} FieldFits(f: Formats, v: Value, node: Node, i: nat, value: Value, schema: Node)
    requires v.VRecord? && node.kind.Record? && Conforms(f, v, node) && SelfValid(f, v) && i < |v.fields|
    requires Conforms(f, value, schema) && SelfValid(f, value)
    ensures var w := VRecord(v.fields[i := v.fields[i].(value := value)]);
            var out := node.(kind := Record(node.kind.fields[i := node.kind.fields[i].(schema := schema)]));
            Conforms(f, w, out) && SelfValid(f, w)
  {
  }

  lemma {:induction false} CustomFits(f: Formats, v: Value, node: Node, path: Path, at: Position, key: Key)
    requires !v.VArray? && !v.VMap? && !v.VRecord? && path != []
    requires Conforms(f, v, node) && SelfValid(f, v) && NamesString(node, path)
    requires Transform(v, path, at, key).Some?
    ensures Declared(node, path, key).Some?
    ensures var w := Transform(v, path, at, key).value;
            Conforms(f, w, Declared(node, path, key).value) && SelfValid(f, w)
    decreases |path|, 0
  {
    hide Declared, NamesString;
    ReplaceDescends(node, path, key);
    TransformFits(f, v.value, node.kind.value, path[1..], at + [AtLogical], key);
  }
}
