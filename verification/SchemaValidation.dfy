/** Schema validation with a running field counter, against what it means for a schema to be valid. */
module SchemaValidation {
  import opened Common
  import opened BinaryIr

  datatype Limits = Limits(maxFields: nat, maxDepth: nat)

  /** Everything a schema must satisfy apart from its size. */
  predicate WellFormed(node: Node)
    decreases node
  {
    !(node.nullable && node.kind.Null?) &&
    match node.kind
    case Array(items) => WellFormed(items)
    case Map(values) => WellFormed(values)
    case Record(fields) =>
      && (forall i :: 0 <= i < |fields| ==> fields[i].name != "" && WellFormed(fields[i].schema))
      && (forall i, j :: 0 <= i < j < |fields| ==> fields[i].name != fields[j].name)
    case Decimal(precision, scale) => 0 < precision && scale <= precision
    case Custom(id, value) => id != "" && WellFormed(value)
    case _ => true
  }

  /** All record fields of a schema, nested ones included. */
  function FieldTotal(node: Node): nat
    decreases node, 0
  {
    match node.kind
    case Array(items) => FieldTotal(items)
    case Map(values) => FieldTotal(values)
    case Record(fields) => |fields| + FieldTotals(fields)
    case Custom(_, value) => FieldTotal(value)
    case _ => 0
  }

  function FieldTotals(fields: seq<Field>): nat
    decreases fields, 1
  {
    if fields == [] then 0 else FieldTotals(fields[..|fields| - 1]) + FieldTotal(fields[|fields| - 1].schema)
  }

  lemma {:induction false} TotalsGrow(fields: seq<Field>, i: nat)
    requires i < |fields|
    ensures FieldTotals(fields[..i]) + FieldTotal(fields[i].schema) ==
            FieldTotals(fields[..i + 1]) <= FieldTotals(fields)
    decreases |fields| - i
  {
    hide FieldTotal;
    assert fields[..i + 1][..i] == fields[..i];
    if i + 1 == |fields| { assert fields[..i + 1] == fields; } else { TotalsGrow(fields, i + 1); }
  }

  /** What validation from a depth and a counter accepts. */
  predicate Accepts(limits: Limits, depth: nat, count: nat, node: Node) {
    SchemaNoDeeper(node, limits.maxDepth - depth) && WellFormed(node) && count + FieldTotal(node) <= limits.maxFields
  }

  /**
   `validate_inner`: accepts exactly the well-formed schemas within both limits, and returns the counter
   advanced by the fields it has seen.
   */
  method Validate(limits: Limits, depth: nat, count: nat, node: Node) returns (r: Option<nat>)
    requires count <= limits.maxFields
    ensures r.Some? <==> Accepts(limits, depth, count, node)
    ensures r.Some? ==> r.value == count + FieldTotal(node)
    decreases node, 1
  {
    if depth > limits.maxDepth { return None; }
    if node.nullable && node.kind.Null? { return None; }
    match node.kind {
      case Array(items) => r := Validate(limits, depth + 1, count, items);
      case Map(values) => r := Validate(limits, depth + 1, count, values);
      case Record(fields) =>
        if count + |fields| > limits.maxFields { return None; }
        r := ValidateFields(limits, depth, count + |fields|, fields);
      case Decimal(precision, scale) =>
        if precision == 0 || scale > precision { return None; }
        r := Some(count);
      case Custom(id, value) =>
        if id == "" { return None; }
        r := Validate(limits, depth + 1, count, value);
      case _ => r := Some(count);
    }
  }

  predicate FieldFine(limits: Limits, depth: nat, field: Field) {
    field.name != "" && SchemaNoDeeper(field.schema, limits.maxDepth - depth - 1) && WellFormed(field.schema)
  }

  predicate Distinct(fields: seq<Field>) {
    forall i, j :: 0 <= i < j < |fields| ==> fields[i].name != fields[j].name
  }

  function NamesOf(fields: seq<Field>): set<string> {
    set i | 0 <= i < |fields| :: fields[i].name
  }

  lemma {:induction false} DistinctSnoc(fields: seq<Field>, i: nat)
    requires i < |fields|
    ensures Distinct(fields[..i + 1]) <==> Distinct(fields[..i]) && fields[i].name !in NamesOf(fields[..i])
    ensures NamesOf(fields[..i + 1]) == NamesOf(fields[..i]) + {fields[i].name}
    ensures Distinct(fields) ==> Distinct(fields[..i + 1])
  {
    var some := fields[..i + 1];
    assert forall k :: 0 <= k < i ==> some[k] == fields[..i][k];
    assert some[i] == fields[i];
    if Distinct(some) {
      forall k | 0 <= k < i ensures fields[..i][k].name != fields[i].name { assert some[k].name != some[i].name; }
    }
  }

  /** The fields in order, with the names seen so far. */
  method ValidateFields(limits: Limits, depth: nat, count: nat, fields: seq<Field>) returns (r: Option<nat>)
    requires count <= limits.maxFields
    ensures r.Some? <==>
            && (forall i :: 0 <= i < |fields| ==> FieldFine(limits, depth, fields[i]))
            && Distinct(fields) && count + FieldTotals(fields) <= limits.maxFields
    ensures r.Some? ==> r.value == count + FieldTotals(fields)
    decreases fields, 2
  {
    hide SchemaNoDeeper, WellFormed, FieldTotal, Distinct, NamesOf;
    var names: set<string>, total := {}, count;
    assert fields[..0] == [];
    NothingDistinct();
    for i := 0 to |fields|
      invariant total == count + FieldTotals(fields[..i]) <= limits.maxFields
      invariant forall k :: 0 <= k < i ==> FieldFine(limits, depth, fields[k])
      invariant names == NamesOf(fields[..i]) && Distinct(fields[..i])
    {
      TotalsGrow(fields, i);
      DistinctSnoc(fields, i);
      if fields[i].name == "" { return None; }
      if fields[i].name in names { return None; }
      names := names + {fields[i].name};
      var next := Validate(limits, depth + 1, total, fields[i].schema);
      if next.None? { return None; }
      total := next.value;
    }
    assert fields[..|fields|] == fields;
    r := Some(total);
  }

  lemma {:induction false} NothingDistinct()
    ensures NamesOf([]) == {} && Distinct([])
  {
  }
}
