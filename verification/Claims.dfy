/** A reductor may change a schema only at and below the paths it claims. */
module Claims {
  import opened Common
  import opened BinaryIr
  import opened Paths

  const HOLE: Node := Node(false, Null)

  predicate Covered(claims: seq<Claim>, at: Path) {
    exists i :: 0 <= i < |claims| && claims[i].path <= at
  }

  /** The schema found at `at`, with every claimed subtree replaced by a hole. */
  function Holed(node: Node, claims: seq<Claim>, at: Path): Node
    decreases node
  {
    if Covered(claims, at) then HOLE
    else
      match node.kind
      case Array(items) => node.(kind := Array(Holed(items, claims, at + [Element])))
      case Map(values) => node.(kind := Map(Holed(values, claims, at + [MapValue])))
      case Custom(id, value) => node.(kind := Custom(id, Holed(value, claims, at + [Logical])))
      case Record(fields) =>
        node.(kind := Record(seq(|fields|, i requires 0 <= i < |fields| =>
                                   fields[i].(schema := Holed(fields[i].schema, claims,
                                     at + [InField(fields[i].name)])))))
      case _ => node
  }

  method IsCovered(claims: seq<Claim>, at: Path) returns (covered: bool)
    ensures covered <==> Covered(claims, at)
  {
    for i := 0 to |claims|
      invariant forall j :: 0 <= j < i ==> !(claims[j].path <= at)
    {
      if claims[i].path <= at { return true; }
    }
    covered := false;
  }

  /**
   `ensure_node_changes_are_claimed`: it accepts exactly when the two schemas are equal once every subtree at
   or below a claimed path is a hole.
   */
  method EnsureClaimed(source: Node, transformed: Node, claims: seq<Claim>, at: Path) returns (ok: bool)
    ensures ok <==> Holed(source, claims, at) == Holed(transformed, claims, at)
    decreases source
  {
    hide Covered;
    var covered := IsCovered(claims, at);
    if covered { return true; }
    if source.nullable != transformed.nullable {
      NullableSeen(source, claims, at);
      NullableSeen(transformed, claims, at);
      return false;
    }
    if source.kind.Array? && transformed.kind.Array? {
      ok := EnsureClaimed(source.kind.items, transformed.kind.items, claims, at + [Element]);
    } else if source.kind.Map? && transformed.kind.Map? {
      ok := EnsureClaimed(source.kind.values, transformed.kind.values, claims, at + [MapValue]);
    } else if source.kind.Record? && transformed.kind.Record? {
      ok := EnsureFieldsClaimed(source, transformed, claims, at);
    } else if source.kind.Custom? && transformed.kind.Custom? && source.kind.typeId == transformed.kind.typeId {
      ok := EnsureClaimed(source.kind.value, transformed.kind.value, claims, at + [Logical]);
    } else {
      ok := source == transformed;
    }
  }

  lemma {:induction false} NullableSeen(node: Node, claims: seq<Claim>, at: Path)
    requires !Covered(claims, at)
    ensures Holed(node, claims, at).nullable == node.nullable
  {
    hide Covered;
  }

  method EnsureFieldsClaimed(source: Node, transformed: Node, claims: seq<Claim>, at: Path) returns (ok: bool)
    requires source.kind.Record? && transformed.kind.Record? && source.nullable == transformed.nullable
    requires !Covered(claims, at)
    ensures ok <==> Holed(source, claims, at) == Holed(transformed, claims, at)
    decreases source, 0
  {
    hide Covered;
    var ours, theirs := source.kind.fields, transformed.kind.fields;
    ghost var left, right := Holed(source, claims, at), Holed(transformed, claims, at);
    FieldsHoled(source, claims, at);
    FieldsHoled(transformed, claims, at);
    if |ours| != |theirs| { return false; }
    for i := 0 to |ours|
      invariant forall j :: 0 <= j < i ==> left.kind.fields[j] == right.kind.fields[j]
    {
      if ours[i].name != theirs[i].name {
        assert left.kind.fields[i].name != right.kind.fields[i].name;
        return false;
      }
      var same := EnsureClaimed(ours[i].schema, theirs[i].schema, claims, at + [InField(ours[i].name)]);
      if !same {
        assert left.kind.fields[i].schema != right.kind.fields[i].schema;
        return false;
      }
    }
    assert left.kind.fields == right.kind.fields;
    ok := true;
  }

  lemma {:induction false} FieldsHoled(node: Node, claims: seq<Claim>, at: Path)
    requires node.kind.Record? && !Covered(claims, at)
    ensures var holed := Holed(node, claims, at);
            && holed.nullable == node.nullable && holed.kind.Record? && |holed.kind.fields| == |node.kind.fields|
            && forall i :: 0 <= i < |node.kind.fields| ==>
                 && holed.kind.fields[i].name == node.kind.fields[i].name
                 && holed.kind.fields[i].schema ==
                    Holed(node.kind.fields[i].schema, claims, at + [InField(node.kind.fields[i].name)])
  {
    hide Covered;
  }

  /** Unclaimed subtrees of an accepted change are equal node for node. */
  lemma {:induction false} AcceptedKeepsUnclaimed(source: Node, transformed: Node, claims: seq<Claim>, at: Path,
      path: Path)
    requires Holed(source, claims, at) == Holed(transformed, claims, at)
    requires forall k :: 0 <= k <= |path| ==> !Covered(claims, at + path[..k])
    ensures NodeAt(source, path).Some? <==> NodeAt(transformed, path).Some?
    ensures NodeAt(source, path).Some? ==>
              Holed(NodeAt(source, path).value, claims, at + path) ==
                Holed(NodeAt(transformed, path).value, claims, at + path)
    decreases |path|
  {
    hide Covered;
    assert path[..0] == [] && at + [] == at;
    assert !Covered(claims, at + path[..0]);
    if path == [] {
      assert at + path == at;
    } else {
      ChildHoled(source, transformed, claims, at, path[0]);
      if Child(source, path[0]).Some? {
        forall k | 0 <= k <= |path| - 1 ensures !Covered(claims, at + [path[0]] + path[1..][..k]) {
          assert at + [path[0]] + path[1..][..k] == at + path[..k + 1];
        }
        AcceptedKeepsUnclaimed(Child(source, path[0]).value, Child(transformed, path[0]).value, claims, at + [path[0]],
          path[1..]);
        assert at + [path[0]] + path[1..] == at + path;
      }
    }
  }

  lemma {:induction false} ChildHoled(source: Node, transformed: Node, claims: seq<Claim>, at: Path, step: Step)
    requires Holed(source, claims, at) == Holed(transformed, claims, at) && !Covered(claims, at)
    ensures Child(source, step).Some? <==> Child(transformed, step).Some?
    ensures Child(source, step).Some? ==>
              Holed(Child(source, step).value, claims, at + [step]) ==
                Holed(Child(transformed, step).value, claims, at + [step])
  {
    hide Covered, FindField;
    if source.kind.Record? && transformed.kind.Record? && step.InField? {
      FieldsHoled(source, claims, at);
      FieldsHoled(transformed, claims, at);
      var left, right := source.kind.fields, transformed.kind.fields;
      var holed := Holed(source, claims, at).kind.fields;
      assert forall i :: 0 <= i < |left| ==> left[i].name == holed[i].name && right[i].name == holed[i].name;
      SameFind(left, right, step.name);
    }
  }

  lemma {:induction false} SameFind(a: seq<Field>, b: seq<Field>, name: string)
    requires |a| == |b| && forall i :: 0 <= i < |a| ==> a[i].name == b[i].name
    ensures FindField(a, name) == FindField(b, name)
  {
    hide FindField;
  }
}
