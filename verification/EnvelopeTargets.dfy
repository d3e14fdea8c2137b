/** Several targets: their order does not matter, and the theorems about one target hold for all. */
module EnvelopeTargets {
  import opened Common
  import opened BinaryIr
  import opened Envelope
  import opened EnvelopeTheorems
  import opened Paths

  predicate Apart(a: Path, b: Path) {
    !(a <= b) && !(b <= a)
  }

  // ---- schemas ---------------------------------------------------------------------------------------

  /** A schema can be rewritten at a path exactly when the path names a string. */
  lemma {:induction false} ReplaceSucceedsExactly(node: Node, path: Path)
    ensures Replace(node, path).Some? <==> NamesString(node, path)
    decreases |path|
  {
    if path != [] && Child(node, path[0]).Some? {
      ReplaceSucceedsExactly(Child(node, path[0]).value, path[1..]);
    }
  }

  lemma {:induction false} FieldStays(fields: seq<Field>, name: string, i: nat, schema: Node)
    requires i < |fields|
    ensures FindField(fields[i := fields[i].(schema := schema)], name) == FindField(fields, name)
  {
    hide FindField;
    var changed := fields[i := fields[i].(schema := schema)];
    assert forall j :: 0 <= j < |fields| ==> changed[j].name == fields[j].name;
  }

  /** Exchanging one child: that child is the new one, and every other child stays. */
  lemma {:induction false} WithChildIs(node: Node, step: Step, child: Node, other: Step)
    requires Child(node, step).Some?
    ensures var next := WithChild(node, step, child);
            Child(next, other) == if other == step then Some(child) else Child(node, other)
  {
    hide FindField;
    if step.InField? {
      var fields := node.kind.fields;
      FieldStays(fields, step.name, FindField(fields, step.name), child);
      if other.InField? { FieldStays(fields, other.name, FindField(fields, step.name), child); }
    }
  }

  lemma {:induction false} ApartDescends(a: Path, b: Path)
    requires Apart(a, b)
    ensures a != [] && b != [] && (a[0] == b[0] ==> Apart(a[1..], b[1..]))
  {
    if a[0] == b[0] {
      assert a == [a[0]] + a[1..] && b == [b[0]] + b[1..];
    }
  }

  /** Rewriting one target leaves what another target names as it was. */
  lemma {:induction false} ReplaceKeepsOther(node: Node, a: Path, b: Path)
    requires Apart(a, b) && Replace(node, a).Some?
    ensures NodeAt(Replace(node, a).value, b) == NodeAt(node, b)
    decreases |a|
  {
    hide WithChild, Child, Apart;
    ApartDescends(a, b);
    var child := Child(node, a[0]).value;
    WithChildIs(node, a[0], Replace(child, a[1..]).value, b[0]);
    if a[0] == b[0] { ReplaceKeepsOther(child, a[1..], b[1..]); }
  }

  function Both(node: Node, a: Path, b: Path): Option<Node> {
    if Replace(node, a).None? then None else Replace(Replace(node, a).value, b)
  }

  lemma {:induction false} ChildrenCommute(node: Node, a: Step, b: Step, x: Node, y: Node)
    requires a != b && Child(node, a).Some? && Child(node, b).Some?
    ensures Child(WithChild(node, a, x), b).Some? && Child(WithChild(node, b, y), a).Some?
    ensures WithChild(WithChild(node, a, x), b, y) == WithChild(WithChild(node, b, y), a, x)
  {
    hide FindField;
    var fields := node.kind.fields;
    var i, j := FindField(fields, a.name), FindField(fields, b.name);
    FieldStays(fields, b.name, i, x);
    FieldStays(fields, a.name, j, y);
    assert fields[i := fields[i].(schema := x)][j := fields[j].(schema := y)] ==
           fields[j := fields[j].(schema := y)][i := fields[i].(schema := x)];
  }

  lemma {:induction false} ChildTwice(node: Node, step: Step, x: Node, y: Node)
    requires Child(node, step).Some?
    ensures Child(WithChild(node, step, x), step) == Some(x)
    ensures WithChild(WithChild(node, step, x), step, y) == WithChild(node, step, y)
  {
    hide FindField;
    WithChildIs(node, step, x, step);
    if step.InField? {
      var fields := node.kind.fields;
      var i := FindField(fields, step.name);
      FieldStays(fields, step.name, i, x);
      var once := fields[i := fields[i].(schema := x)];
      assert once[i := once[i].(schema := y)] == fields[i := fields[i].(schema := y)];
    }
  }

  lemma {:induction false} ReplaceCommutes(node: Node, a: Path, b: Path)
    requires Apart(a, b)
    ensures Both(node, a, b) == Both(node, b, a)
    decreases |a|
  {
    hide WithChild, Child, Apart, Replace;
    ReplaceSucceedsExactly(node, a);
    ReplaceSucceedsExactly(node, b);
    if Replace(node, a).Some? { ReplaceKeepsOther(node, a, b); ReplaceSucceedsExactly(Replace(node, a).value, b); }
    if Replace(node, b).Some? { ApartSymmetric(a, b); ReplaceKeepsOther(node, b, a);
      ReplaceSucceedsExactly(Replace(node, b).value, a); }
    if Replace(node, a).Some? && Replace(node, b).Some? { CommuteBelow(node, a, b); }
  }

  lemma {:induction false} ApartSymmetric(a: Path, b: Path)
    requires Apart(a, b)
    ensures Apart(b, a)
  {
  }

  lemma {:induction false} ReplaceUnrolls(node: Node, path: Path)
    requires path != [] && Replace(node, path).Some?
    ensures Child(node, path[0]).Some? && Replace(Child(node, path[0]).value, path[1..]).Some?
    ensures Replace(node, path).value == WithChild(node, path[0], Replace(Child(node, path[0]).value, path[1..]).value)
  {
    hide Child, WithChild;
  }

  lemma {:induction false} CommuteBelow(node: Node, a: Path, b: Path)
    requires Apart(a, b) && Replace(node, a).Some? && Replace(node, b).Some?
    requires Both(node, a, b).Some? && Both(node, b, a).Some?
    ensures Both(node, a, b) == Both(node, b, a)
    decreases |a|, 0
  {
    hide WithChild, Child, Apart, Replace;
    ApartDescends(a, b);
    ReplaceUnrolls(node, a);
    ReplaceUnrolls(node, b);
    ReplaceUnrolls(Replace(node, a).value, b);
    ReplaceUnrolls(Replace(node, b).value, a);
    var x := Replace(Child(node, a[0]).value, a[1..]).value;
    var y := Replace(Child(node, b[0]).value, b[1..]).value;
    WithChildIs(node, a[0], x, b[0]);
    WithChildIs(node, b[0], y, a[0]);
    if a[0] == b[0] {
      ReplaceCommutes(Child(node, a[0]).value, a[1..], b[1..]);
      ChildTwice(node, a[0], x, Replace(x, b[1..]).value);
      ChildTwice(node, a[0], y, Replace(y, a[1..]).value);
    } else {
      ChildrenCommute(node, a[0], b[0], x, y);
    }
  }

  /** The schema rewriting loop of `output_schema`. */
  function ReplaceAll(node: Node, targets: seq<Path>): Option<Node>
    decreases |targets|
  {
    if targets == [] then Some(node)
    else if Replace(node, targets[0]).None? then None
    else ReplaceAll(Replace(node, targets[0]).value, targets[1..])
  }

  lemma {:induction false} MoveToFront(node: Node, before: seq<Path>, p: Path, after: seq<Path>)
    requires forall q :: q in before ==> Apart(q, p)
    ensures ReplaceAll(node, before + [p] + after) == ReplaceAll(node, [p] + (before + after))
    decreases |before|
  {
    hide Replace, Apart;
    if before == [] {
      assert before + [p] + after == [p] + (before + after);
    } else {
      var q, rest := before[0], before[1..];
      assert (before + [p] + after)[0] == q && (before + [p] + after)[1..] == rest + [p] + after;
      assert ([p] + (before + after))[1..] == before + after;
      assert (before + after)[0] == q && (before + after)[1..] == rest + after;
      assert ([p] + (rest + after))[1..] == rest + after;
      ReplaceCommutes(node, q, p);
      if Replace(node, q).Some? { MoveToFront(Replace(node, q).value, rest, p, after); }
    }
  }

  /** Rewriting the targets in any order gives the same schema. */
  lemma {:induction false} OrderIrrelevant(node: Node, ps: seq<Path>, qs: seq<Path>)
    requires multiset(ps) == multiset(qs) && PrefixFree(ps)
    ensures ReplaceAll(node, ps) == ReplaceAll(node, qs)
    decreases |ps|
  {
    hide Replace, Apart, PrefixFree;
    assert |multiset(ps)| == |ps| && |multiset(qs)| == |qs|;
    if ps != [] {
      var p := ps[0];
      assert p in multiset(qs);
      var k :| 0 <= k < |qs| && qs[k] == p;
      var before, after := qs[..k], qs[k + 1..];
      var rest := before + after;
      WithoutOne(ps, qs, k);
      PrefixFreeOfMultiset(ps, qs);
      ApartFromEarlier(qs, k);
      MoveToFront(node, before, p, after);
      assert ([p] + rest)[0] == p && ([p] + rest)[1..] == rest;
      TailFree(ps);
      if Replace(node, p).Some? { OrderIrrelevant(Replace(node, p).value, ps[1..], rest); }
    }
  }

  lemma {:induction false} WithoutOne(ps: seq<Path>, qs: seq<Path>, k: nat)
    requires multiset(ps) == multiset(qs) && ps != [] && k < |qs| && qs[k] == ps[0]
    ensures qs == qs[..k] + [ps[0]] + qs[k + 1..]
    ensures multiset(ps[1..]) == multiset(qs[..k] + qs[k + 1..])
  {
    var before, after := qs[..k], qs[k + 1..];
    assert ps == [ps[0]] + ps[1..];
    assert qs == before + [ps[0]] + after;
    assert multiset(ps) == multiset{ps[0]} + multiset(ps[1..]);
    assert multiset(qs) == multiset(before) + multiset{ps[0]} + multiset(after);
    assert multiset(ps[1..]) == multiset(ps) - multiset{ps[0]};
    assert multiset(before + after) == multiset(qs) - multiset{ps[0]};
  }

  lemma {:induction false} ApartFromEarlier(ps: seq<Path>, k: nat)
    requires PrefixFree(ps) && k < |ps|
    ensures forall q :: q in ps[..k] ==> Apart(q, ps[k])
  {
    forall q | q in ps[..k] ensures Apart(q, ps[k]) {
      var i :| 0 <= i < k && ps[i] == q;
      ApartIn(ps, i, k);
    }
  }

  lemma {:induction false} ApartIn(ps: seq<Path>, i: nat, j: nat)
    requires PrefixFree(ps) && i < |ps| && j < |ps| && i != j
    ensures Apart(ps[i], ps[j])
  {
  }

  lemma {:induction false} TailFree(ps: seq<Path>)
    requires PrefixFree(ps) && ps != []
    ensures PrefixFree(ps[1..]) && forall q :: q in ps[1..] ==> Apart(ps[0], q)
  {
    forall i, j | 0 <= i < |ps| - 1 && 0 <= j < |ps| - 1 && i != j ensures !(ps[1..][i] <= ps[1..][j]) {
      assert !(ps[i + 1] <= ps[j + 1]);
    }
    forall q | q in ps[1..] ensures Apart(ps[0], q) {
      var i :| 0 <= i < |ps| - 1 && ps[1..][i] == q;
      ApartIn(ps, 0, i + 1);
    }
  }

  // ---- values ----------------------------------------------------------------------------------------

  lemma {:induction false} ChildUntouched(v: Value, path: Path, at: Position, key: Key, step: At)
    requires path != [] && Transform(v, path, at, key).Some? && !StepSelects(path[0], step)
    ensures ChildValue(Transform(v, path, at, key).value, step) == ChildValue(v, step)
  {
    hide FindSlot, FindKey, Covered;
    var w := Transform(v, path, at, key).value;
    if v.VRecord? {
      var i := FindSlot(v.fields, path[0].name);
      if step.AtField? { SlotStays(v.fields, step.name, i, w.fields[i].value); }
    }
  }

  /**
   Away from the target and below it nothing changes; a container on the way to it stays a container.
   */
  lemma {:induction false} Elsewhere(v: Value, path: Path, at: Position, key: Key, other: Path, p: Position)
    requires Transform(v, path, at, key).Some? && Selects(other, p) && !(path <= other)
    ensures var w := Transform(v, path, at, key).value;
            && (ValueAt(w, p).Some? <==> ValueAt(v, p).Some?)
            && (ValueAt(v, p).Some? ==> (ValueAt(w, p).value.VNull? <==> ValueAt(v, p).value.VNull?))
            && (!(other <= path) ==> ValueAt(w, p) == ValueAt(v, p))
    decreases |path|
  {
    hide Covered;
    var w := Transform(v, path, at, key).value;
    if other != [] {
      ValueAtDescends(v, p);
      ValueAtDescends(w, p);
      if StepSelects(path[0], p[0]) {
        assert StepSelects(other[0], p[0]);
        assert path[0] == other[0];
        ChildTransformed(v, path, at, key, p[0]);
        if ChildValue(v, p[0]).Some? {
          assert p == [p[0]] + p[1..];
          SelectsCons(other, p[0], p[1..]);
          assert path == [path[0]] + path[1..] && other == [other[0]] + other[1..];
          Elsewhere(ChildValue(v, p[0]).value, path[1..], at + [p[0]], key, other[1..], p[1..]);
        }
      } else {
        ChildUntouched(v, path, at, key, p[0]);
      }
    }
  }

  /** Whether another target can be transformed is not affected. */
  lemma {:induction false} OtherStillClear(v: Value, a: Path, b: Path, key: Key)
    requires Transform(v, a, [], key).Some? && Apart(a, b)
    ensures var w := Transform(v, a, [], key).value;
            (Clear(w, b) <==> Clear(v, b)) && (Sealable(w, b, [], key) <==> Sealable(v, b, [], key))
  {
    hide Transform, Covered, ValueAt, Selects;
    var w := Transform(v, a, [], key).value;
    forall k, p | 0 <= k < |b| && Selects(b[..k], p)
      ensures (ValueAt(w, p).Some? <==> ValueAt(v, p).Some?) &&
              (ValueAt(v, p).Some? ==> (ValueAt(w, p).value.VNull? <==> ValueAt(v, p).value.VNull?))
    {
      assert b == b[..k] + b[k..];
      NotBelow(a, b, k);
      Elsewhere(v, a, [], key, b[..k], p);
    }
    forall p | Selects(b, p) ensures ValueAt(w, p) == ValueAt(v, p) {
      Elsewhere(v, a, [], key, b, p);
    }
  }

  lemma {:induction false} NotBelow(a: Path, b: Path, k: nat)
    requires !(a <= b) && k <= |b|
    ensures !(a <= b[..k])
  {
  }

  /** The loop of `transform`: every target is checked against the input schema, then applied. */
  function TransformAll(v: Value, schema: Node, targets: seq<Path>, key: Key): Option<Value>
    decreases |targets|
  {
    if targets == [] then Some(v)
    else if !NamesString(schema, targets[0]) then None
    else if Transform(v, targets[0], [], key).None? then None
    else TransformAll(Transform(v, targets[0], [], key).value, schema, targets[1..], key)
  }

  function OutputSchema(schema: Node, targets: seq<Path>, key: Key): Option<Node> {
    if key.Redact? then Some(schema) else ReplaceAll(schema, targets)
  }

  ghost predicate SameTargets(a: Node, b: Node, targets: seq<Path>) {
    forall t :: t in targets ==> NodeAt(a, t) == NodeAt(b, t)
  }

  lemma {:induction false} AllFitFrom(f: Formats, v: Value, schema: Node, current: Node, targets: seq<Path>, key: Key)
    requires Conforms(f, v, current) && SelfValid(f, v) && PrefixFree(targets) && SameTargets(schema, current, targets)
    requires TransformAll(v, schema, targets, key).Some?
    ensures OutputSchema(current, targets, key).Some?
    ensures var w := TransformAll(v, schema, targets, key).value;
            Conforms(f, w, OutputSchema(current, targets, key).value) && SelfValid(f, w)
    decreases |targets|
  {
    hide Transform, Replace, Conforms, SelfValid, NodeAt, PrefixFree, Apart;
    if targets != [] {
      var t := targets[0];
      TransformFits(f, v, current, t, [], key);
      TailFree(targets);
      var next := Declared(current, t, key).value;
      if key.Seal? {
        forall q | q in targets[1..] ensures NodeAt(next, q) == NodeAt(schema, q) {
          ReplaceKeepsOther(current, t, q);
        }
      }
      AllFitFrom(f, Transform(v, t, [], key).value, schema, next, targets[1..], key);
    }
  }

  /**
   A transformed value fits the declared output schema, is valid in itself, and is no deeper than the limit
   whenever that schema is not: validating it again never rejects it.
   */
  lemma {:induction false} OutputIsValid(f: Formats, v: Value, schema: Node, targets: seq<Path>, key: Key,
      maxDepth: nat)
    requires Conforms(f, v, schema) && SelfValid(f, v) && PrefixFree(targets)
    requires TransformAll(v, schema, targets, key).Some?
    ensures OutputSchema(schema, targets, key).Some?
    ensures var out := OutputSchema(schema, targets, key).value;
            var w := TransformAll(v, schema, targets, key).value;
            Conforms(f, w, out) && (SchemaNoDeeper(out, maxDepth) ==> ValidValue(f, w, out, maxDepth))
  {
    hide TransformAll, OutputSchema, Conforms, SelfValid, NoDeeper, SchemaNoDeeper;
    AllFitFrom(f, v, schema, schema, targets, key);
    var out := OutputSchema(schema, targets, key).value;
    var w := TransformAll(v, schema, targets, key).value;
    if SchemaNoDeeper(out, maxDepth) { ConformingDepth(f, w, out, maxDepth); }
  }

  lemma {:induction false} AllSucceedFrom(f: Formats, v: Value, schema: Node, current: Node, targets: seq<Path>,
      key: Key)
    requires Conforms(f, v, current) && SelfValid(f, v) && PrefixFree(targets) && SameTargets(schema, current, targets)
    ensures TransformAll(v, schema, targets, key).Some? <==>
            forall t :: t in targets ==> NamesString(schema, t) && Clear(v, t) && Sealable(v, t, [], key)
    decreases |targets|
  {
    hide Transform, Replace, Conforms, SelfValid, NodeAt, PrefixFree, Apart, Clear, Sealable;
    if targets != [] {
      var t := targets[0];
      assert forall q :: q in targets <==> q == t || q in targets[1..];
      if NamesString(schema, t) {
        SucceedsExactly(f, v, current, t, [], key);
        if Transform(v, t, [], key).Some? { AllSucceedStep(f, v, schema, current, targets, key); }
      }
    }
  }

  lemma {:induction false} AllSucceedStep(f: Formats, v: Value, schema: Node, current: Node, targets: seq<Path>,
      key: Key)
    requires Conforms(f, v, current) && SelfValid(f, v) && PrefixFree(targets) && SameTargets(schema, current, targets)
    requires targets != [] && NamesString(schema, targets[0]) && Transform(v, targets[0], [], key).Some?
    ensures TransformAll(Transform(v, targets[0], [], key).value, schema, targets[1..], key).Some? <==>
            forall t :: t in targets[1..] ==> NamesString(schema, t) && Clear(v, t) && Sealable(v, t, [], key)
    decreases |targets|, 0
  {
    hide Transform, Replace, Conforms, SelfValid, NodeAt, PrefixFree, Apart, Clear, Sealable, TransformAll;
    var t := targets[0];
    TransformFits(f, v, current, t, [], key);
    TailFree(targets);
    var next := Declared(current, t, key).value;
    if key.Seal? {
      forall q | q in targets[1..] ensures NodeAt(next, q) == NodeAt(schema, q) {
        ReplaceKeepsOther(current, t, q);
      }
    }
    forall q | q in targets[1..]
      ensures (Clear(Transform(v, t, [], key).value, q) <==> Clear(v, q)) &&
              (Sealable(Transform(v, t, [], key).value, q, [], key) <==> Sealable(v, q, [], key))
    {
      OtherStillClear(v, t, q, key);
    }
    AllSucceedFrom(f, Transform(v, t, [], key).value, schema, next, targets[1..], key);
  }

  /**
   The transform of a conforming value succeeds exactly when every target names a string, no strict ancestor
   of a selected position is null, and every sealing succeeds.
   */
  lemma {:induction false} AllSucceedExactly(f: Formats, v: Value, schema: Node, targets: seq<Path>, key: Key)
    requires Conforms(f, v, schema) && SelfValid(f, v) && PrefixFree(targets)
    ensures TransformAll(v, schema, targets, key).Some? <==>
            forall t :: t in targets ==> NamesString(schema, t) && Clear(v, t) && Sealable(v, t, [], key)
  {
    hide TransformAll, Conforms, SelfValid, Clear, Sealable, NamesString;
    AllSucceedFrom(f, v, schema, schema, targets, key);
  }

  // ---- what all targets leave alone ----------------------------------------------------------------

  lemma {:induction false} MasksCommute(v: Value, a: Path, b: Path)
    ensures Mask(Mask(v, a), b) == Mask(Mask(v, b), a)
    decreases |a|
  {
    if a != [] && b != [] && a[0] == b[0] {
      var x, y := a[1..], b[1..];
      if v.VArray? && a[0].Element? {
        forall i | 0 <= i < |v.items| ensures Mask(Mask(v, a), b).items[i] == Mask(Mask(v, b), a).items[i] {
          MasksCommute(v.items[i], x, y);
        }
        assert Mask(Mask(v, a), b).items == Mask(Mask(v, b), a).items;
      } else if v.VMap? && a[0].MapValue? {
        forall i | 0 <= i < |v.entries| ensures Mask(Mask(v, a), b).entries[i] == Mask(Mask(v, b), a).entries[i] {
          MasksCommute(v.entries[i].value, x, y);
        }
        assert Mask(Mask(v, a), b).entries == Mask(Mask(v, b), a).entries;
      } else if v.VRecord? && a[0].InField? {
        MasksCommuteSameField(v, a, b);
      } else if v.VCustom? && a[0].Logical? {
        MasksCommute(v.value, x, y);
      }
    } else if a != [] && b != [] && v.VRecord? {
      MasksCommuteFields(v, a, b);
    }
  }

  lemma {:induction false} MasksCommuteSameField(v: Value, a: Path, b: Path)
    requires a != [] && b != [] && a[0] == b[0] && a[0].InField? && v.VRecord?
    ensures Mask(Mask(v, a), b) == Mask(Mask(v, b), a)
    decreases |a|, 0
  {
    hide FindSlot;
    var i := FindSlot(v.fields, a[0].name);
    if i < |v.fields| {
      MasksCommute(v.fields[i].value, a[1..], b[1..]);
      SlotStays(v.fields, a[0].name, i, Mask(v.fields[i].value, a[1..]));
      SlotStays(v.fields, a[0].name, i, Mask(v.fields[i].value, b[1..]));
      assert Mask(Mask(v, a), b).fields == Mask(Mask(v, b), a).fields;
    }
  }

  lemma {:induction false} MasksCommuteFields(v: Value, a: Path, b: Path)
    requires a != [] && b != [] && a[0] != b[0] && v.VRecord?
    ensures Mask(Mask(v, a), b) == Mask(Mask(v, b), a)
  {
    hide FindSlot;
    if a[0].InField? && b[0].InField? {
      var i, j := FindSlot(v.fields, a[0].name), FindSlot(v.fields, b[0].name);
      if i < |v.fields| { SlotStays(v.fields, b[0].name, i, Mask(v.fields[i].value, a[1..])); }
      if j < |v.fields| { SlotStays(v.fields, a[0].name, j, Mask(v.fields[j].value, b[1..])); }
      if i < |v.fields| && j < |v.fields| {
        assert Mask(Mask(v, a), b).fields == Mask(Mask(v, b), a).fields;
      }
    }
  }

  function MaskAll(v: Value, targets: seq<Path>): Value
    decreases |targets|
  {
    if targets == [] then v else MaskAll(Mask(v, targets[0]), targets[1..])
  }

  lemma {:induction false} MaskLast(v: Value, t: Path, targets: seq<Path>)
    ensures MaskAll(Mask(v, t), targets) == Mask(MaskAll(v, targets), t)
    decreases |targets|
  {
    hide Mask;
    if targets != [] {
      MasksCommute(v, t, targets[0]);
      MaskLast(Mask(v, targets[0]), t, targets[1..]);
    }
  }

  /** Every position that no target selects is unchanged. */
  lemma {:induction false} AllRestUnchanged(v: Value, schema: Node, targets: seq<Path>, key: Key)
    requires TransformAll(v, schema, targets, key).Some?
    ensures MaskAll(TransformAll(v, schema, targets, key).value, targets) == MaskAll(v, targets)
    decreases |targets|
  {
    hide Mask, Transform, NamesString;
    if targets != [] {
      var t, rest := targets[0], targets[1..];
      var first := Transform(v, t, [], key).value;
      var end := TransformAll(first, schema, rest, key).value;
      RestUnchanged(v, t, [], key);
      AllRestUnchanged(first, schema, rest, key);
      MaskLast(end, t, rest);
      MaskLast(first, t, rest);
    }
  }

  // ---- what all targets select ---------------------------------------------------------------------

  lemma {:induction false} OthersElsewhere(v: Value, schema: Node, targets: seq<Path>, key: Key, t: Path, p: Position)
    requires TransformAll(v, schema, targets, key).Some? && Selects(t, p) && forall q :: q in targets ==> Apart(q, t)
    ensures ValueAt(TransformAll(v, schema, targets, key).value, p) == ValueAt(v, p)
    decreases |targets|
  {
    hide Transform, ValueAt, Selects, NamesString;
    if targets != [] {
      assert targets[0] in targets;
      Elsewhere(v, targets[0], [], key, t, p);
      OthersElsewhere(Transform(v, targets[0], [], key).value, schema, targets[1..], key, t, p);
    }
  }

  /** At every position any target selects, null stays null and a string is covered. */
  lemma {:induction false} AllSelectedCovered(v: Value, schema: Node, targets: seq<Path>, key: Key, t: Path,
      p: Position)
    requires PrefixFree(targets) && TransformAll(v, schema, targets, key).Some? && t in targets && Selects(t, p)
    ensures var w := TransformAll(v, schema, targets, key).value;
            match ValueAt(v, p)
            case None => ValueAt(w, p).None?
            case Some(x) =>
              if x.VNull? then ValueAt(w, p) == Some(VNull)
              else x.VStr? && ValueAt(w, p).Some? && ValueAt(w, p) == Covered(key, p, x.text)
    decreases |targets|
  {
    hide Transform, ValueAt, Selects, NamesString, PrefixFree, Apart, Covered;
    TailFree(targets);
    var first := Transform(v, targets[0], [], key).value;
    if t == targets[0] {
      SelectedCovered(v, t, [], key, p);
      assert [] + p == p;
      forall q | q in targets[1..] ensures Apart(q, t) { ApartSymmetric(t, q); }
      OthersElsewhere(first, schema, targets[1..], key, t, p);
    } else {
      ApartIsApart(targets[0], t);
      Elsewhere(v, targets[0], [], key, t, p);
      AllSelectedCovered(first, schema, targets[1..], key, t, p);
    }
  }

  lemma {:induction false} ApartIsApart(a: Path, b: Path)
    requires Apart(a, b)
    ensures !(a <= b) && !(b <= a)
  {
  }

  /** A null record on the way to a target: the value conforms, and the transform fails all the same. */
  lemma {:induction false} NullAncestorFails(f: Formats, key: Key)
    ensures var schema := Node(false, Record([Field("a", Node(true, Record([Field("b", Node(false, Str))])))]));
            var v, t := VRecord([Slot("a", VNull)]), [InField("a"), InField("b")];
            && Conforms(f, v, schema) && SelfValid(f, v) && PrefixFree([t]) && NamesString(schema, t)
            && TransformAll(v, schema, [t], key).None?
  {
    var inner := Node(true, Record([Field("b", Node(false, Str))]));
    var schema := Node(false, Record([Field("a", inner)]));
    var v, t := VRecord([Slot("a", VNull)]), [InField("a"), InField("b")];
    assert FindField(schema.kind.fields, "a") == 0 && FindField(inner.kind.fields, "b") == 0
      && FindSlot(v.fields, "a") == 0;
    assert t[1..] == [InField("b")] && t[1..][1..] == [];
    assert Child(schema, t[0]) == Some(inner) && Child(inner, t[1]) == Some(Node(false, Str));
    assert NodeAt(inner, t[1..]) == Some(Node(false, Str));
    assert Transform(VNull, t[1..], [AtField("a")], key).None?;
  }

  // ---- the loops -------------------------------------------------------------------------------------

  /** `transform_values_at_path`, element by element and entry by entry, stopping at the first failure. */
  method ApplyTarget(v: Value, path: Path, at: Position, key: Key) returns (r: Option<Value>)
    ensures r == Transform(v, path, at, key)
    decreases |path|
  {
    hide Covered;
    if path == [] {
      if v.VNull? { return Some(v); }
      if !v.VStr? { return None; }
      return Covered(key, at, v.text);
    }
    if v.VArray? && path[0].Element? {
      r := ApplyToArray(v, path, at, key);
      return;
    }
    if v.VMap? && path[0].MapValue? {
      r := ApplyToMap(v, path, at, key);
      return;
    }
    if v.VRecord? && path[0].InField? {
      var i := FindSlot(v.fields, path[0].name);
      if i == |v.fields| { return None; }
      var inner := ApplyTarget(v.fields[i].value, path[1..], at + [AtField(path[0].name)], key);
      if inner.None? { return None; }
      return Some(VRecord(v.fields[i := v.fields[i].(value := inner.value)]));
    }
    if v.VCustom? && path[0].Logical? {
      var inner := ApplyTarget(v.value, path[1..], at + [AtLogical], key);
      if inner.None? { return None; }
      return Some(VCustom(v.typeId, inner.value));
    }
    r := None;
  }

  method ApplyToArray(v: Value, path: Path, at: Position, key: Key) returns (r: Option<Value>)
    requires path != [] && v.VArray? && path[0].Element?
    ensures r == Transform(v, path, at, key)
    decreases |path|, 0
  {
    hide Covered;
    var items: seq<Value> := [];
    for i := 0 to |v.items|
      invariant |items| == i
      invariant forall j :: 0 <= j < i ==> Transform(v.items[j], path[1..], at + [AtIndex(j)], key) == Some(items[j])
    {
      var item := ApplyTarget(v.items[i], path[1..], at + [AtIndex(i)], key);
      if item.None? { return None; }
      items := items + [item.value];
    }
    assert items == Transform(v, path, at, key).value.items;
    r := Some(VArray(items));
  }

  method ApplyToMap(v: Value, path: Path, at: Position, key: Key) returns (r: Option<Value>)
    requires path != [] && v.VMap? && path[0].MapValue?
    ensures r == Transform(v, path, at, key)
    decreases |path|, 0
  {
    hide Covered;
    var entries: seq<Entry> := [];
    for i := 0 to |v.entries|
      invariant |entries| == i
      invariant forall j :: 0 <= j < i ==>
                  && Transform(v.entries[j].value, path[1..], at + [AtKey(v.entries[j].key)], key) ==
                     Some(entries[j].value)
                  && entries[j].key == v.entries[j].key
    {
      var value := ApplyTarget(v.entries[i].value, path[1..], at + [AtKey(v.entries[i].key)], key);
      if value.None? { return None; }
      entries := entries + [v.entries[i].(value := value.value)];
    }
    assert entries == Transform(v, path, at, key).value.entries;
    r := Some(VMap(entries));
  }

  method ApplyTargets(v: Value, schema: Node, targets: seq<Path>, key: Key) returns (r: Option<Value>)
    ensures r == TransformAll(v, schema, targets, key)
  {
    hide Transform, NamesString;
    var value := v;
    assert targets[0..] == targets;
    for i := 0 to |targets|
      invariant TransformAll(value, schema, targets[i..], key) == TransformAll(v, schema, targets, key)
    {
      assert targets[i..][1..] == targets[i + 1..];
      if !NamesString(schema, targets[i]) { return None; }
      var next := ApplyTarget(value, targets[i], [], key);
      if next.None? { return None; }
      value := next.value;
    }
    r := Some(value);
  }

  method DeclareOutput(schema: Node, targets: seq<Path>, key: Key) returns (r: Option<Node>)
    ensures r == OutputSchema(schema, targets, key)
  {
    hide Replace;
    var output := schema;
    if key.Redact? { return Some(output); }
    assert targets[0..] == targets;
    for i := 0 to |targets|
      invariant ReplaceAll(output, targets[i..]) == ReplaceAll(schema, targets)
    {
      assert targets[i..][1..] == targets[i + 1..];
      var next := Replace(output, targets[i]);
      if next.None? { return None; }
      output := next.value;
    }
    r := Some(output);
  }
}
