/** What the envelope transform leaves alone, what it does to selected values, and when it succeeds. */
module EnvelopeTheorems {
  import opened Common
  import opened BinaryIr
  import opened Envelope

  // ---- positions not selected ------------------------------------------------------------------------

  /** `v` with every selected position blanked out. */
  function Mask(v: Value, path: Path): Value
    decreases |path|
  {
    if path == [] then VNull
    else if v.VArray? && path[0].Element? then
      VArray(seq(|v.items|, i requires 0 <= i < |v.items| => Mask(v.items[i], path[1..])))
    else if v.VMap? && path[0].MapValue? then
      VMap(seq(|v.entries|, i requires 0 <= i < |v.entries| =>
        v.entries[i].(value := Mask(v.entries[i].value, path[1..]))))
    else if v.VRecord? && path[0].InField? then
      var i := FindSlot(v.fields, path[0].name);
      if i == |v.fields| then v else VRecord(v.fields[i := v.fields[i].(value := Mask(v.fields[i].value, path[1..]))])
    else if v.VCustom? && path[0].Logical? then VCustom(v.typeId, Mask(v.value, path[1..]))
    else v
  }

  lemma {:induction false} SlotStays(fields: seq<Slot>, name: string, i: nat, value: Value)
    requires i < |fields|
    ensures FindSlot(fields[i := fields[i].(value := value)], name) == FindSlot(fields, name)
  {
    hide FindSlot;
    var changed := fields[i := fields[i].(value := value)];
    assert forall j :: 0 <= j < |fields| ==> changed[j].name == fields[j].name;
  }

  /** Outside the selected positions nothing changes: shapes, lengths, names, keys, order and values. */
  lemma {:induction false} RestUnchanged(v: Value, path: Path, at: Position, key: Key)
    requires Transform(v, path, at, key).Some?
    ensures Mask(Transform(v, path, at, key).value, path) == Mask(v, path)
    decreases |path|
  {
    if path != [] {
      var w := Transform(v, path, at, key).value;
      var rest := path[1..];
      if v.VArray? {
        forall i | 0 <= i < |v.items| ensures Mask(w.items[i], rest) == Mask(v.items[i], rest) {
          RestUnchanged(v.items[i], rest, at + [AtIndex(i)], key);
        }
        assert Mask(w, path).items == Mask(v, path).items;
      } else if v.VMap? {
        forall i | 0 <= i < |v.entries| ensures Mask(w, path).entries[i] == Mask(v, path).entries[i] {
          RestUnchanged(v.entries[i].value, rest, at + [AtKey(v.entries[i].key)], key);
        }
        assert Mask(w, path).entries == Mask(v, path).entries;
      } else if v.VRecord? {
        RecordUnchanged(v, path, at, key);
      } else {
        RestUnchanged(v.value, rest, at + [AtLogical], key);
      }
    }
  }

  lemma {:induction false} RecordUnchanged(v: Value, path: Path, at: Position, key: Key)
    requires v.VRecord? && path != [] && Transform(v, path, at, key).Some?
    ensures Mask(Transform(v, path, at, key).value, path) == Mask(v, path)
    decreases |path|, 0
  {
    hide FindSlot;
    var w, name := Transform(v, path, at, key).value, path[0].name;
    var i := FindSlot(v.fields, name);
    RestUnchanged(v.fields[i].value, path[1..], at + [AtField(name)], key);
    SlotStays(v.fields, name, i, w.fields[i].value);
    assert Mask(w, path).fields == Mask(v, path).fields;
  }

  // ---- selected positions ----------------------------------------------------------------------------

  lemma {:induction false} ValueAtDescends(v: Value, at: Position)
    requires at != []
    ensures ValueAt(v, at) == if ChildValue(v, at[0]).None? then None else ValueAt(ChildValue(v, at[0]).value, at[1..])
  {
  }

  lemma {:induction false} KeyStays(before: seq<Entry>, after: seq<Entry>, key: string)
    requires |before| == |after| && forall i :: 0 <= i < |before| ==> before[i].key == after[i].key
    ensures FindKey(before, key) == FindKey(after, key)
  {
    hide FindKey;
  }

  /** The child at a selected step is the transformed child. */
  lemma {:induction false} ChildTransformed(v: Value, path: Path, at: Position, key: Key, step: At)
    requires path != [] && Transform(v, path, at, key).Some? && StepSelects(path[0], step)
    ensures ChildValue(v, step).Some? <==> ChildValue(Transform(v, path, at, key).value, step).Some?
    ensures ChildValue(v, step).Some? ==>
              var r := Transform(ChildValue(v, step).value, path[1..], at + [step], key);
              r.Some? && ChildValue(Transform(v, path, at, key).value, step) == Some(r.value)
  {
    hide FindSlot, FindKey;
    var w := Transform(v, path, at, key).value;
    if v.VMap? {
      KeyStays(v.entries, w.entries, step.key);
    } else if v.VRecord? {
      var i := FindSlot(v.fields, step.name);
      SlotStays(v.fields, step.name, i, w.fields[i].value);
    }
  }

  /** At a selected position null stays null and a string is covered; the same positions exist. */
  lemma {:induction false} SelectedCovered(v: Value, path: Path, at: Position, key: Key, p: Position)
    requires Transform(v, path, at, key).Some? && Selects(path, p)
    ensures var w := Transform(v, path, at, key).value;
            match ValueAt(v, p)
            case None => ValueAt(w, p).None?
            case Some(x) =>
              if x.VNull? then ValueAt(w, p) == Some(VNull)
              else x.VStr? && ValueAt(w, p).Some? && ValueAt(w, p) == Covered(key, at + p, x.text)
    decreases |path|
  {
    hide Covered;
    var w := Transform(v, path, at, key).value;
    if path == [] {
      assert at + p == at;
    } else {
      ChildTransformed(v, path, at, key, p[0]);
      ValueAtDescends(v, p);
      ValueAtDescends(w, p);
      if ChildValue(v, p[0]).Some? {
        SelectedCovered(ChildValue(v, p[0]).value, path[1..], at + [p[0]], key, p[1..]);
        assert at + [p[0]] + p[1..] == at + p;
      }
    }
  }

  // ---- when it succeeds ------------------------------------------------------------------------------

  /** No strict ancestor of a selected position is null. */
  ghost predicate Clear(v: Value, path: Path) {
    forall k, p :: 0 <= k < |path| && Selects(path[..k], p) && ValueAt(v, p).Some? ==> !ValueAt(v, p).value.VNull?
  }

  /** Sealing succeeds for every selected string. */
  ghost predicate Sealable(v: Value, path: Path, at: Position, key: Key) {
    forall p :: Selects(path, p) && ValueAt(v, p).Some? && ValueAt(v, p).value.VStr? ==>
                  Covered(key, at + p, ValueAt(v, p).value.text).Some?
  }

  lemma {:induction false} ClearDescends(v: Value, path: Path, step: At)
    requires Clear(v, path) && path != [] && StepSelects(path[0], step) && ChildValue(v, step).Some?
    ensures Clear(ChildValue(v, step).value, path[1..])
  {
    var child := ChildValue(v, step).value;
    forall k, p | 0 <= k < |path| - 1 && Selects(path[1..][..k], p) && ValueAt(child, p).Some?
      ensures !ValueAt(child, p).value.VNull?
    {
      var q := [step] + p;
      assert path[..k + 1][0] == path[0] && path[..k + 1][1..] == path[1..][..k];
      assert Selects(path[..k + 1], q) by { SelectsCons(path[..k + 1], step, p); }
      ValueAtDescends(v, q);
      assert q[1..] == p;
    }
  }

  lemma {:induction false} SelectsCons(path: Path, step: At, p: Position)
    requires path != []
    ensures Selects(path, [step] + p) <==> StepSelects(path[0], step) && Selects(path[1..], p)
  {
    var q := [step] + p;
    if Selects(path, q) {
      assert StepSelects(path[0], q[0]);
      assert forall i :: 0 <= i < |path| - 1 ==>
        path[1..][i] == path[i + 1] && p[i] == q[i + 1] && StepSelects(path[i + 1], q[i + 1]);
    }
    if StepSelects(path[0], step) && Selects(path[1..], p) {
      forall i | 0 <= i < |path| ensures StepSelects(path[i], q[i]) {
        if i > 0 { assert StepSelects(path[1..][i - 1], p[i - 1]); }
      }
    }
  }

  lemma {:induction false} SealableDescends(v: Value, path: Path, at: Position, key: Key, step: At)
    requires Sealable(v, path, at, key) && path != [] && StepSelects(path[0], step) && ChildValue(v, step).Some?
    ensures Sealable(ChildValue(v, step).value, path[1..], at + [step], key)
  {
    hide Covered;
    var child := ChildValue(v, step).value;
    forall p | Selects(path[1..], p) && ValueAt(child, p).Some? && ValueAt(child, p).value.VStr?
      ensures Covered(key, at + [step] + p, ValueAt(child, p).value.text).Some?
    {
      var q := [step] + p;
      SelectsCons(path, step, p);
      ValueAtDescends(v, q);
      assert q[1..] == p && at + [step] + p == at + q;
    }
  }

  /**
   On a conforming value the transform succeeds exactly when no strict ancestor of a selected position is
   null and every sealing succeeds.
   */
  lemma {:induction false} SucceedsExactly(f: Formats, v: Value, node: Node, path: Path, at: Position, key: Key)
    requires Conforms(f, v, node) && SelfValid(f, v) && NamesString(node, path)
    ensures Transform(v, path, at, key).Some? <==> Clear(v, path) && Sealable(v, path, at, key)
    decreases |path|
  {
    if Clear(v, path) && Sealable(v, path, at, key) { Succeeds(f, v, node, path, at, key); }
    if Transform(v, path, at, key).Some? { SucceededClear(v, path, at, key); SucceededSealable(v, path, at, key); }
  }

  lemma {:induction false} Succeeds(f: Formats, v: Value, node: Node, path: Path, at: Position, key: Key)
    requires Conforms(f, v, node) && SelfValid(f, v) && NamesString(node, path)
    requires Clear(v, path) && Sealable(v, path, at, key)
    ensures Transform(v, path, at, key).Some?
    decreases |path|
  {
    hide Covered, Clear, Sealable, NamesString, Before, FindKey, FindSlot, FindField;
    if path == [] {
      SucceedsHere(f, v, node, at, key);
    } else {
      NotNull(v, path);
      ReplaceDescends(node, path, key);
      if v.VArray? {
        forall i | 0 <= i < |v.items| ensures Transform(v.items[i], path[1..], at + [AtIndex(i)], key).Some? {
          ClearDescends(v, path, AtIndex(i));
          SealableDescends(v, path, at, key, AtIndex(i));
          Succeeds(f, v.items[i], node.kind.items, path[1..], at + [AtIndex(i)], key);
        }
      } else if v.VMap? {
        SucceedsInMap(f, v, node, path, at, key);
      } else if v.VRecord? {
        SucceedsInRecord(f, v, node, path, at, key);
      } else {
        ClearDescends(v, path, AtLogical);
        SealableDescends(v, path, at, key, AtLogical);
        Succeeds(f, v.value, node.kind.value, path[1..], at + [AtLogical], key);
      }
    }
  }

  lemma {:induction false} SucceedsHere(f: Formats, v: Value, node: Node, at: Position, key: Key)
    requires Conforms(f, v, node) && NamesString(node, []) && Sealable(v, [], at, key)
    ensures Transform(v, [], at, key).Some?
  {
    hide Covered;
    assert Selects([], []) && ValueAt(v, []) == Some(v) && at + [] == at;
  }

  lemma {:induction false} NotNull(v: Value, path: Path)
    requires Clear(v, path) && path != []
    ensures !v.VNull?
  {
    assert path[..0] == [] && Selects(path[..0], []);
    assert ValueAt(v, []) == Some(v);
  }

  lemma {:induction false} SucceedsInMap(f: Formats, v: Value, node: Node, path: Path, at: Position, key: Key)
    requires v.VMap? && path != [] && Conforms(f, v, node) && SelfValid(f, v) && NamesString(node, path)
    requires Clear(v, path) && Sealable(v, path, at, key)
    ensures Transform(v, path, at, key).Some?
    decreases |path|, 0
  {
    hide Covered, Clear, Sealable, NamesString, Before, FindKey;
    ReplaceDescends(node, path, key);
    forall i | 0 <= i < |v.entries|
      ensures Transform(v.entries[i].value, path[1..], at + [AtKey(v.entries[i].key)], key).Some?
    {
      EntryFound(v.entries, i);
      ClearDescends(v, path, AtKey(v.entries[i].key));
      SealableDescends(v, path, at, key, AtKey(v.entries[i].key));
      Succeeds(f, v.entries[i].value, node.kind.values, path[1..], at + [AtKey(v.entries[i].key)], key);
    }
  }

  lemma {:induction false} SucceedsInRecord(f: Formats, v: Value, node: Node, path: Path, at: Position, key: Key)
    requires v.VRecord? && path != [] && Conforms(f, v, node) && SelfValid(f, v) && NamesString(node, path)
    requires Clear(v, path) && Sealable(v, path, at, key)
    ensures Transform(v, path, at, key).Some?
    decreases |path|, 0
  {
    hide Covered, Clear, Sealable, NamesString, FindSlot, FindField;
    ReplaceDescends(node, path, key);
    var name := path[0].name;
    SameIndex(v.fields, node.kind.fields, name);
    var i := FindSlot(v.fields, name);
    ClearDescends(v, path, AtField(name));
    SealableDescends(v, path, at, key, AtField(name));
    Succeeds(f, v.fields[i].value, node.kind.fields[i].schema, path[1..], at + [AtField(name)], key);
  }

  lemma {:induction false} SucceededClear(v: Value, path: Path, at: Position, key: Key)
    requires Transform(v, path, at, key).Some?
    ensures Clear(v, path)
    decreases |path|
  {
    hide Covered;
    forall k, p | 0 <= k < |path| && Selects(path[..k], p) && ValueAt(v, p).Some? ensures !ValueAt(v, p).value.VNull? {
      if k > 0 {
        assert p == [p[0]] + p[1..];
        SelectsCons(path[..k], p[0], p[1..]);
        assert path[..k][0] == path[0] && path[..k][1..] == path[1..][..k - 1];
        ChildTransformed(v, path, at, key, p[0]);
        ValueAtDescends(v, p);
        SucceededClear(ChildValue(v, p[0]).value, path[1..], at + [p[0]], key);
      }
    }
  }

  lemma {:induction false} SucceededSealable(v: Value, path: Path, at: Position, key: Key)
    requires Transform(v, path, at, key).Some?
    ensures Sealable(v, path, at, key)
  {
    hide Transform, Covered, ValueAt, Selects;
    forall p | Selects(path, p) && ValueAt(v, p).Some? && ValueAt(v, p).value.VStr?
      ensures Covered(key, at + p, ValueAt(v, p).value.text).Some?
    {
      SelectedCovered(v, path, at, key, p);
    }
  }
}
