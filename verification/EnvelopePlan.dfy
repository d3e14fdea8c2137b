/** Planning a transform: when the rewritten schema passes the second validation, and what that is worth. */
module EnvelopePlan {
  import opened Common
  import opened BinaryIr
  import opened Envelope
  import opened EnvelopeTargets
  import opened Paths
  import opened SchemaValidation

  // ---- one target ------------------------------------------------------------------------------------

  lemma {:induction false} EnvelopeSize(nullable: bool)
    ensures FieldTotal(EnvelopeSchema(nullable)) == 5
  {
    PlainTotals(EnvelopeSchema(nullable).kind.fields);
  }

  lemma {:induction false} EnvelopeForm(nullable: bool)
    ensures WellFormed(EnvelopeSchema(nullable))
  {
    var fields := EnvelopeSchema(nullable).kind.fields;
    forall i | 0 <= i < 5 ensures fields[i].name == NAMES[i] != "" { NamesFilled(i); }
    forall i, j | 0 <= i < j < 5 ensures fields[i].name != fields[j].name { NamesDiffer(i, j); }
  }

  lemma {:induction false} EnvelopeDepth(nullable: bool, limit: int)
    ensures SchemaNoDeeper(EnvelopeSchema(nullable), limit) <==> limit >= 1
  {
    var node := EnvelopeSchema(nullable);
    if SchemaNoDeeper(node, limit) { assert SchemaNoDeeper(node.kind.fields[0].schema, limit - 1); }
  }

  lemma {:induction false} PlainTotals(fields: seq<Field>)
    requires forall i :: 0 <= i < |fields| ==> fields[i].schema.kind.Str?
    ensures FieldTotals(fields) == 0
    decreases |fields|
  {
    if fields != [] { PlainTotals(fields[..|fields| - 1]); }
  }

  lemma {:induction false} TotalsUpdate(fields: seq<Field>, i: nat, schema: Node)
    requires i < |fields|
    ensures FieldTotals(fields[i := fields[i].(schema := schema)]) ==
            FieldTotals(fields) - FieldTotal(fields[i].schema) + FieldTotal(schema)
    decreases |fields|
  {
    hide FieldTotal;
    var changed := fields[i := fields[i].(schema := schema)];
    var last := |fields| - 1;
    if i == last {
      assert changed[..last] == fields[..last];
    } else {
      assert changed[..last] == fields[..last][i := fields[i].(schema := schema)];
      TotalsUpdate(fields[..last], i, schema);
    }
  }

  /** Rewriting adds the five fields of an envelope. */
  lemma {:induction false} ReplaceAddsFive(node: Node, path: Path)
    requires Replace(node, path).Some?
    ensures FieldTotal(Replace(node, path).value) == FieldTotal(node) + 5
    decreases |path|
  {
    hide EnvelopeSchema, FindField;
    if path == [] {
      EnvelopeSize(node.nullable);
    } else {
      var child := Child(node, path[0]).value;
      ReplaceAddsFive(child, path[1..]);
      if node.kind.Record? {
        TotalsUpdate(node.kind.fields, FindField(node.kind.fields, path[0].name), Replace(child, path[1..]).value);
      }
    }
  }

  lemma {:induction false} ReplaceKeepsForm(node: Node, path: Path)
    requires Replace(node, path).Some?
    ensures WellFormed(Replace(node, path).value) <==> WellFormed(node)
    decreases |path|
  {
    hide EnvelopeSchema, FindField;
    if path == [] {
      EnvelopeForm(node.nullable);
    } else {
      var child := Child(node, path[0]).value;
      ReplaceKeepsForm(child, path[1..]);
      if node.kind.Record? {
        FieldKeepsForm(node, FindField(node.kind.fields, path[0].name), Replace(child, path[1..]).value);
      }
    }
  }

  lemma {:induction false} FieldKeepsForm(node: Node, i: nat, schema: Node)
    requires node.kind.Record? && i < |node.kind.fields|
             && (WellFormed(schema) <==> WellFormed(node.kind.fields[i].schema))
    ensures var fields := node.kind.fields;
            WellFormed(node.(kind := Record(fields[i := fields[i].(schema := schema)]))) <==> WellFormed(node)
  {
    var fields := node.kind.fields;
    var changed := fields[i := fields[i].(schema := schema)];
    assert forall j :: 0 <= j < |fields| ==>
      changed[j].name == fields[j].name && (WellFormed(changed[j].schema) <==> WellFormed(fields[j].schema));
  }

  /** An envelope reaches one level below the string it replaces. */
  lemma {:induction false} ReplaceDeepens(node: Node, path: Path, limit: int)
    requires Replace(node, path).Some?
    ensures SchemaNoDeeper(Replace(node, path).value, limit) <==> SchemaNoDeeper(node, limit) && |path| + 1 <= limit
    decreases |path|
  {
    hide EnvelopeSchema, FindField;
    if path == [] {
      EnvelopeDepth(node.nullable, limit);
    } else {
      var child := Child(node, path[0]).value;
      ReplaceDeepens(child, path[1..], limit - 1);
      if node.kind.Record? {
        FieldDeepens(node, FindField(node.kind.fields, path[0].name), Replace(child, path[1..]).value, limit,
          |path| + 1 <= limit);
      }
    }
  }

  lemma {:induction false} FieldDeepens(node: Node, i: nat, schema: Node, limit: int, fits: bool)
    requires node.kind.Record? && i < |node.kind.fields|
    requires SchemaNoDeeper(schema, limit - 1) <==> SchemaNoDeeper(node.kind.fields[i].schema, limit - 1) && fits
    ensures var fields := node.kind.fields;
            SchemaNoDeeper(node.(kind := Record(fields[i := fields[i].(schema := schema)])), limit) <==>
              SchemaNoDeeper(node, limit) && fits
  {
    var fields := node.kind.fields;
    var changed := fields[i := fields[i].(schema := schema)];
    assert forall j :: 0 <= j < |fields| && j != i ==> changed[j] == fields[j];
    assert changed[i].schema == schema;
  }

  // ---- all targets -----------------------------------------------------------------------------------

  /** The condition on the input schema under which its rewriting is within the limits. */
  predicate Roomy(limits: Limits, node: Node, targets: seq<Path>) {
    && FieldTotal(node) + 5 * |targets| <= limits.maxFields
    && forall t :: t in targets ==> |t| + 1 <= limits.maxDepth
  }

  /** A rewritten schema is valid exactly when the original is and leaves room for the envelopes. */
  lemma {:induction false} RewrittenIsValidExactly(limits: Limits, node: Node, targets: seq<Path>)
    requires ReplaceAll(node, targets).Some?
    ensures Accepts(limits, 0, 0, ReplaceAll(node, targets).value) <==>
            Accepts(limits, 0, 0, node) && Roomy(limits, node, targets)
    decreases |targets|
  {
    hide Replace, FieldTotal, WellFormed, SchemaNoDeeper;
    if targets != [] {
      var t, next := targets[0], Replace(node, targets[0]).value;
      ReplaceAddsFive(node, t);
      ReplaceKeepsForm(node, t);
      ReplaceDeepens(node, t, limits.maxDepth);
      RewrittenIsValidExactly(limits, next, targets[1..]);
      assert forall q :: q in targets <==> q == t || q in targets[1..];
    }
  }

  lemma {:induction false} ReplaceAllSucceedsExactly(node: Node, targets: seq<Path>)
    requires PrefixFree(targets)
    ensures ReplaceAll(node, targets).Some? <==> forall t :: t in targets ==> NamesString(node, t)
    decreases |targets|
  {
    hide Replace, Apart, NodeAt, PrefixFree;
    if targets != [] {
      var t := targets[0];
      assert forall q :: q in targets <==> q == t || q in targets[1..];
      ReplaceSucceedsExactly(node, t);
      TailFree(targets);
      if Replace(node, t).Some? {
        var next := Replace(node, t).value;
        forall q | q in targets[1..] ensures NamesString(next, q) <==> NamesString(node, q) {
          ReplaceKeepsOther(node, t, q);
        }
        ReplaceAllSucceedsExactly(next, targets[1..]);
      }
    }
  }

  /**
   Validate, rewrite, validate again: a plan is made exactly when the schema is valid, every target names a
   string, and there is room for five fields per target one level below it. A redacting plan needs no room.
   */
  method Plan(limits: Limits, schema: Node, targets: seq<Path>, key: Key) returns (r: Option<Node>)
    requires PrefixFree(targets)
    ensures r.Some? <==>
            && Accepts(limits, 0, 0, schema)
            && (key.Seal? ==> Roomy(limits, schema, targets) && forall t :: t in targets ==> NamesString(schema, t))
    ensures r.Some? ==> r == OutputSchema(schema, targets, key) && Accepts(limits, 0, 0, r.value)
  {
    hide Accepts, ReplaceAll, Roomy, PrefixFree;
    ReplaceAllSucceedsExactly(schema, targets);
    if ReplaceAll(schema, targets).Some? { RewrittenIsValidExactly(limits, schema, targets); }
    var source := Validate(limits, 0, 0, schema);
    if source.None? { return None; }
    var output := DeclareOutput(schema, targets, key);
    if output.None? { return None; }
    var transformed := Validate(limits, 0, 0, output.value);
    if transformed.None? { return None; }
    r := output;
  }

  /** Whatever a planned transform returns passes the validation of its output. */
  lemma {:induction false} PlannedOutputPasses(f: Formats, limits: Limits, v: Value, schema: Node, targets: seq<Path>,
      key: Key)
    requires PrefixFree(targets) && ValidValue(f, v, schema, limits.maxDepth) && Accepts(limits, 0, 0, schema)
    requires key.Seal? ==> Roomy(limits, schema, targets)
    requires TransformAll(v, schema, targets, key).Some?
    ensures OutputSchema(schema, targets, key).Some?
    ensures ValidValue(f, TransformAll(v, schema, targets, key).value, OutputSchema(schema, targets, key).value,
            limits.maxDepth)
  {
    hide TransformAll, ReplaceAll, Conforms, SelfValid, NoDeeper, SchemaNoDeeper, WellFormed, FieldTotal, Roomy,
      PrefixFree;
    OutputIsValid(f, v, schema, targets, key, limits.maxDepth);
    if key.Seal? { RewrittenIsValidExactly(limits, schema, targets); }
  }
}
