/** The budgets of a session: fuel and cumulative output, at every point of a run that meets no error. */
module PipelineBounds {
  import opened Common
  import opened Streams
  import opened PipelineStages
  import opened PipelineSpec

  /** The lesser of the absolute output limit and the expansion allowed for the input so far. */
  function Cap(l: Limits, input: nat): nat {
    Min(l.maxOutput, input * l.factor + l.slack)
  }

  lemma {:induction false} SaturationIsIrrelevant(l: Limits, input: nat)
    ensures ExpansionLimitFor(l, input) == Cap(l, input)
  {
    var product := input * l.factor;
    assert SaturatingMul(input, l.factor) == Min(product, U64_MAX);
  }

  lemma {:induction false} CapGrows(l: Limits, a: nat, b: nat)
    requires a <= b
    ensures Cap(l, a) <= Cap(l, b)
  {
    Scales(a, b, l.factor);
  }

  lemma {:induction false} Scales(a: nat, b: nat, k: nat)
    requires a <= b
    ensures a * k <= b * k
  {
    assert b * k == a * k + (b - a) * k;
    assert (b - a) * k >= 0;
  }

  /** Every stage and the whole chain are within the output cap, and the input and the fuel within theirs. */
  predicate Within<S, V>(c: Chain<S, V>, p: Pipe<S, V>) {
    && p.input <= c.limits.maxInput && p.fuel <= c.limits.maxFuel
    && p.output <= Cap(c.limits, p.input)
    && forall i :: 0 <= i < |p.stage| ==> p.stage[i] <= Cap(c.limits, p.input)
  }

  lemma {:induction false} OutputIsCapped(l: Limits, input: nat, current: nat, added: nat)
    ensures AddOutput(l, input, current, added).Ok? <==> current + added <= Cap(l, input)
  {
    hide ExpansionLimitFor;
    SaturationIsIrrelevant(l, input);
  }

  lemma {:induction false} TransformWithin<S, V>(c: Chain<S, V>, p: Pipe<S, V>, i: nat, record: Record)
    requires Shaped(c, p) && LiveFrom(p, i) && i < |c.filters| && Within(c, p)
    ensures var r := TransformAt(c, p, i, record);
            r.Ok? ==> Within(c, r.value.0) && (r.value.1.Some? ==>
              |r.value.1.value.payload| <= c.limits.maxIntermediate)
  {
    hide AddOutput, Cap;
    forall n: nat ensures AddOutput(c.limits, p.input, p.stage[i], n).Ok? <==>
      p.stage[i] + n <= Cap(c.limits, p.input) {
      OutputIsCapped(c.limits, p.input, p.stage[i], n);
    }
    var r := TransformAt(c, p, i, record);
    if r.Ok? && r.value.1.Some? {
      AddsUp(c.limits, p.input, p.stage[i], RecordLen(r.value.1.value));
    }
  }

  lemma {:induction false} AddsUp(l: Limits, input: nat, current: nat, added: nat)
    ensures var r := AddOutput(l, input, current, added); r.Ok? ==> r.value == current + added
  {
    hide ExpansionLimitFor;
  }

  lemma {:induction false} DeliverWithin<S, V>(c: Chain<S, V>, p: Pipe<S, V>, record: Record)
    requires Within(c, p)
    ensures var r := Deliver(c, p, record); r.Ok? ==> Within(c, r.value)
  {
    hide AddOutput, Cap;
    OutputIsCapped(c.limits, p.input, p.output, RecordLen(record));
    AddsUp(c.limits, p.input, p.output, RecordLen(record));
  }

  lemma {:induction false} RouteWithin<S, V>(c: Chain<S, V>, p: Pipe<S, V>, i: nat, record: Record)
    requires Shaped(c, p) && LiveFrom(p, i) && i <= |c.filters| && Within(c, p)
    ensures var r := RouteFrom(c, p, i, record); r.Ok? ==> Within(c, r.value.0)
    decreases |c.filters| - i
  {
    hide TransformAt, Deliver, Within;
    if i == |c.filters| {
      DeliverWithin(c, p, record);
    } else {
      TransformWithin(c, p, i, record);
      var t := TransformAt(c, p, i, record);
      if t.Ok? && t.value.1.Some? { RouteWithin(c, t.value.0, i + 1, t.value.1.value); }
    }
  }

  /** Every call keeps the budgets. */
  lemma {:induction false} ProcessWithin<S, V>(c: Chain<S, V>, p: Pipe<S, V>, record: Record, expired: bool)
    requires Shaped(c, p) && LiveFrom(p, 0) && Within(c, p)
    ensures var r := Process(c, p, record, expired); r.Ok? ==> Within(c, r.value.0)
  {
    hide RouteFrom, Cap;
    var q := p.(input := p.input + RecordLen(record));
    CapGrows(c.limits, p.input, q.input);
    if Process(c, p, record, expired).Ok? { RouteWithin(c, q, 0, record); }
  }

  lemma {:induction false} FinishAtWithin<S, V>(c: Chain<S, V>, p: Pipe<S, V>, i: nat, expired: bool)
    requires Shaped(c, p) && LiveFrom(p, i) && i < |c.filters| && Within(c, p)
    ensures var r := FinishAt(c, p, i, expired); r.Ok? ==> Within(c, r.value.0)
  {
    hide RouteFrom, AddOutput, Cap;
    var (trailing, counter) := c.filters[i].finish(p.slots[i].state);
    var fuel := AddFuel(c.limits, p.fuel, SaturatingSub(counter, p.slots[i].accounted));
    var total := AddOutput(c.limits, p.input, p.stage[i], |trailing|);
    if FinishAt(c, p, i, expired).Ok? && trailing != [] {
      OutputIsCapped(c.limits, p.input, p.stage[i], |trailing|);
      AddsUp(c.limits, p.input, p.stage[i], |trailing|);
      var q := p.(slots := p.slots[i := Taken(counter)], fuel := fuel.value, stage := p.stage[i := total.value]);
      RouteWithin(c, q, i + 1, Record(trailing, []));
    }
  }

  lemma {:induction false} FinishWithin<S, V>(c: Chain<S, V>, p: Pipe<S, V>, i: nat, expired: nat -> bool)
    requires Shaped(c, p) && LiveFrom(p, i) && i <= |c.filters| && Within(c, p)
    ensures var r := FinishFrom(c, p, i, expired); r.Ok? ==> Within(c, r.value.0)
    decreases |c.filters| - i
  {
    hide FinishAt, Within;
    if i < |c.filters| {
      FinishAtWithin(c, p, i, expired(i));
      var r := FinishAt(c, p, i, expired(i));
      if r.Ok? { FinishWithin(c, r.value.0, i + 1, expired); }
    }
  }

  // ---- fuel ------------------------------------------------------------------------------------

  /** A filter whose own counter never runs backwards. */
  ghost predicate Metered<S(!new)>(f: Filter<S>) {
    && (forall s: S, payload: Bytes :: f.fuel(s) <= f.fuel(f.step(s, payload).0))
    && (forall s: S :: f.fuel(s) <= f.finish(s).1)
  }

  function Spent<S>(slots: seq<Slot<S>>): nat {
    if slots == [] then 0 else slots[0].accounted + Spent(slots[1..])
  }

  lemma {:induction false} SpentUpdate<S>(slots: seq<Slot<S>>, i: nat, slot: Slot<S>)
    requires i < |slots|
    ensures Spent(slots[i := slot]) == Spent(slots) - slots[i].accounted + slot.accounted
    decreases |slots|
  {
    if i == 0 {
      assert slots[0 := slot][1..] == slots[1..];
    } else {
      assert slots[i := slot][1..] == slots[1..][i - 1 := slot];
      SpentUpdate(slots[1..], i - 1, slot);
    }
  }

  /** Each counter is its plugin's own, and the total is never below their sum. */
  ghost predicate Metering<S, V>(c: Chain<S, V>, p: Pipe<S, V>)
    requires Shaped(c, p)
  {
    && Spent(p.slots) <= p.fuel
    && forall i :: 0 <= i < |p.slots| && p.slots[i].Live? ==>
       p.slots[i].accounted == c.filters[i].fuel(p.slots[i].state)
  }

  /** The total is the sum of the plugins' own counters. */
  predicate Exact<S, V>(p: Pipe<S, V>) {
    p.fuel == Spent(p.slots)
  }

  ghost predicate AllMetered<S(!new), V>(c: Chain<S, V>) {
    forall f :: f in c.filters ==> Metered(f)
  }

  /** What a step from `p` to `q` keeps: the total covers the counters, and is their sum if none runs backwards. */
  ghost predicate KeepsMetering<S(!new), V>(c: Chain<S, V>, p: Pipe<S, V>, q: Pipe<S, V>) {
    Shaped(c, q) && Metering(c, q) && (AllMetered(c) && Exact(p) ==> Exact(q))
  }

  lemma {:induction false} TransformMeters<S(!new), V>(c: Chain<S, V>, p: Pipe<S, V>, i: nat, record: Record)
    requires Shaped(c, p) && LiveFrom(p, i) && i < |c.filters| && Metering(c, p)
    ensures var r := TransformAt(c, p, i, record); r.Ok? ==> KeepsMetering(c, p, r.value.0)
  {
    hide AddOutput, Spent;
    var s := c.filters[i].step(p.slots[i].state, record.payload).0;
    SpentUpdate(p.slots, i, Live(s, c.filters[i].fuel(s)));
    assert AllMetered(c) ==> Metered(c.filters[i]);
  }

  lemma {:induction false} RouteMeters<S(!new), V>(c: Chain<S, V>, p: Pipe<S, V>, i: nat, record: Record)
    requires Shaped(c, p) && LiveFrom(p, i) && i <= |c.filters| && Metering(c, p)
    ensures var r := RouteFrom(c, p, i, record); r.Ok? ==> KeepsMetering(c, p, r.value.0)
    decreases |c.filters| - i
  {
    hide TransformAt, AddOutput, AllMetered, Spent;
    if i < |c.filters| {
      TransformMeters(c, p, i, record);
      var t := TransformAt(c, p, i, record);
      if t.Ok? && t.value.1.Some? { RouteMeters(c, t.value.0, i + 1, t.value.1.value); }
    }
  }

  lemma {:induction false} ProcessMeters<S(!new), V>(c: Chain<S, V>, p: Pipe<S, V>, record: Record, expired: bool)
    requires Shaped(c, p) && LiveFrom(p, 0) && Metering(c, p)
    ensures var r := Process(c, p, record, expired); r.Ok? ==> KeepsMetering(c, p, r.value.0)
  {
    hide RouteFrom, AllMetered, Spent;
    if Process(c, p, record, expired).Ok? { RouteMeters(c, p.(input := p.input + RecordLen(record)), 0, record); }
  }

  lemma {:induction false} FinishAtMeters<S(!new), V>(c: Chain<S, V>, p: Pipe<S, V>, i: nat, expired: bool)
    requires Shaped(c, p) && LiveFrom(p, i) && i < |c.filters| && Metering(c, p)
    ensures var r := FinishAt(c, p, i, expired); r.Ok? ==> KeepsMetering(c, p, r.value.0)
  {
    hide RouteFrom, AddOutput, Spent, AllMetered;
    var (trailing, counter) := c.filters[i].finish(p.slots[i].state);
    SpentUpdate(p.slots, i, Taken(counter));
    MeteredAt(c, i);
    var fuel := AddFuel(c.limits, p.fuel, SaturatingSub(counter, p.slots[i].accounted));
    var total := AddOutput(c.limits, p.input, p.stage[i], |trailing|);
    if FinishAt(c, p, i, expired).Ok? && trailing != [] {
      var q := p.(slots := p.slots[i := Taken(counter)], fuel := fuel.value, stage := p.stage[i := total.value]);
      RouteMeters(c, q, i + 1, Record(trailing, []));
    }
  }

  lemma {:induction false} MeteredAt<S(!new), V>(c: Chain<S, V>, i: nat)
    requires i < |c.filters|
    ensures AllMetered(c) ==> Metered(c.filters[i])
  {
  }

  lemma {:induction false} FinishMeters<S(!new), V>(c: Chain<S, V>, p: Pipe<S, V>, i: nat, expired: nat -> bool)
    requires Shaped(c, p) && LiveFrom(p, i) && i <= |c.filters| && Metering(c, p)
    ensures var r := FinishFrom(c, p, i, expired); r.Ok? ==> KeepsMetering(c, p, r.value.0)
    decreases |c.filters| - i
  {
    hide FinishAt, Metering, AllMetered, Exact;
    if i < |c.filters| {
      FinishAtMeters(c, p, i, expired(i));
      var r := FinishAt(c, p, i, expired(i));
      if r.Ok? { FinishMeters(c, r.value.0, i + 1, expired); }
    }
  }
}
