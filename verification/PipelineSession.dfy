/**
 The session object: counters and filter states updated in place, record by record. After an error the
 object is dropped by its owner, so its fields are then not described.
 */
module PipelineSession {
  import opened Common
  import opened Streams
  import opened PipelineStages
  import opened PipelineSpec
  import opened PipelineTheorems
  import opened PipelineRuns

  class Session<S(!new), V> {
    const chain: Chain<S, V>
    var slots: seq<Slot<S>>
    var stage: seq<nat>
    var inputBytes: nat
    var outputBytes: nat
    var fuelConsumed: nat
    var validator: V

    function View(): Pipe<S, V>
      reads this
    {
      Pipe(slots, stage, inputBytes, outputBytes, fuelConsumed, validator)
    }

    constructor (chain: Chain<S, V>, states: seq<S>, validator: V, fuel: nat)
      requires |states| == |chain.filters|
      ensures this.chain == chain
      ensures View() == StartPipe(chain, states, validator, fuel)
    {
      this.chain := chain;
      slots := seq(|states|, i requires 0 <= i < |states| => Live(states[i], chain.filters[i].fuel(states[i])));
      stage := seq(|states|, _ => 0);
      inputBytes, outputBytes, fuelConsumed := 0, 0, fuel;
      this.validator := validator;
    }

    method AccountFuel(delta: nat) returns (r: Option<Error>)
      modifies this`fuelConsumed
      ensures var was := AddFuel(chain.limits, old(fuelConsumed), delta);
              if was.Err? then r == Some(was.error) else r == None && fuelConsumed == was.value
    {
      if fuelConsumed + delta > U64_MAX { return Some(FuelLimit); }
      fuelConsumed := fuelConsumed + delta;
      if fuelConsumed > chain.limits.maxFuel { return Some(FuelLimit); }
      r := None;
    }

    method AccountStage(index: nat, bytes: nat) returns (r: Option<Error>)
      requires index < |stage|
      modifies this`stage
      ensures var was := AddOutput(chain.limits, inputBytes, old(stage)[index], bytes);
              if was.Err? then r == Some(was.error) else r == None && stage == old(stage)[index := was.value]
    {
      var total := AddOutput(chain.limits, inputBytes, stage[index], bytes);
      if total.Err? { return Some(total.error); }
      stage := stage[index := total.value];
      r := None;
    }

    method DeliverRecord(record: Record) returns (r: Option<Error>)
      modifies this`validator, this`outputBytes
      ensures var was := Deliver(chain, old(View()), record);
              if was.Err? then r == Some(was.error) else r == None && View() == was.value
    {
      var pushed := chain.push(validator, record);
      if pushed.None? { return Some(InvalidOutput); }
      validator := pushed.value;
      var total := AddOutput(chain.limits, inputBytes, outputBytes, RecordLen(record));
      if total.Err? { return Some(total.error); }
      outputBytes := total.value;
      r := None;
    }

    /** Filter `index` on one record. */
    method Transform(index: nat, record: Record) returns (r: Result<Option<Record>, Error>)
      requires Shaped(chain, View()) && LiveFrom(View(), index) && index < |chain.filters|
      modifies this
      ensures var was := TransformAt(chain, old(View()), index, record);
              if was.Err? then r == Err(was.error) else r == Ok(was.value.1) && View() == was.value.0
    {
      hide AddOutput, AddFuel;
      if fuelConsumed >= chain.limits.maxFuel { return Err(FuelLimit); }
      var filter := chain.filters[index];
      var (state, answer) := Ask(filter, slots[index].state, record.payload, chain.limits.maxFuel - fuelConsumed);
      var counter := filter.fuel(state);
      var delta := SaturatingSub(counter, slots[index].accounted);
      slots := slots[index := Live(state, counter)];
      var e := AccountFuel(delta);
      if e.Some? { return Err(e.value); }
      if answer.Err? { return Err(answer.error); }
      if answer.value.Drop? { return Ok(None); }
      var payload := answer.value.payload;
      if |payload| > chain.limits.maxIntermediate { return Err(IntermediateLimit); }
      var next := record.(payload := payload);
      e := AccountStage(index, RecordLen(next));
      if e.Some? { return Err(e.value); }
      r := Ok(Some(next));
    }

    /** The record goes through the filters from `start` on. */
    method Route(start: nat, first: Record) returns (r: Result<Option<Record>, Error>)
      requires Shaped(chain, View()) && LiveFrom(View(), start) && start <= |chain.filters|
      modifies this
      ensures var was := RouteFrom(chain, old(View()), start, first);
              if was.Err? then r == Err(was.error)
              else r == Ok(was.value.1) && View() == was.value.0 && Shaped(chain, View()) && LiveFrom(View(), start)
    {
      hide TransformAt, Deliver;
      var record := first;
      ghost var was := RouteFrom(chain, View(), start, first);
      for index := start to |chain.filters|
        invariant Shaped(chain, View()) && LiveFrom(View(), index)
        invariant RouteFrom(chain, View(), index, record) == was
      {
        var next := Transform(index, record);
        if next.Err? { return Err(next.error); }
        if next.value.None? { return Ok(None); }
        record := next.value.value;
      }
      var e := DeliverRecord(record);
      if e.Some? { return Err(e.value); }
      r := Ok(Some(record));
    }

    method ProcessRecord(record: Record, expired: bool) returns (r: Result<Option<Record>, Error>)
      requires Shaped(chain, View()) && LiveFrom(View(), 0)
      modifies this
      ensures var was := Process(chain, old(View()), record, expired);
              if was.Err? then r == Err(was.error) else r == Ok(was.value.1) && View() == was.value.0
    {
      if expired { return Err(DeadlineExceeded); }
      var total := inputBytes + RecordLen(record);
      if total > U64_MAX || total > chain.limits.maxInput { return Err(InputLimit); }
      inputBytes := total;
      r := Route(0, record);
    }

    method FinishPlugin(index: nat, expired: bool) returns (r: Result<Option<Record>, Error>)
      requires Shaped(chain, View()) && LiveFrom(View(), index) && index < |chain.filters|
      modifies this
      ensures var was := FinishAt(chain, old(View()), index, expired);
              if was.Err? then r == Err(was.error) else r == Ok(was.value.1) && View() == was.value.0
    {
      hide RouteFrom, AddOutput, AddFuel;
      if expired { return Err(DeadlineExceeded); }
      var filter, state := chain.filters[index], slots[index].state;
      var accounted := slots[index].accounted;
      if fuelConsumed >= chain.limits.maxFuel { return Err(FuelLimit); }
      var denied := filter.deniesFinish(state, chain.limits.maxFuel - fuelConsumed);
      if denied.Some? { return Err(denied.value); }
      var (trailing, counter) := filter.finish(state);
      slots := slots[index := Taken(counter)];
      var e := AccountFuel(SaturatingSub(counter, accounted));
      if e.Some? { return Err(e.value); }
      if |trailing| > chain.limits.maxFinish { return Err(FinishLimit); }
      if trailing == [] { return Ok(None); }
      if |trailing| > chain.limits.maxIntermediate { return Err(IntermediateLimit); }
      e := AccountStage(index, |trailing|);
      if e.Some? { return Err(e.value); }
      r := Route(index + 1, Record(trailing, []));
    }

    method Finish(expired: nat -> bool) returns (r: Result<seq<Record>, Error>)
      requires Shaped(chain, View()) && LiveFrom(View(), 0)
      modifies this
      ensures var was := FinishFrom(chain, old(View()), 0, expired);
              if was.Err? then r == Err(was.error) else r == Ok(was.value.1) && View() == was.value.0
    {
      hide FinishAt;
      var output: seq<Record> := [];
      ghost var was := FinishFrom(chain, View(), 0, expired);
      PrependNothing(was);
      for index := 0 to |chain.filters|
        invariant Shaped(chain, View()) && LiveFrom(View(), index)
        invariant was == Prepend(output, FinishFrom(chain, View(), index, expired))
      {
        var last := FinishPlugin(index, expired(index));
        if last.Err? { return Err(last.error); }
        ghost var rest := FinishFrom(chain, View(), index + 1, expired);
        PrependTwice(output, AsSeq(last.value), rest);
        output := output + AsSeq(last.value);
      }
      if !chain.ends(validator) { return Err(InvalidOutput); }
      assert output + [] == output;
      r := Ok(output);
    }
  }

  method SumStartFuel<S>(filters: seq<Filter<S>>, states: seq<S>, limits: Limits) returns (r: Result<nat, Error>)
    requires |filters| == |states|
    ensures r == StartFuel(filters, states, limits)
  {
    hide AddFuel;
    var fuel := 0;
    for i := 0 to |filters|
      invariant StartFuel(filters[..i], states[..i], limits) == Ok(fuel)
    {
      assert filters[..i + 1][..i] == filters[..i] && states[..i + 1][..i] == states[..i];
      var total := AddFuel(limits, fuel, filters[i].fuel(states[i]));
      if total.Err? {
        StartFuelFails(filters, states, limits, i + 1, total.error);
        return Err(total.error);
      }
      fuel := total.value;
    }
    assert filters[..|filters|] == filters && states[..|filters|] == states;
    r := Ok(fuel);
  }

  lemma {:induction false} StartFuelFails<S>(filters: seq<Filter<S>>, states: seq<S>, limits: Limits, k: nat, e: Error)
    requires |filters| == |states| && k <= |filters|
    requires StartFuel(filters[..k], states[..k], limits) == Err(e)
    ensures StartFuel(filters, states, limits) == Err(e)
    decreases |filters|
  {
    hide AddFuel;
    if k == |filters| {
      assert filters[..k] == filters && states[..k] == states;
    } else {
      var n := |filters| - 1;
      assert filters[..n][..k] == filters[..k] && states[..n][..k] == states[..k];
      StartFuelFails(filters[..n], states[..n], limits, k, e);
    }
  }

  /** Starts a session, gives it every record and finishes it. */
  method RunSession<S(!new), V>(chain: Chain<S, V>, states: seq<S>, validator: V, input: seq<Record>, clock: Clock)
    returns (r: Result<seq<Record>, Error>)
    requires |states| == |chain.filters|
    ensures r == SessionResult(chain, states, validator, input, clock)
  {
    hide RunFrom, StartFuel, Process, FinishFrom;
    var fuel := SumStartFuel(chain.filters, states, chain.limits);
    if fuel.Err? { return Err(fuel.error); }
    var session := new Session(chain, states, validator, fuel.value);
    var output: seq<Record> := [];
    ghost var whole := RunFrom(chain, session.View(), input, 0, clock);
    PrependNothing(whole);
    for i := 0 to |input|
      invariant session.chain == chain && Shaped(chain, session.View()) && LiveFrom(session.View(), 0)
      invariant whole == Prepend(output, RunFrom(chain, session.View(), input, i, clock))
    {
      RunUnrolls(chain, session.View(), input, i, clock);
      var out := session.ProcessRecord(input[i], clock.onRecord(i));
      if out.Err? { return Err(out.error); }
      PrependTwice(output, AsSeq(out.value), RunFrom(chain, session.View(), input, i + 1, clock));
      output := output + AsSeq(out.value);
    }
    RunEnds(chain, session.View(), input, clock);
    var last := session.Finish(clock.onFinish);
    if last.Err? { return Err(last.error); }
    r := Ok(output + last.value);
  }

  lemma {:induction false} RunUnrolls<S, V>(c: Chain<S, V>, p: Pipe<S, V>, input: seq<Record>, i: nat, clock: Clock)
    requires Shaped(c, p) && LiveFrom(p, 0) && i < |input|
    ensures var r := Process(c, p, input[i], clock.onRecord(i));
            RunFrom(c, p, input, i, clock) ==
            if r.Err? then Err(r.error) else Prepend(AsSeq(r.value.1), RunFrom(c, r.value.0, input, i + 1, clock))
  {
    hide Process, FinishFrom;
  }

  lemma {:induction false} RunEnds<S, V>(c: Chain<S, V>, p: Pipe<S, V>, input: seq<Record>, clock: Clock)
    requires Shaped(c, p) && LiveFrom(p, 0)
    ensures RunFrom(c, p, input, |input|, clock) == FinishFrom(c, p, 0, clock.onFinish)
  {
    hide Process, FinishFrom;
  }
}
