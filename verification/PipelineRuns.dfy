/** A whole session as one function, and the theorem about every run of it that meets no error. */
module PipelineRuns {
  import opened Common
  import opened Streams
  import opened PipelineStages
  import opened PipelineSpec
  import opened PipelineTheorems
  import opened PipelineBounds

  function Prepend<S,
      V>(output: seq<Record>, r: Result<(Pipe<S, V>, seq<Record>), Error>): Result<(Pipe<S, V>, seq<Record>), Error> {
    if r.Err? then r else Ok((r.value.0, output + r.value.1))
  }

  lemma {:induction false} PrependTwice<S,
      V>(a: seq<Record>, b: seq<Record>, r: Result<(Pipe<S, V>, seq<Record>), Error>)
    ensures Prepend(a, Prepend(b, r)) == Prepend(a + b, r)
  {
    if r.Ok? { assert a + (b + r.value.1) == a + b + r.value.1; }
  }

  lemma {:induction false} PrependNothing<S, V>(r: Result<(Pipe<S, V>, seq<Record>), Error>)
    ensures Prepend([], r) == r
  {
    if r.Ok? { assert [] + r.value.1 == r.value.1; }
  }

  /** When the deadline passes: before which record, before which plugin's finish. */
  datatype Clock = Clock(onRecord: nat -> bool, onFinish: nat -> bool)

  /** The records from `i` on, then the finish: the final state and all records returned. */
  function RunFrom<S,
      V>(c: Chain<S, V>, p: Pipe<S, V>, input: seq<Record>, i: nat, clock: Clock): Result<(Pipe<S, V>, seq<Record>),
      Error>
    requires Shaped(c, p) && LiveFrom(p, 0) && i <= |input|
    decreases |input| - i
  {
    if i == |input| then FinishFrom(c, p, 0, clock.onFinish)
    else
      match Process(c, p, input[i], clock.onRecord(i))
      case Err(e) => Err(e)
      case Ok((p', out)) => Prepend(AsSeq(out), RunFrom(c, p', input, i + 1, clock))
  }

  /** A session as it starts: nothing counted but the plugins' own start. */
  ghost predicate Started<S, V>(c: Chain<S, V>, p: Pipe<S, V>) {
    Fresh(c, p) && p.fuel <= c.limits.maxFuel && Metering(c, p) && Exact(p)
  }

  lemma {:induction false} RunMeans<S, V>(
    c: Chain<S, V>, p0: Pipe<S, V>, p: Pipe<S, V>, input: seq<Record>, i: nat, out: seq<Record>, clock: Clock)
    requires Shaped(c, p0) && LiveFrom(p0, 0) && Shaped(c, p) && LiveFrom(p, 0) && i <= |input|
    requires Fed(c, p0, p, input[..i], out) && RunFrom(c, p, input, i, clock).Ok?
    ensures var (end, more) := RunFrom(c, p, input, i, clock).value;
            var staged := Stages(c.filters, States(p0, 0), input);
            && out + more == Delivered(input, staged)
            && |end.stage| == |staged|
            && (forall j :: 0 <= j < |staged| ==> end.stage[j] == TotalLen(staged[j]))
            && end.output == TotalLen(Delivered(input, staged)) && end.input == TotalLen(input)
    decreases |input| - i
  {
    hide Process, FinishFrom, Stages, Fed, TotalLen;
    if i == |input| {
      assert input[..i] == input;
      SessionMeans(c, p0, p, input, out, clock.onFinish);
    } else {
      ProcessMeans(c, p0, p, input[..i], out, input[i], clock.onRecord(i));
      var (p', more) := Process(c, p, input[i], clock.onRecord(i)).value;
      assert input[..i] + [input[i]] == input[..i + 1];
      RunMeans(c, p0, p', input, i + 1, out + AsSeq(more), clock);
      var rest := RunFrom(c, p', input, i + 1, clock).value.1;
      assert out + AsSeq(more) + rest == out + (AsSeq(more) + rest);
    }
  }

  lemma {:induction false} RunWithin<S, V>(c: Chain<S, V>, p: Pipe<S, V>, input: seq<Record>, i: nat, clock: Clock)
    requires Shaped(c, p) && LiveFrom(p, 0) && i <= |input| && Within(c, p)
    ensures var r := RunFrom(c, p, input, i, clock); r.Ok? ==> Within(c, r.value.0)
    decreases |input| - i
  {
    hide Process, FinishFrom, Within;
    if i == |input| {
      FinishWithin(c, p, 0, clock.onFinish);
    } else {
      ProcessWithin(c, p, input[i], clock.onRecord(i));
      var r := Process(c, p, input[i], clock.onRecord(i));
      if r.Ok? { RunWithin(c, r.value.0, input, i + 1, clock); }
    }
  }

  /**
   Whatever the filters, a session's fuel total is never below the sum of their own counters, so the budget
   bounds what they have spent. It is exactly that sum when no counter runs backwards.
   */
  lemma {:induction false} RunMeters<S(!new),
      V>(c: Chain<S, V>, p: Pipe<S, V>, input: seq<Record>, i: nat, clock: Clock)
    requires Shaped(c, p) && LiveFrom(p, 0) && i <= |input| && Metering(c, p)
    ensures var r := RunFrom(c, p, input, i, clock); r.Ok? ==> KeepsMetering(c, p, r.value.0)
    decreases |input| - i
  {
    hide Process, FinishFrom, Metering, AllMetered, Exact;
    if i == |input| {
      FinishMeters(c, p, 0, clock.onFinish);
    } else {
      ProcessMeters(c, p, input[i], clock.onRecord(i));
      var r := Process(c, p, input[i], clock.onRecord(i));
      if r.Ok? { RunMeters(c, r.value.0, input, i + 1, clock); }
    }
  }

  /** What the filters of a session have spent stays within its fuel budget. */
  lemma {:induction false} SessionSpendsWithin<S(!new),
      V>(c: Chain<S, V>, p: Pipe<S, V>, input: seq<Record>, clock: Clock)
    requires Started(c, p) && RunFrom(c, p, input, 0, clock).Ok?
    ensures var end := RunFrom(c, p, input, 0, clock).value.0;
            Spent(end.slots) <= end.fuel <= c.limits.maxFuel && (AllMetered(c) ==> Spent(end.slots) == end.fuel)
  {
    hide RunFrom, Spent, AllMetered, Cap;
    SessionStarts(c, p);
    RunMeters(c, p, input, 0, clock);
    RunWithin(c, p, input, 0, clock);
  }

  /**
   Every session that meets no error returns the records of the stage-by-stage run and stays within its
   budgets, finish output included; every stage put out no more than the cap for the whole input.
   */
  lemma {:induction false} SessionIsStaged<S, V>(c: Chain<S, V>, p: Pipe<S, V>, input: seq<Record>, clock: Clock)
    requires Started(c, p) && RunFrom(c, p, input, 0, clock).Ok?
    ensures var (end, out) := RunFrom(c, p, input, 0, clock).value;
            var staged := Stages(c.filters, States(p, 0), input);
            && out == Delivered(input, staged)
            && end.fuel <= c.limits.maxFuel
            && TotalLen(out) <= Cap(c.limits, TotalLen(input))
            && (forall j :: 0 <= j < |staged| ==> TotalLen(staged[j]) <= Cap(c.limits, TotalLen(input)))
  {
    hide RunFrom, Stages, Cap, TotalLen, Delivered, Metering;
    SessionStarts(c, p);
    assert input[..0] == [];
    RunMeans(c, p, p, input, 0, [], clock);
    RunWithin(c, p, input, 0, clock);
    var (end, out) := RunFrom(c, p, input, 0, clock).value;
    assert [] + out == out;
    var staged := Stages(c.filters, States(p, 0), input);
    forall j | 0 <= j < |staged| ensures TotalLen(staged[j]) <= Cap(c.limits, end.input) {
      assert end.stage[j] == TotalLen(staged[j]);
    }
  }

  /** The fuel the plugins have used by the time the session is ready. */
  function StartFuel<S>(filters: seq<Filter<S>>, states: seq<S>, limits: Limits): Result<nat, Error>
    requires |filters| == |states|
    decreases |filters|
  {
    if filters == [] then Ok(0)
    else
      var n := |filters| - 1;
      match StartFuel(filters[..n], states[..n], limits)
      case Err(e) => Err(e)
      case Ok(fuel) => AddFuel(limits, fuel, filters[n].fuel(states[n]))
  }

  /** The session over filters in the given states. */
  function StartPipe<S, V>(c: Chain<S, V>, states: seq<S>, validator: V, fuel: nat): (p: Pipe<S, V>)
    requires |states| == |c.filters|
    ensures Shaped(c, p) && LiveFrom(p, 0)
  {
    Pipe(seq(|states|, i requires 0 <= i < |states| => Live(states[i], c.filters[i].fuel(states[i]))),
         seq(|states|, _ => 0), 0, 0, fuel, validator)
  }

  /** A whole session from its start: the first error, or all records returned. */
  function SessionResult<S,
      V>(c: Chain<S, V>, states: seq<S>, validator: V, input: seq<Record>, clock: Clock): Result<seq<Record>, Error>
    requires |states| == |c.filters|
  {
    match StartFuel(c.filters, states, c.limits)
    case Err(e) => Err(e)
    case Ok(fuel) =>
      match RunFrom(c, StartPipe(c, states, validator, fuel), input, 0, clock)
      case Err(e) => Err(e)
      case Ok((_, out)) => Ok(out)
  }

  lemma {:induction false} SpentSnoc<S>(slots: seq<Slot<S>>, slot: Slot<S>)
    ensures Spent(slots + [slot]) == Spent(slots) + slot.accounted
    decreases |slots|
  {
    if slots == [] {
      assert [] + [slot] == [slot] && [slot][1..] == [];
    } else {
      assert (slots + [slot])[1..] == slots[1..] + [slot];
      SpentSnoc(slots[1..], slot);
    }
  }

  lemma {:induction false} StartCounts<S>(filters: seq<Filter<S>>, states: seq<S>, limits: Limits, slots: seq<Slot<S>>)
    requires |filters| == |states| == |slots| && StartFuel(filters, states, limits).Ok?
    requires forall i :: 0 <= i < |slots| ==> slots[i].accounted == filters[i].fuel(states[i])
    ensures StartFuel(filters, states, limits).value == Spent(slots) <= limits.maxFuel
    decreases |filters|
  {
    if filters != [] {
      var n := |filters| - 1;
      StartCounts(filters[..n], states[..n], limits, slots[..n]);
      assert slots == slots[..n] + [slots[n]];
      SpentSnoc(slots[..n], slots[n]);
    }
  }

  lemma {:induction false} StartIsStarted<S, V>(c: Chain<S, V>, states: seq<S>, validator: V)
    requires |states| == |c.filters| && StartFuel(c.filters, states, c.limits).Ok?
    ensures var fuel := StartFuel(c.filters, states, c.limits).value;
            Started(c, StartPipe(c, states, validator, fuel))
              && States(StartPipe(c, states, validator, fuel), 0) == states
  {
    var fuel := StartFuel(c.filters, states, c.limits).value;
    var p := StartPipe(c, states, validator, fuel);
    StartCounts(c.filters, states, c.limits, p.slots);
  }

  /**
   For any filters, states, records and clock: a session that meets no error returns exactly the records of
   the stage-by-stage run.
   */
  lemma {:induction false} OutcomeIsStaged<S,
      V>(c: Chain<S, V>, states: seq<S>, validator: V, input: seq<Record>, clock: Clock)
    requires |states| == |c.filters| && SessionResult(c, states, validator, input, clock).Ok?
    ensures SessionResult(c, states, validator, input, clock).value ==
            Delivered(input, Stages(c.filters, states, input))
  {
    hide RunFrom, Stages, StartFuel, Delivered, StartPipe;
    StartIsStarted(c, states, validator);
    var fuel := StartFuel(c.filters, states, c.limits).value;
    SessionIsStaged(c, StartPipe(c, states, validator, fuel), input, clock);
  }
}
