/**
 The output of a session under the output validator: the records a session delivers, one by one and at its
 end, are valid together as one stream.
 */
module PipelineOutput {
  import opened Common
  import opened Streams
  import opened PipelineStages
  import opened PipelineSpec
  import opened PipelineTheorems
  import opened PipelineRuns
  import RecordSpec
  import RecordTheorems
  import RecordMeaning
  import RecordChunks
  import OutputValidator

  // ---- every delivered record passes the validator, in order ---------------------------------------

  /** The validator after `records`, unless it refuses one of them. */
  function PushAll<S, V>(c: Chain<S, V>, v: V, records: seq<Record>): Option<V> {
    if records == [] then Some(v)
    else
      match PushAll(c, v, records[..|records| - 1])
      case None => None
      case Some(v') => c.push(v', records[|records| - 1])
  }

  lemma {:induction false} PushOne<S, V>(c: Chain<S, V>, v: V, record: Record)
    ensures PushAll(c, v, [record]) == c.push(v, record)
  {
    assert [record][..0] == [];
    assert PushAll(c, v, []) == Some(v);
  }

  lemma {:induction false} PushTogether<S, V>(c: Chain<S, V>, v: V, a: seq<Record>, b: seq<Record>)
    requires PushAll(c, v, a).Some?
    ensures PushAll(c, v, a + b) == PushAll(c, PushAll(c, v, a).value, b)
    decreases |b|
  {
    if b == [] {
      assert a + b == a;
    } else {
      assert (a + b)[..|a + b| - 1] == a + b[..|b| - 1];
      PushTogether(c, v, a, b[..|b| - 1]);
    }
  }

  lemma {:induction false} RouteDelivers<S, V>(c: Chain<S, V>, p: Pipe<S, V>, i: nat, record: Record)
    requires Shaped(c, p) && LiveFrom(p, i) && i <= |c.filters| && RouteFrom(c, p, i, record).Ok?
    ensures var (p', out) := RouteFrom(c, p, i, record).value; PushAll(c, p.validator, AsSeq(out)) == Some(p'.validator)
    decreases |c.filters| - i
  {
    hide AddOutput, AddFuel;
    if i == |c.filters| {
      PushOne(c, p.validator, record);
    } else {
      var (p', next) := TransformAt(c, p, i, record).value;
      if next.Some? { RouteDelivers(c, p', i + 1, next.value); }
    }
  }

  lemma {:induction false} ProcessDelivers<S, V>(c: Chain<S, V>, p: Pipe<S, V>, record: Record, expired: bool)
    requires Shaped(c, p) && LiveFrom(p, 0) && Process(c, p, record, expired).Ok?
    ensures var (p', out) := Process(c, p, record, expired).value;
            PushAll(c, p.validator, AsSeq(out)) == Some(p'.validator)
  {
    hide RouteFrom, PushAll;
    RouteDelivers(c, p.(input := p.input + RecordLen(record)), 0, record);
  }

  lemma {:induction false} FinishAtDelivers<S, V>(c: Chain<S, V>, p: Pipe<S, V>, i: nat, expired: bool)
    requires Shaped(c, p) && LiveFrom(p, i) && i < |c.filters| && FinishAt(c, p, i, expired).Ok?
    ensures var (p', out) := FinishAt(c, p, i, expired).value; PushAll(c, p.validator, AsSeq(out)) == Some(p'.validator)
  {
    hide RouteFrom, AddOutput;
    var (trailing, counter) := c.filters[i].finish(p.slots[i].state);
    if trailing != [] {
      var fuel := AddFuel(c.limits, p.fuel, SaturatingSub(counter, p.slots[i].accounted));
      var total := AddOutput(c.limits, p.input, p.stage[i], |trailing|);
      var q := p.(slots := p.slots[i := Taken(counter)], fuel := fuel.value, stage := p.stage[i := total.value]);
      RouteDelivers(c, q, i + 1, Record(trailing, []));
    }
  }

  /** The validator has taken `out` on the way from `p` to `q`, and nothing else. */
  ghost predicate Delivers<S, V>(c: Chain<S, V>, p: Pipe<S, V>, out: seq<Record>, q: Pipe<S, V>) {
    PushAll(c, p.validator, out) == Some(q.validator)
  }

  lemma {:induction false} DeliversTogether<S, V>(
    c: Chain<S, V>, p: Pipe<S, V>, a: seq<Record>, q: Pipe<S, V>, b: seq<Record>, r: Pipe<S, V>)
    requires Delivers(c, p, a, q) && Delivers(c, q, b, r)
    ensures Delivers(c, p, a + b, r)
  {
    hide PushAll;
    PushTogether(c, p.validator, a, b);
  }

  lemma {:induction false} FinishDelivers<S, V>(c: Chain<S, V>, p: Pipe<S, V>, i: nat, expired: nat -> bool)
    requires Shaped(c, p) && LiveFrom(p, i) && i <= |c.filters| && FinishFrom(c, p, i, expired).Ok?
    ensures var (q, out) := FinishFrom(c, p, i, expired).value; Delivers(c, p, out, q) && c.ends(q.validator)
    decreases |c.filters| - i
  {
    hide FinishAt;
    if i < |c.filters| {
      FinishAtDelivers(c, p, i, expired(i));
      var (p', last) := FinishAt(c, p, i, expired(i)).value;
      FinishDelivers(c, p', i + 1, expired);
      var (q, rest) := FinishFrom(c, p', i + 1, expired).value;
      DeliversTogether(c, p, AsSeq(last), p', rest, q);
    }
  }

  lemma {:induction false} RunDelivers<S, V>(c: Chain<S, V>, p: Pipe<S, V>, input: seq<Record>, i: nat, clock: Clock)
    requires Shaped(c, p) && LiveFrom(p, 0) && i <= |input| && RunFrom(c, p, input, i, clock).Ok?
    ensures var (q, out) := RunFrom(c, p, input, i, clock).value; Delivers(c, p, out, q) && c.ends(q.validator)
    decreases |input| - i
  {
    hide Process, FinishFrom, Delivers;
    if i == |input| {
      FinishDelivers(c, p, 0, clock.onFinish);
    } else {
      var (p', out) := Process(c, p, input[i], clock.onRecord(i)).value;
      ProcessDelivers(c, p, input[i], clock.onRecord(i));
      assert Delivers(c, p, AsSeq(out), p') by { DeliversIs(c, p, AsSeq(out), p'); }
      RunDelivers(c, p', input, i + 1, clock);
      var (q, rest) := RunFrom(c, p', input, i + 1, clock).value;
      DeliversTogether(c, p, AsSeq(out), p', rest, q);
    }
  }

  lemma {:induction false} DeliversIs<S, V>(c: Chain<S, V>, p: Pipe<S, V>, out: seq<Record>, q: Pipe<S, V>)
    ensures Delivers(c, p, out, q) <==> PushAll(c, p.validator, out) == Some(q.validator)
  {
  }

  // ---- the validator as a state -------------------------------------------------------------------

  /** The state of the output validator: its decoder between two records. */
  datatype Watch = Watch(pending: Bytes, inputSeen: bool, emitted: bool)

  /** What the validator is told: the format with its limits, the frame size, and the test of JSON lines. */
  datatype Rules = Rules(format: RecordSpec.Config, maxFrame: nat, jsonOk: Bytes -> bool)

  predicate AllOk(rules: Rules, records: seq<Record>) {
    forall r :: r in records ==> rules.jsonOk(r.payload)
  }

  /** `push_record`: payload and separator in frames, every record that comes out tested. */
  function PushRecord(rules: Rules, w: Watch, r: Record): Option<Watch> {
    if rules.maxFrame == 0 then None
    else
      var frames := OutputValidator.Frames(r.payload, rules.maxFrame)
        + OutputValidator.Frames(r.separator, rules.maxFrame);
      var f := RecordSpec.Feed(rules.format, w.pending, frames);
      if f.rest.Err? || !AllOk(rules, f.records) then None
      else Some(Watch(f.rest.value, w.inputSeen || r.payload != [] || r.separator != [], w.emitted || f.records != []))
  }

  predicate EndsWell(rules: Rules, w: Watch) {
    !w.inputSeen
      || OutputValidator.Approved(RecordSpec.Close(rules.format, w.pending, w.inputSeen, w.emitted), rules.jsonOk)
  }

  const NOTHING_SEEN := Watch([], false, false)

  /** The chain's validator is the output validator. */
  ghost predicate Validates<S>(c: Chain<S, Watch>, rules: Rules) {
    && (forall w, r :: c.push(w, r) == PushRecord(rules, w, r))
    && (forall w :: c.ends(w) == EndsWell(rules, w))
  }

  lemma {:induction false} FeedFails(c: RecordSpec.Config, p: Bytes, chunks: seq<Bytes>, more: seq<Bytes>)
    requires RecordSpec.Feed(c, p, chunks).rest.Err?
    ensures RecordSpec.Feed(c, p, chunks + more) == RecordSpec.Feed(c, p, chunks)
    decreases |chunks|
  {
    hide RecordSpec.Drain;
    var first := RecordSpec.Drain(c, p + chunks[0], true);
    assert (chunks + more)[0] == chunks[0] && (chunks + more)[1..] == chunks[1..] + more;
    if first.rest.Ok? { FeedFails(c, first.rest.value, chunks[1..], more); }
  }

  /** The state after `records`, as the run over all their frames gives it. */
  lemma {:induction false} PushedIsFed<S>(c: Chain<S, Watch>, rules: Rules, records: seq<Record>)
    requires Validates(c, rules) && rules.maxFrame > 0
    ensures var frames := OutputValidator.CutOf(records, rules.maxFrame);
            var f := RecordSpec.Feed(rules.format, [], frames);
            PushAll(c, NOTHING_SEEN, records) ==
            if f.rest.Ok? && AllOk(rules, f.records) then
              Some(Watch(f.rest.value, Flatten(frames) != [], f.records != []))
            else None
    decreases |records|
  {
    hide RecordSpec.Feed, OutputValidator.Frames, Flatten, Validates;
    var n := rules.maxFrame;
    if records == [] {
      NothingFed(rules.format);
    } else {
      var before, last := records[..|records| - 1], records[|records| - 1];
      PushedIsFed(c, rules, before);
      var frames := OutputValidator.CutOf(before, n);
      var more := OutputValidator.Frames(last.payload, n) + OutputValidator.Frames(last.separator, n);
      assert OutputValidator.CutOf(records, n) == frames + more;
      FlattenTogether(frames, more);
      FlattenTogether(OutputValidator.Frames(last.payload, n), OutputValidator.Frames(last.separator, n));
      FramesFlatten(last, n);
      var f := RecordSpec.Feed(rules.format, [], frames);
      if f.rest.Err? {
        FeedFails(rules.format, [], frames, more);
      } else {
        RecordChunks.FeedOn(rules.format, [], frames, more);
        if AllOk(rules, f.records) { PushIs(c, rules, Watch(f.rest.value, Flatten(frames) != [], f.records != []),
          last); }
      }
    }
  }

  lemma {:induction false} NothingFed(c: RecordSpec.Config)
    ensures RecordSpec.Feed(c, [], []) == RecordSpec.Fed([], Ok([])) && Flatten([]) == []
  {
  }

  lemma {:induction false} FramesFlatten(r: Record, n: nat)
    requires n > 0
    ensures Flatten(OutputValidator.Frames(r.payload, n)) == r.payload
    ensures Flatten(OutputValidator.Frames(r.separator, n)) == r.separator
  {
  }

  lemma {:induction false} PushIs<S>(c: Chain<S, Watch>, rules: Rules, w: Watch, r: Record)
    requires Validates(c, rules)
    ensures c.push(w, r) == PushRecord(rules, w, r)
  {
  }

  lemma {:induction false} EndIs<S>(c: Chain<S, Watch>, rules: Rules, w: Watch)
    requires Validates(c, rules)
    ensures c.ends(w) == EndsWell(rules, w)
  {
  }

  /** Pushed record by record and ended, the validator accepts exactly what it accepts as one cut. */
  lemma {:induction false} PushedIsVerdict<S>(c: Chain<S, Watch>, rules: Rules, records: seq<Record>)
    requires Validates(c, rules) && rules.maxFrame > 0
    ensures var end := PushAll(c, NOTHING_SEEN, records);
            (end.Some? && c.ends(end.value)) <==>
            OutputValidator.Verdict(rules.format, rules.jsonOk, OutputValidator.CutOf(records, rules.maxFrame))
  {
    hide RecordSpec.Feed, RecordSpec.Close, OutputValidator.CutOf, Flatten, Validates;
    var frames := OutputValidator.CutOf(records, rules.maxFrame);
    PushedIsFed(c, rules, records);
    OutputValidator.CutJoins(records, rules.maxFrame);
    var end := PushAll(c, NOTHING_SEEN, records);
    if end.Some? { EndIs(c, rules, end.value); }
    if Flatten(frames) == [] {
      NoPieces(frames);
      NothingFed(rules.format);
    } else {
      RunApproved(rules, frames);
    }
  }

  lemma {:induction false} NoPieces(frames: seq<Bytes>)
    requires Flatten(frames) == [] && forall i :: 0 <= i < |frames| ==> frames[i] != []
    ensures frames == []
  {
  }

  lemma {:induction false} RunApproved(rules: Rules, frames: seq<Bytes>)
    requires Flatten(frames) != []
    ensures var f := RecordSpec.Feed(rules.format, [], frames);
            OutputValidator.Approved(RecordSpec.RunAll(rules.format, frames), rules.jsonOk) <==>
            && f.rest.Ok? && AllOk(rules, f.records)
            && OutputValidator.Approved(RecordSpec.Close(rules.format, f.rest.value, true, f.records != []),
               rules.jsonOk)
  {
    hide RecordSpec.Feed, RecordSpec.Close, Flatten;
  }

  /**
   Whatever the filters do, the records of a session that meets no error are valid together as one stream of
   the output format.
   */
  lemma {:induction false} SessionOutputIsValid<S>(
    c: Chain<S, Watch>, rules: Rules, states: seq<S>, input: seq<Record>, clock: Clock)
    requires |states| == |c.filters| && Validates(c, rules) && rules.maxFrame > 0
    requires SessionResult(c, states, NOTHING_SEEN, input, clock).Ok?
    ensures var out := SessionResult(c, states, NOTHING_SEEN, input, clock).value;
            OutputValidator.ValidOutput(rules.format, rules.jsonOk, RecordMeaning.Joined(out))
  {
    hide RunFrom, StartFuel, PushAll, Validates, OutputValidator.Verdict, OutputValidator.ValidOutput;
    hide OutputValidator.CutOf, RecordMeaning.Joined;
    var fuel := StartFuel(c.filters, states, c.limits).value;
    var p := StartPipe(c, states, NOTHING_SEEN, fuel);
    RunDelivers(c, p, input, 0, clock);
    var out := RunFrom(c, p, input, 0, clock).value.1;
    PushedIsVerdict(c, rules, out);
    OutputValidator.VerdictIsSound(rules.format, rules.jsonOk, OutputValidator.CutOf(out, rules.maxFrame));
    OutputValidator.CutJoins(out, rules.maxFrame);
  }
}
