/**
 A chain of stateful record filters, without limits: what it means to run it stage by stage, what it means
 to route one record at a time and cascade the finish output, and the proof that both are the same.
 */
module PipelineStages {
  import opened Common
  import opened Streams

  datatype Outcome = Emit(payload: Bytes) | Drop

  datatype Error =
    | InputLimit | IntermediateLimit | OutputLimit | ExpansionLimit | FinishLimit | FuelLimit
    | DeadlineExceeded | PluginFailed(code: nat) | InvalidOutput

  /**
   A deterministic filter. `denies` and `deniesFinish` are its failures, which may depend on the fuel it is
   granted; `fuel` is its own counter of fuel consumed so far, and `finish` gives its trailing bytes and the
   counter's last value.
   */
  datatype Filter<!S> = Filter(
    step: (S, Bytes) -> (S, Outcome),
    denies: (S, Bytes, nat) -> Option<(S, Error)>,
    fuel: S -> nat,
    finish: S -> (Bytes, nat),
    deniesFinish: (S, nat) -> Option<Error>)

  // ---- stage by stage ----------------------------------------------------------------------

  function Kept(outcome: Outcome, separator: Bytes): seq<Record> {
    match outcome
    case Drop => []
    case Emit(payload) => [Record(payload, separator)]
  }

  /** The records a filter emits for `input`, and the state it ends in. */
  function Emitted<S>(f: Filter<S>, s: S, input: seq<Record>): (seq<Record>, S)
    decreases |input|
  {
    if input == [] then ([], s)
    else
      var (s', outcome) := f.step(s, input[0].payload);
      var (rest, end) := Emitted(f, s', input[1..]);
      (Kept(outcome, input[0].separator) + rest, end)
  }

  function Trailing<S>(f: Filter<S>, s: S): seq<Record> {
    if f.finish(s).0 == [] then [] else [Record(f.finish(s).0, [])]
  }

  /** The whole stream through one filter, its trailing output appended. */
  function Stage<S>(f: Filter<S>, s: S, input: seq<Record>): seq<Record> {
    var (out, end) := Emitted(f, s, input);
    out + Trailing(f, end)
  }

  /** What each stage puts out when filter 0 runs over the whole stream, then filter 1, and so on. */
  function Stages<S>(fs: seq<Filter<S>>, ss: seq<S>, input: seq<Record>): (out: seq<seq<Record>>)
    requires |fs| == |ss|
    ensures |out| == |fs|
  {
    if fs == [] then []
    else
      var out := Stage(fs[0], ss[0], input);
      [out] + Stages(fs[1..], ss[1..], out)
  }

  /** The result of a chain, given what each stage puts out. */
  function Delivered(input: seq<Record>, outs: seq<seq<Record>>): seq<Record> {
    if outs == [] then input else outs[|outs| - 1]
  }

  // ---- record at a time --------------------------------------------------------------------

  datatype Routed<S> = Routed(states: seq<S>, outs: seq<seq<Record>>)

  function Silence(n: nat): (outs: seq<seq<Record>>)
    ensures |outs| == n
    ensures forall i :: 0 <= i < n ==> outs[i] == []
  {
    seq(n, _ => [])
  }

  /** One record through the chain: the new states, and what each stage puts out for it. */
  function Route<S>(fs: seq<Filter<S>>, ss: seq<S>, record: Record): (r: Routed<S>)
    requires |fs| == |ss|
    ensures |r.states| == |r.outs| == |fs|
    decreases |fs|
  {
    if fs == [] then Routed([], [])
    else
      var (s', outcome) := fs[0].step(ss[0], record.payload);
      match outcome
      case Drop => Routed([s'] + ss[1..], Silence(|fs|))
      case Emit(payload) =>
        var next := Record(payload, record.separator);
        var rest := Route(fs[1..], ss[1..], next);
        Routed([s'] + rest.states, [[next]] + rest.outs)
  }

  function Merge(a: seq<seq<Record>>, b: seq<seq<Record>>): (c: seq<seq<Record>>)
    requires |a| == |b|
    ensures |c| == |a|
    ensures forall i :: 0 <= i < |c| ==> c[i] == a[i] + b[i]
  {
    seq(|a|, i requires 0 <= i < |a| => a[i] + b[i])
  }

  /** Records routed one after the other. */
  function Feed<S>(fs: seq<Filter<S>>, ss: seq<S>, input: seq<Record>): (r: Routed<S>)
    requires |fs| == |ss|
    ensures |r.states| == |r.outs| == |fs|
    decreases |input|
  {
    if input == [] then Routed(ss, Silence(|fs|))
    else
      var before := Feed(fs, ss, input[..|input| - 1]);
      var last := Route(fs, before.states, input[|input| - 1]);
      Routed(last.states, Merge(before.outs, last.outs))
  }

  /** Every filter is finished in turn, its trailing bytes routed through the filters after it. */
  function Close<S>(fs: seq<Filter<S>>, ss: seq<S>): (outs: seq<seq<Record>>)
    requires |fs| == |ss|
    ensures |outs| == |fs|
    decreases |fs|
  {
    if fs == [] then []
    else
      var trailing := Trailing(fs[0], ss[0]);
      var fed := Feed(fs[1..], ss[1..], trailing);
      [trailing] + Merge(fed.outs, Close(fs[1..], fed.states))
  }

  // ---- they agree --------------------------------------------------------------------------

  lemma {:induction false} EmittedSnoc<S>(f: Filter<S>, s: S, input: seq<Record>, record: Record)
    ensures var before := Emitted(f, s, input);
            var (s', outcome) := f.step(before.1, record.payload);
            Emitted(f, s, input + [record]) ==
            (before.0 + Kept(outcome, record.separator), s')
    decreases |input|
  {
    if input == [] {
      assert [] + [record] == [record];
      var (s', outcome) := f.step(s, record.payload);
      var kept := Kept(outcome, record.separator);
      assert Emitted(f, s', [record][1..]) == ([], s');
      assert kept + [] == kept && [] + kept == kept;
    } else {
      assert (input + [record])[0] == input[0] && (input + [record])[1..] == input[1..] + [record];
      var (s', outcome) := f.step(s, input[0].payload);
      EmittedSnoc(f, s', input[1..], record);
      var before := Emitted(f, s', input[1..]);
      var kept := Kept(f.step(before.1, record.payload).1, record.separator);
      assert Kept(outcome, input[0].separator) + (before.0 + kept) ==
        Kept(outcome, input[0].separator) + before.0 + kept;
    }
  }

  /** Feeding a chain is feeding its first filter, and the rest of the chain with what that one emits. */
  lemma {:induction false} FeedPeels<S>(fs: seq<Filter<S>>, ss: seq<S>, input: seq<Record>)
    requires |fs| == |ss| && fs != []
    ensures var (out, end) := Emitted(fs[0], ss[0], input);
            var rest := Feed(fs[1..], ss[1..], out);
            Feed(fs, ss, input) == Routed([end] + rest.states, [out] + rest.outs)
    decreases |input|
  {
    hide Emitted;
    EmittedNothing(fs[0], ss[0]);
    if input == [] {
      assert ss == [ss[0]] + ss[1..];
      assert Silence(|fs|) == [[]] + Silence(|fs| - 1);
    } else {
      var init, last := input[..|input| - 1], input[|input| - 1];
      assert input == init + [last];
      FeedPeels(fs, ss, init);
      EmittedSnoc(fs[0], ss[0], init, last);
      PeelStep(fs, ss, init, last);
    }
  }

  lemma {:induction false} EmittedNothing<S>(f: Filter<S>, s: S)
    ensures Emitted(f, s, []) == ([], s)
  {
  }

  /** One more record, when the peeled form is known for the records before it. */
  lemma {:induction false} PeelStep<S>(fs: seq<Filter<S>>, ss: seq<S>, init: seq<Record>, last: Record)
    requires |fs| == |ss| && fs != []
    requires var (out, end) := Emitted(fs[0], ss[0], init);
             var rest := Feed(fs[1..], ss[1..], out);
             Feed(fs, ss, init) == Routed([end] + rest.states, [out] + rest.outs)
    ensures var (out, end) := Emitted(fs[0], ss[0], init);
            var (s', outcome) := fs[0].step(end, last.payload);
            var out' := out + Kept(outcome, last.separator);
            var rest := Feed(fs[1..], ss[1..], out');
            Feed(fs, ss, init + [last]) == Routed([s'] + rest.states, [out'] + rest.outs)
  {
    hide Emitted;
    var (out, end) := Emitted(fs[0], ss[0], init);
    var rest := Feed(fs[1..], ss[1..], out);
    FeedSnoc(fs, ss, init, last);
    var before := Feed(fs, ss, init);
    var (s', outcome) := fs[0].step(end, last.payload);
    match outcome {
      case Drop =>
        assert out + [] == out;
        MergeSilence(before.outs);
        assert before.states[1..] == rest.states;
      case Emit(payload) =>
        var next := Record(payload, last.separator);
        FeedSnoc(fs[1..], ss[1..], out, next);
        var routed := Route(fs[1..], rest.states, next);
        assert before.states[1..] == rest.states;
        MergeCons(out, rest.outs, [next], routed.outs);
    }
  }

  lemma {:induction false} FeedSnoc<S>(fs: seq<Filter<S>>, ss: seq<S>, init: seq<Record>, last: Record)
    requires |fs| == |ss|
    ensures var before := Feed(fs, ss, init);
            var routed := Route(fs, before.states, last);
            Feed(fs, ss, init + [last]) == Routed(routed.states, Merge(before.outs, routed.outs))
  {
    hide Route;
    assert (init + [last])[..|init|] == init;
  }

  lemma {:induction false} FeedJoins<S>(fs: seq<Filter<S>>, ss: seq<S>, a: seq<Record>, b: seq<Record>)
    requires |fs| == |ss|
    ensures var first := Feed(fs, ss, a);
            var second := Feed(fs, first.states, b);
            Feed(fs, ss, a + b) == Routed(second.states, Merge(first.outs, second.outs))
    decreases |b|
  {
    hide Route;
    var first := Feed(fs, ss, a);
    if b == [] {
      assert a + b == a;
      MergeSilence(first.outs);
    } else {
      var init, last := b[..|b| - 1], b[|b| - 1];
      FeedJoins(fs, ss, a, init);
      assert a + b == (a + init) + [last];
      FeedSnoc(fs, ss, a + init, last);
      var second := Feed(fs, first.states, init);
      var routed := Route(fs, second.states, last);
      MergeAssociates(first.outs, second.outs, routed.outs);
    }
  }

  lemma {:induction false} MergeCons(a: seq<Record>, rest: seq<seq<Record>>, b: seq<Record>, bs: seq<seq<Record>>)
    requires |rest| == |bs|
    ensures Merge([a] + rest, [b] + bs) == [a + b] + Merge(rest, bs)
  {
  }

  lemma {:induction false} MergeSilence(outs: seq<seq<Record>>)
    ensures Merge(outs, Silence(|outs|)) == outs
  {
    forall i | 0 <= i < |outs| ensures Merge(outs, Silence(|outs|))[i] == outs[i] {
      assert outs[i] + [] == outs[i];
    }
  }

  lemma {:induction false} MergeAssociates(a: seq<seq<Record>>, b: seq<seq<Record>>, c: seq<seq<Record>>)
    requires |a| == |b| == |c|
    ensures Merge(Merge(a, b), c) == Merge(a, Merge(b, c))
  {
    forall i | 0 <= i < |a| ensures Merge(Merge(a, b), c)[i] == Merge(a, Merge(b, c))[i] {
      assert (a[i] + b[i]) + c[i] == a[i] + (b[i] + c[i]);
    }
  }

  /**
   Record at a time with cascaded finish output is stage by stage: every stage puts out the same records in
   the same order, whatever the filters and their states.
   */
  lemma {:induction false} OnlineIsStaged<S>(fs: seq<Filter<S>>, ss: seq<S>, input: seq<Record>)
    requires |fs| == |ss|
    ensures var fed := Feed(fs, ss, input);
            Merge(fed.outs, Close(fs, fed.states)) == Stages(fs, ss, input)
    decreases |fs|
  {
    hide Emitted, Route, Feed, Trailing;
    var fed := Feed(fs, ss, input);
    if fs != [] {
      FeedPeels(fs, ss, input);
      var (out, end) := Emitted(fs[0], ss[0], input);
      var trailing := Trailing(fs[0], end);
      var rest := Feed(fs[1..], ss[1..], out);
      assert fed.states[0] == end && fed.states[1..] == rest.states;
      var more := Feed(fs[1..], rest.states, trailing);
      var end' := Close(fs[1..], more.states);
      FeedJoins(fs[1..], ss[1..], out, trailing);
      OnlineIsStaged(fs[1..], ss[1..], out + trailing);
      MergeAssociates(rest.outs, more.outs, end');
      assert Close(fs, fed.states) == [trailing] + Merge(more.outs, end');
      MergeCons(out, rest.outs, trailing, Merge(more.outs, end'));
    }
  }
}
