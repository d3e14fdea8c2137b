/** What a successful session has computed, and what it has kept within bounds. */
module PipelineTheorems {
  import opened Common
  import opened Streams
  import opened PipelineStages
  import opened PipelineSpec

  function States<S, V>(p: Pipe<S, V>, i: nat): (ss: seq<S>)
    requires i <= |p.slots| && LiveFrom(p, i)
    ensures |ss| == |p.slots| - i
    ensures forall j :: 0 <= j < |ss| ==> ss[j] == p.slots[i + j].state
  {
    seq(|p.slots| - i, j requires 0 <= j < |p.slots| - i => p.slots[i + j].state)
  }

  function TotalLen(rs: seq<Record>): nat {
    if rs == [] then 0 else RecordLen(rs[0]) + TotalLen(rs[1..])
  }

  lemma {:induction false} TotalLenJoins(a: seq<Record>, b: seq<Record>)
    ensures TotalLen(a + b) == TotalLen(a) + TotalLen(b)
    decreases |a|
  {
    if a == [] {
      assert a + b == b;
    } else {
      assert (a + b)[0] == a[0] && (a + b)[1..] == a[1..] + b;
      TotalLenJoins(a[1..], b);
    }
  }

  lemma {:induction false} TotalLenOne(r: Record)
    ensures TotalLen([r]) == RecordLen(r)
  {
    assert [r][1..] == [];
  }

  /** Between `p` and `p'` the stages from `i` on have put out `outs`; earlier stages nothing. */
  ghost predicate Accounts<S, V>(p: Pipe<S, V>, p': Pipe<S, V>, i: nat, outs: seq<seq<Record>>) {
    && |p.stage| == |p'.stage| == i + |outs|
    && p'.input == p.input
    && (forall j :: 0 <= j < i ==> p'.stage[j] == p.stage[j])
    && (forall j :: i <= j < |p.stage| ==> p'.stage[j] == p.stage[j] + TotalLen(outs[j - i]))
  }

  function AsSeq(r: Option<Record>): seq<Record> {
    if r.None? then [] else [r.value]
  }

  // ---- one record ----------------------------------------------------------------------------

  lemma {:induction false} TransformMeans<S, V>(c: Chain<S, V>, p: Pipe<S, V>, i: nat, record: Record)
    requires Shaped(c, p) && LiveFrom(p, i) && i < |c.filters|
    requires TransformAt(c, p, i, record).Ok?
    ensures var (p', next) := TransformAt(c, p, i, record).value;
            var (s, outcome) := c.filters[i].step(p.slots[i].state, record.payload);
            && p'.slots == p.slots[i := Live(s, c.filters[i].fuel(s))]
            && AsSeq(next) == Kept(outcome, record.separator)
            && p'.stage == p.stage[i := p.stage[i] + TotalLen(AsSeq(next))]
            && p'.input == p.input && p'.output == p.output
  {
    hide ExpansionLimitFor;
    var (p', next) := TransformAt(c, p, i, record).value;
    if next.Some? { TotalLenOne(next.value); }
  }

  lemma {:induction false} RouteMeans<S, V>(c: Chain<S, V>, p: Pipe<S, V>, i: nat, record: Record)
    requires Shaped(c, p) && LiveFrom(p, i) && i <= |c.filters|
    requires RouteFrom(c, p, i, record).Ok?
    ensures var (p', out) := RouteFrom(c, p, i, record).value;
            var routed := Route(c.filters[i..], States(p, i), record);
            && States(p', i) == routed.states
            && Accounts(p, p', i, routed.outs)
            && AsSeq(out) == Delivered([record], routed.outs)
            && p'.output == p.output + TotalLen(AsSeq(out))
    decreases |c.filters| - i
  {
    hide TransformAt, ExpansionLimitFor;
    var (p', out) := RouteFrom(c, p, i, record).value;
    if i == |c.filters| {
      TotalLenOne(record);
    } else {
      TransformMeans(c, p, i, record);
      var (q, next) := TransformAt(c, p, i, record).value;
      assert c.filters[i..][0] == c.filters[i] && c.filters[i..][1..] == c.filters[i + 1..];
      assert States(p, i)[1..] == States(q, i + 1);
      if next.None? {
        RouteDrops(c, p, i, record, q);
      } else {
        RouteMeans(c, q, i + 1, next.value);
        RouteEmits(c, p, i, record, q, next.value);
      }
    }
  }

  lemma {:induction false} RouteDrops<S, V>(c: Chain<S, V>, p: Pipe<S, V>, i: nat, record: Record, q: Pipe<S, V>)
    requires Shaped(c, p) && LiveFrom(p, i) && i < |c.filters|
    requires TransformAt(c, p, i, record) == Ok((q, None))
    ensures var routed := Route(c.filters[i..], States(p, i), record);
            && States(q, i) == routed.states && Accounts(p, q, i, routed.outs)
            && Delivered([record], routed.outs) == [] && q.output == p.output
  {
    hide TransformAt;
    TransformMeans(c, p, i, record);
    assert c.filters[i..][0] == c.filters[i];
    var routed := Route(c.filters[i..], States(p, i), record);
    assert routed.outs == Silence(|c.filters| - i);
    assert States(q, i) == [q.slots[i].state] + States(p, i)[1..];
  }

  lemma {:induction false} RouteOnEmit<S>(fs: seq<Filter<S>>, ss: seq<S>, record: Record, next: Record)
    requires |fs| == |ss| && fs != []
    requires Kept(fs[0].step(ss[0], record.payload).1, record.separator) == [next]
    ensures var rest := Route(fs[1..], ss[1..], next);
            Route(fs, ss, record) == Routed([fs[0].step(ss[0], record.payload).0] + rest.states, [[next]] + rest.outs)
  {
  }

  lemma {:induction false} AccountsFirst<S,
      V>(p: Pipe<S, V>, q: Pipe<S, V>, r: Pipe<S, V>, i: nat, first: seq<Record>, outs: seq<seq<Record>>)
    requires i < |p.stage| && q.stage == p.stage[i := p.stage[i] + TotalLen(first)] && q.input == p.input
    requires Accounts(q, r, i + 1, outs)
    ensures Accounts(p, r, i, [first] + outs)
  {
    hide TotalLen;
  }

  /** The first filter's record in front of what the rest of the chain does with it. */
  lemma {:induction false} RouteEmits<S,
      V>(c: Chain<S, V>, p: Pipe<S, V>, i: nat, record: Record, q: Pipe<S, V>, next: Record)
    requires Shaped(c, p) && LiveFrom(p, i) && i < |c.filters|
    requires TransformAt(c, p, i, record) == Ok((q, Some(next)))
    requires RouteFrom(c, q, i + 1, next).Ok?
    requires var p' := RouteFrom(c, q, i + 1, next).value.0;
             var rest := Route(c.filters[i + 1..], States(q, i + 1), next);
             States(p', i + 1) == rest.states && Accounts(q, p', i + 1, rest.outs)
    ensures var p' := RouteFrom(c, q, i + 1, next).value.0;
            var rest := Route(c.filters[i + 1..], States(q, i + 1), next);
            var routed := Route(c.filters[i..], States(p, i), record);
            && States(p', i) == routed.states && Accounts(p, p', i, routed.outs)
            && Delivered([record], routed.outs) == Delivered([next], rest.outs)
  {
    hide TransformAt, RouteFrom, Route, TotalLen, RecordLen;
    TransformMeans(c, p, i, record);
    var p' := RouteFrom(c, q, i + 1, next).value.0;
    assert c.filters[i..][0] == c.filters[i] && c.filters[i..][1..] == c.filters[i + 1..];
    assert States(p, i)[1..] == States(q, i + 1);
    var rest := Route(c.filters[i + 1..], States(q, i + 1), next);
    var routed := Route(c.filters[i..], States(p, i), record);
    RouteOnEmit(c.filters[i..], States(p, i), record, next);
    AccountsFirst(p, q, p', i, [next], rest.outs);
    assert p'.slots[i] == q.slots[i];
    assert States(p', i) == [q.slots[i].state] + States(p', i + 1);
  }

  // ---- the end of the stream -----------------------------------------------------------------

  lemma {:induction false} FeedOne<S>(fs: seq<Filter<S>>, ss: seq<S>, r: Record)
    requires |fs| == |ss|
    ensures Feed(fs, ss, [r]) == Route(fs, ss, r)
  {
    hide Route;
    FeedSnoc(fs, ss, [], r);
    assert [] + [r] == [r];
    var routed := Route(fs, ss, r);
    assert Merge(Silence(|fs|), routed.outs) == routed.outs by {
      forall i | 0 <= i < |fs| ensures Merge(Silence(|fs|), routed.outs)[i] == routed.outs[i] {
        assert [] + routed.outs[i] == routed.outs[i];
      }
    }
  }

  lemma {:induction false} DeliveredJoins(a: seq<Record>, b: seq<Record>, x: seq<seq<Record>>, y: seq<seq<Record>>)
    requires |x| == |y|
    ensures Delivered(a + b, Merge(x, y)) == Delivered(a, x) + Delivered(b, y)
  {
  }

  /** What finishing filter `i` does: its trailing output, and that output fed to the filters after it. */
  lemma {:induction false} FinishAtMeans<S, V>(c: Chain<S, V>, p: Pipe<S, V>, i: nat, expired: bool)
    requires Shaped(c, p) && LiveFrom(p, i) && i < |c.filters|
    requires FinishAt(c, p, i, expired).Ok?
    ensures var (p', out) := FinishAt(c, p, i, expired).value;
            var trailing := Trailing(c.filters[i], p.slots[i].state);
            var fed := Feed(c.filters[i + 1..], States(p, i + 1), trailing);
            && States(p', i + 1) == fed.states
            && Accounts(p, p', i, [trailing] + fed.outs)
            && AsSeq(out) == Delivered(trailing, fed.outs)
            && p'.output == p.output + TotalLen(AsSeq(out))
  {
    hide RouteFrom, ExpansionLimitFor, Route, Feed, TotalLen;
    var trailing := c.filters[i].finish(p.slots[i].state).0;
    if trailing == [] {
      TotalLenNothing();
      FinishSilent(c, p, i, expired);
    } else {
      FinishSpeaks(c, p, i, expired);
    }
  }

  lemma {:induction false} FinishSilent<S, V>(c: Chain<S, V>, p: Pipe<S, V>, i: nat, expired: bool)
    requires Shaped(c, p) && LiveFrom(p, i) && i < |c.filters|
    requires FinishAt(c, p, i, expired).Ok? && c.filters[i].finish(p.slots[i].state).0 == []
    ensures var (p', out) := FinishAt(c, p, i, expired).value;
            var fed := Feed(c.filters[i + 1..], States(p, i + 1), []);
            && States(p', i + 1) == fed.states
            && Accounts(p, p', i, [[]] + fed.outs)
            && out == None && Delivered([], fed.outs) == []
            && p'.output == p.output
  {
    hide RouteFrom, ExpansionLimitFor;
    var p' := FinishAt(c, p, i, expired).value.0;
    assert States(p', i + 1) == States(p, i + 1);
  }

  lemma {:induction false} FinishSpeaks<S, V>(c: Chain<S, V>, p: Pipe<S, V>, i: nat, expired: bool)
    requires Shaped(c, p) && LiveFrom(p, i) && i < |c.filters|
    requires FinishAt(c, p, i, expired).Ok? && c.filters[i].finish(p.slots[i].state).0 != []
    ensures var (p', out) := FinishAt(c, p, i, expired).value;
            var record := Record(c.filters[i].finish(p.slots[i].state).0, []);
            var fed := Feed(c.filters[i + 1..], States(p, i + 1), [record]);
            && States(p', i + 1) == fed.states
            && Accounts(p, p', i, [[record]] + fed.outs)
            && AsSeq(out) == Delivered([record], fed.outs)
            && p'.output == p.output + TotalLen(AsSeq(out))
  {
    hide RouteFrom, ExpansionLimitFor, Route, Feed;
    var (trailing, counter) := c.filters[i].finish(p.slots[i].state);
    var record := Record(trailing, []);
    var fuel := AddFuel(c.limits, p.fuel, SaturatingSub(counter, p.slots[i].accounted)).value;
    var total := AddOutput(c.limits, p.input, p.stage[i], |trailing|).value;
    var q := p.(slots := p.slots[i := Taken(counter)], fuel := fuel, stage := p.stage[i := total]);
    assert FinishAt(c, p, i, expired) == RouteFrom(c, q, i + 1, record);
    RouteMeans(c, q, i + 1, record);
    assert States(q, i + 1) == States(p, i + 1);
    FeedOne(c.filters[i + 1..], States(p, i + 1), record);
    TotalLenOne(record);
  }

  lemma {:induction false} AccountsJoin<S,
      V>(p: Pipe<S, V>, q: Pipe<S, V>, r: Pipe<S, V>, i: nat, first: seq<Record>, x: seq<seq<Record>>,
      y: seq<seq<Record>>)
    requires |x| == |y| && Accounts(p, q, i, [first] + x) && Accounts(q, r, i + 1, y)
    ensures Accounts(p, r, i, [first] + Merge(x, y))
  {
    forall j | i < j < |p.stage| ensures r.stage[j] == p.stage[j] + TotalLen(([first] + Merge(x, y))[j - i]) {
      assert ([first] + x)[j - i] == x[j - i - 1];
      TotalLenJoins(x[j - i - 1], y[j - i - 1]);
    }
  }

  lemma {:induction false} FinishMeans<S, V>(c: Chain<S, V>, p: Pipe<S, V>, i: nat, expired: nat -> bool)
    requires Shaped(c, p) && LiveFrom(p, i) && i <= |c.filters|
    requires FinishFrom(c, p, i, expired).Ok?
    ensures var (p', outs) := FinishFrom(c, p, i, expired).value;
            var closed := Close(c.filters[i..], States(p, i));
            && Accounts(p, p', i, closed)
            && outs == Delivered([], closed)
            && p'.output == p.output + TotalLen(outs)
    decreases |c.filters| - i
  {
    hide FinishAt, Feed, Trailing, TotalLen;
    if i == |c.filters| {
      TotalLenNothing();
    } else {
      FinishAtMeans(c, p, i, expired(i));
      var (q, last) := FinishAt(c, p, i, expired(i)).value;
      FinishMeans(c, q, i + 1, expired);
      var (p', rest) := FinishFrom(c, q, i + 1, expired).value;
      assert c.filters[i..][0] == c.filters[i] && c.filters[i..][1..] == c.filters[i + 1..];
      assert States(p, i)[1..] == States(p, i + 1);
      var trailing := Trailing(c.filters[i], p.slots[i].state);
      var fed := Feed(c.filters[i + 1..], States(p, i + 1), trailing);
      var closed := Close(c.filters[i + 1..], fed.states);
      AccountsJoin(p, q, p', i, trailing, fed.outs, closed);
      DeliveredJoins(trailing, [], fed.outs, closed);
      TotalLenJoins(AsSeq(last), rest);
      assert Close(c.filters[i..], States(p, i)) == [trailing] + Merge(fed.outs, closed);
      DeliveredCons(trailing, Merge(fed.outs, closed));
      assert trailing + [] == trailing;
    }
  }

  lemma {:induction false} TotalLenNothing()
    ensures TotalLen([]) == 0
  {
  }

  lemma {:induction false} DeliveredCons(first: seq<Record>, outs: seq<seq<Record>>)
    ensures Delivered([], [first] + outs) == Delivered(first, outs)
  {
  }

  // ---- whole sessions --------------------------------------------------------------------------

  /** `p` is where a session begun at `p0` is after `input`, and `out` is what it has returned. */
  ghost predicate Fed<S, V>(c: Chain<S, V>, p0: Pipe<S, V>, p: Pipe<S, V>, input: seq<Record>, out: seq<Record>)
    requires Shaped(c, p0) && LiveFrom(p0, 0)
  {
    var fed := Feed(c.filters, States(p0, 0), input);
    && Shaped(c, p) && LiveFrom(p, 0) && States(p, 0) == fed.states
    && (forall i :: 0 <= i < |p.stage| ==> p.stage[i] == TotalLen(fed.outs[i]))
    && p.input == TotalLen(input)
    && out == Delivered(input, fed.outs)
    && p.output == TotalLen(out)
  }

  ghost predicate Fresh<S, V>(c: Chain<S, V>, p: Pipe<S, V>) {
    && Shaped(c, p) && LiveFrom(p, 0) && p.input == p.output == 0
    && forall i :: 0 <= i < |p.stage| ==> p.stage[i] == 0
  }

  lemma {:induction false} SessionStarts<S, V>(c: Chain<S, V>, p: Pipe<S, V>)
    requires Fresh(c, p)
    ensures Fed(c, p, p, [], [])
  {
  }

  lemma {:induction false} ProcessMeans<S,
      V>(c: Chain<S, V>, p0: Pipe<S, V>, p: Pipe<S, V>, input: seq<Record>, out: seq<Record>, record: Record,
      expired: bool)
    requires Shaped(c, p0) && LiveFrom(p0, 0) && Fed(c, p0, p, input, out)
    requires Process(c, p, record, expired).Ok?
    ensures var (p', more) := Process(c, p, record, expired).value;
            Fed(c, p0, p', input + [record], out + AsSeq(more))
  {
    hide RouteFrom, Route, Feed;
    var q := p.(input := p.input + RecordLen(record));
    assert States(q, 0) == States(p, 0);
    RouteMeans(c, q, 0, record);
    assert c.filters[0..] == c.filters;
    var before := Feed(c.filters, States(p0, 0), input);
    var routed := Route(c.filters, before.states, record);
    FeedSnoc(c.filters, States(p0, 0), input, record);
    DeliveredJoins(input, [record], before.outs, routed.outs);
    TotalLenJoins(input, [record]);
    TotalLenOne(record);
    var (p', more) := Process(c, p, record, expired).value;
    TotalLenJoins(out, AsSeq(more));
    forall i | 0 <= i < |p.stage| ensures p'.stage[i] == TotalLen(Merge(before.outs, routed.outs)[i]) {
      TotalLenJoins(before.outs[i], routed.outs[i]);
    }
  }

  /**
   A session that meets no error returns, over all its calls, exactly the records of the stage-by-stage
   run, and its counters are the lengths of what each stage and the whole chain put out.
   */
  lemma {:induction false} SessionMeans<S,
      V>(c: Chain<S, V>, p0: Pipe<S, V>, p: Pipe<S, V>, input: seq<Record>, out: seq<Record>, expired: nat -> bool)
    requires Shaped(c, p0) && LiveFrom(p0, 0) && Fed(c, p0, p, input, out)
    requires FinishFrom(c, p, 0, expired).Ok?
    ensures var (p', last) := FinishFrom(c, p, 0, expired).value;
            var staged := Stages(c.filters, States(p0, 0), input);
            && out + last == Delivered(input, staged)
            && |p'.stage| == |staged|
            && (forall i :: 0 <= i < |staged| ==> p'.stage[i] == TotalLen(staged[i]))
            && p'.output == TotalLen(Delivered(input, staged)) && p'.input == TotalLen(input)
  {
    hide FinishFrom, Feed, Close, Stages;
    FinishMeans(c, p, 0, expired);
    assert c.filters[0..] == c.filters;
    var (p', last) := FinishFrom(c, p, 0, expired).value;
    var fed := Feed(c.filters, States(p0, 0), input);
    var closed := Close(c.filters, fed.states);
    OnlineIsStaged(c.filters, States(p0, 0), input);
    DeliveredJoins(input, [], fed.outs, closed);
    assert input + [] == input;
    TotalLenJoins(out, last);
    forall i | 0 <= i < |p.stage| ensures p'.stage[i] == TotalLen(Merge(fed.outs, closed)[i]) {
      TotalLenJoins(fed.outs[i], closed[i]);
    }
  }
}
