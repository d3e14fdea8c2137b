/**
 Reading a stream of records in chunks against the one-shot reading: the same for streams without fragile
 records, and never more than a prefix of it otherwise.
 */
module RecordTheorems {
  import opened Common
  import opened Streams
  import opened RecordSpec

  // ---- a decision once made is not changed by more input ---------------------------------

  lemma {:induction false} CsvScanExtends(c: Config, p: Bytes, q: Bytes, i: nat, state: CsvState, fields: nat)
    requires i <= |p|
    ensures match CsvScan(c, p, i, state, fields)
            case Open(state', fields') => CsvScan(c, p + q, i, state, fields) == CsvScan(c, p + q, |p|, state', fields')
            case end => CsvScan(c, p + q, i, state, fields) == end
    decreases |p| - i
  {
    if i < |p| {
      assert (p + q)[i] == p[i];
      var move := CsvMove(c, state, fields, p[i]);
      if move.Go? { CsvScanExtends(c, p, q, i + 1, move.state, move.fields); }
    }
  }

  lemma {:induction false} FirstLfIsFirst(p: Bytes, n: nat)
    requires n <= |p| && (n < |p| ==> p[n] == LF) && forall i :: 0 <= i < n ==> p[i] != LF
    ensures FirstLf(p) == n
  {
  }

  lemma {:induction false} NextExtends(c: Config, p: Bytes, q: Bytes)
    requires !Next(c, p, false).Wait?
    ensures Next(c, p + q, false) == Next(c, p, false)
  {
    if c.format.Line? {
      var end := FirstLf(p);
      FirstLfIsFirst(p + q, end);
      assert LineRecord(p + q, end) == LineRecord(p, end);
    } else {
      CsvScanExtends(c, p, q, 0, FieldStart, 1);
      var scan := CsvRecordScan(c, p);
      if scan.AtNewline? {
        assert (p + q)[..scan.at] == p[..scan.at];
        var n := SeparatorEnd(p, scan.at);
        assert SeparatorEnd(p + q, scan.at) == n && (p + q)[scan.at..n] == p[scan.at..n];
      }
    }
  }

  /** A prefix of a buffer that waits waits too. */
  lemma {:induction false} WaitShrinks(c: Config, p: Bytes, n: nat)
    requires Next(c, p, false).Wait? && n <= |p|
    ensures Next(c, p[..n], false).Wait?
  {
    assert p == p[..n] + p[n..];
    if !Next(c, p[..n], false).Wait? { NextExtends(c, p[..n], p[n..]); }
  }

  lemma {:induction false} PrependTwice(a: seq<Record>, b: seq<Record>, f: Fed)
    ensures Prepend(a, Prepend(b, f)) == Prepend(a + b, f)
  {
    assert a + (b + f.records) == a + b + f.records;
  }

  /** Draining a longer buffer: first what the shorter one yields, then the rest of it. */
  lemma {:induction false} DrainExtends(c: Config, p: Bytes, q: Bytes)
    ensures var d := Drain(c, p, false);
            Drain(c, p + q, false) == if d.rest.Ok? then Prepend(d.records, Drain(c, d.rest.value + q, false)) else d
    decreases |p|
  {
    var next := Next(c, p, false);
    match next
    case Wait => assert Prepend([], Drain(c, p + q, false)) ==
      Drain(c, p + q, false) by { assert [] + Drain(c, p + q, false).records == Drain(c, p + q, false).records; }
    case Fail(_) => NextExtends(c, p, q);
    case Skip(n) =>
      NextExtends(c, p, q);
      assert (p + q)[n..] == p[n..] + q;
      DrainExtends(c, p[n..], q);
    case Emit(record, n) =>
      NextExtends(c, p, q);
      assert (p + q)[n..] == p[n..] + q;
      DrainExtends(c, p[n..], q);
      var d := Drain(c, p[n..], false);
      if d.rest.Ok? { PrependTwice([record], d.records, Drain(c, d.rest.value + q, false)); }
  }

  /** What is left after draining waits for more input. */
  lemma {:induction false} DrainedWaits(c: Config, p: Bytes, limited: bool)
    requires Drain(c, p, limited).rest.Ok?
    ensures Next(c, Drain(c, p, limited).rest.value, false).Wait?
    ensures limited ==> |Drain(c, p, limited).rest.value| <= c.maxRecord
    decreases |p|
  {
    match Next(c, p, false)
    case Emit(_, n) => DrainedWaits(c, p[n..], limited);
    case Skip(n) => DrainedWaits(c, p[n..], limited);
    case _ =>
  }

  /** The limited drain follows the unlimited one unless what remains overflows the buffer. */
  lemma {:induction false} LimitedDrain(c: Config, p: Bytes)
    ensures var d, free := Drain(c, p, true), Drain(c, p, false);
            if free.rest.Ok? && |free.rest.value| > c.maxRecord then d == Fed(free.records, Err(TooLarge))
              else d == free
    decreases |p|
  {
    match Next(c, p, false)
    case Emit(_, n) => LimitedDrain(c, p[n..]);
    case Skip(n) => LimitedDrain(c, p[n..]);
    case _ =>
  }

  lemma {:induction false} FragileExtends(c: Config, p: Bytes, q: Bytes)
    requires Drain(c, p, false).rest.Ok? && Fragile(c, Drain(c, p, false).rest.value + q)
    ensures Fragile(c, p + q)
    decreases |p|
  {
    hide Next, OverflowsAnyway;
    match Next(c, p, false)
    case Emit(_, n) =>
      NextExtends(c, p, q);
      assert (p + q)[n..] == p[n..] + q;
      FragileExtends(c, p[n..], q);
    case Skip(n) =>
      NextExtends(c, p, q);
      assert (p + q)[n..] == p[n..] + q;
      FragileExtends(c, p[n..], q);
    case _ =>
  }

  // ---- partition independence --------------------------------------------------------------

  lemma {:induction false} FinishPrepend(c: Config, records: seq<Record>, f: Fed, g: Fed, inputSeen: bool,
      emitted: bool)
    requires Finish(c, f, inputSeen, emitted || records != []) == Finish(c, g, inputSeen, emitted || records != [])
    ensures Finish(c, Prepend(records, f), inputSeen, emitted) == Finish(c, Prepend(records, g), inputSeen, emitted)
  {
    forall h: Fed
      ensures var o := Finish(c, h, inputSeen, emitted || records != []);
              Finish(c, Prepend(records, h), inputSeen, emitted) == Outcome(records + o.records, o.error)
    {
      FinishOfPrepend(c, records, h, inputSeen, emitted);
    }
  }

  lemma {:induction false} FinishOfPrepend(c: Config, records: seq<Record>, f: Fed, inputSeen: bool, emitted: bool)
    ensures var o := Finish(c, f, inputSeen, emitted || records != []);
            Finish(c, Prepend(records, f), inputSeen, emitted) == Outcome(records + o.records, o.error)
  {
    if f.rest.Ok? {
      var last := Close(c, f.rest.value, inputSeen, emitted || records != [] || f.records != []);
      assert records + f.records + last.records == records + (f.records + last.records);
      assert (records + f.records != []) == (records != [] || f.records != []);
    }
  }

  /** A buffer that overflowed belongs to a record that the one-shot reading rejects as too large. */
  lemma {:induction false} OverflowIsReal(c: Config, rest: Bytes, more: Bytes, inputSeen: bool, emitted: bool)
    requires Next(c, rest, false).Wait? && |rest| > c.maxRecord && !Fragile(c, rest + more)
    ensures Finish(c, Drain(c, rest + more, false), inputSeen, emitted) == Outcome([], Some(TooLarge))
  {
    var p := rest + more;
    WaitShrinks(c, rest, c.maxRecord + 1);
    assert p[..c.maxRecord + 1] == rest[..c.maxRecord + 1];
    assert OverflowsAnyway(c, p);
  }

  lemma {:induction false} FeedAgrees(c: Config, p: Bytes, chunks: seq<Bytes>, inputSeen: bool, emitted: bool)
    requires Next(c, p, false).Wait?
    requires !Fragile(c, p + Flatten(chunks))
    ensures Finish(c, Feed(c, p, chunks), inputSeen, emitted) ==
            Finish(c, Drain(c, p + Flatten(chunks), false), inputSeen, emitted)
    decreases |chunks|
  {
    if chunks == [] {
      assert p + Flatten(chunks) == p;
    } else {
      var head := p + chunks[0];
      var tail := Flatten(chunks[1..]);
      assert p + Flatten(chunks) == head + tail;
      var free := Drain(c, head, false);
      LimitedDrain(c, head);
      DrainExtends(c, head, tail);
      if free.rest.Ok? {
        DrainedWaits(c, head, false);
        if Fragile(c, free.rest.value + tail) { FragileExtends(c, head, tail); }
        if |free.rest.value| > c.maxRecord {
          OverflowIsReal(c, free.rest.value, tail, inputSeen, emitted || free.records != []);
          FinishOfPrepend(c, free.records, Drain(c, free.rest.value + tail, false), inputSeen, emitted);
        } else {
          FeedAgrees(c, free.rest.value, chunks[1..], inputSeen, emitted || free.records != []);
          FinishPrepend(c, free.records, Feed(c, free.rest.value, chunks[1..]), Drain(c, free.rest.value + tail, false),
            inputSeen, emitted);
        }
      }
    }
  }

  lemma {:induction false} EmptyWaits(c: Config)
    ensures Next(c, [], false).Wait?
  {
  }

  /** However an input without fragile records is cut, records and error are those of the one-shot reading. */
  lemma {:induction false} PartitionIndependent(c: Config, chunks: seq<Bytes>)
    requires !Fragile(c, Flatten(chunks))
    ensures RunAll(c, chunks) == Whole(c, Flatten(chunks))
  {
    EmptyWaits(c);
    assert [] + Flatten(chunks) == Flatten(chunks);
    FeedAgrees(c, [], chunks, Flatten(chunks) != [], false);
  }

  // ---- whatever the chunks: a prefix of the one-shot records, and all of them or TooLarge ------

  ghost predicate AgreesOrFails(fed: Outcome, whole: Outcome) {
    fed.records <= whole.records && (fed == whole || fed.error == Some(TooLarge))
  }

  lemma {:induction false} AgreesAfter(records: seq<Record>, fed: Outcome, whole: Outcome)
    requires AgreesOrFails(fed, whole)
    ensures AgreesOrFails(Outcome(records + fed.records, fed.error), Outcome(records + whole.records, whole.error))
  {
    assert records + whole.records == records + fed.records + whole.records[|fed.records|..];
  }

  lemma {:induction false} FeedAgreesOrFails(c: Config, p: Bytes, chunks: seq<Bytes>, inputSeen: bool, emitted: bool)
    requires Next(c, p, false).Wait?
    ensures AgreesOrFails(Finish(c, Feed(c, p, chunks), inputSeen, emitted),
                          Finish(c, Drain(c, p + Flatten(chunks), false), inputSeen, emitted))
    decreases |chunks|
  {
    hide Drain, Next, Finish, AgreesOrFails;
    if chunks == [] {
      assert p + Flatten(chunks) == p;
      FedNothing(c, p, inputSeen, emitted);
    } else {
      var head := p + chunks[0];
      var tail := Flatten(chunks[1..]);
      assert p + Flatten(chunks) == head + tail;
      var free := Drain(c, head, false);
      LimitedDrain(c, head);
      DrainExtends(c, head, tail);
      if free.rest.Err? {
        AgreesWithItself(Finish(c, free, inputSeen, emitted));
      } else {
        DrainedWaits(c, head, false);
        var whole := Drain(c, free.rest.value + tail, false);
        FinishOfPrepend(c, free.records, whole, inputSeen, emitted);
        if |free.rest.value| > c.maxRecord {
          OverflowFails(c, free.records, Finish(c, whole, inputSeen, emitted || free.records != []), inputSeen,
            emitted);
        } else {
          FeedAgreesOrFails(c, free.rest.value, chunks[1..], inputSeen, emitted || free.records != []);
          var fed := Feed(c, free.rest.value, chunks[1..]);
          FinishOfPrepend(c, free.records, fed, inputSeen, emitted);
          AgreesAfter(free.records, Finish(c, fed, inputSeen, emitted || free.records != []),
                      Finish(c, whole, inputSeen, emitted || free.records != []));
        }
      }
    }
  }

  lemma {:induction false} FedNothing(c: Config, p: Bytes, inputSeen: bool, emitted: bool)
    requires Next(c, p, false).Wait?
    ensures AgreesOrFails(Finish(c, Fed([], Ok(p)), inputSeen, emitted),
            Finish(c, Drain(c, p, false), inputSeen, emitted))
  {
  }

  lemma {:induction false} AgreesWithItself(o: Outcome)
    ensures AgreesOrFails(o, o)
  {
  }

  lemma {:induction false} OverflowFails(c: Config, records: seq<Record>, whole: Outcome, inputSeen: bool,
      emitted: bool)
    ensures AgreesOrFails(Finish(c, Fed(records, Err(TooLarge)), inputSeen, emitted),
            Outcome(records + whole.records, whole.error))
  {
  }

  /**
   However an input is cut, the records taken out are those of the one-shot reading from the first on, and
   either all of them come out with its error or the run fails with TooLarge.
   */
  lemma {:induction false} RunAgreesOrFails(c: Config, chunks: seq<Bytes>)
    ensures RunAll(c, chunks).records <= Whole(c, Flatten(chunks)).records
    ensures RunAll(c, chunks) == Whole(c, Flatten(chunks)) || RunAll(c, chunks).error == Some(TooLarge)
  {
    EmptyWaits(c);
    assert [] + Flatten(chunks) == Flatten(chunks);
    FeedAgreesOrFails(c, [], chunks, Flatten(chunks) != [], false);
  }

  // ---- the converse: a fragile record is read differently byte by byte -----------------------

  function Singles(p: Bytes): seq<Bytes> {
    if p == [] then [] else [[p[0]]] + Singles(p[1..])
  }

  lemma {:induction false} FlattenSingles(p: Bytes)
    ensures Flatten(Singles(p)) == p
  {
    if p != [] { FlattenSingles(p[1..]); }
  }

  lemma {:induction false} FeedHead(c: Config, p: Bytes, x: Bytes)
    requires x != []
    ensures var d := Drain(c, p + [x[0]], true);
            Feed(c, p, Singles(x)) == if d.rest.Err? then d
              else Prepend(d.records, Feed(c, d.rest.value, Singles(x[1..])))
  {
  }

  lemma {:induction false} DrainWaiting(c: Config, p: Bytes)
    requires Next(c, p, false).Wait? && |p| <= c.maxRecord
    ensures Drain(c, p, true) == Fed([], Ok(p))
  {
  }

  lemma {:induction false} PrependNothing(f: Fed)
    ensures Prepend([], f) == f
  {
    assert [] + f.records == f.records;
  }

  /** While the buffer waits within the limit, single bytes only accumulate. */
  lemma {:induction false} Accumulate(c: Config, p: Bytes, x: Bytes, n: nat)
    requires n <= |x| && Next(c, p + x[..n], false).Wait? && |p| + n <= c.maxRecord
    ensures Feed(c, p, Singles(x)) == Feed(c, p + x[..n], Singles(x[n..]))
    decreases n
  {
    hide *;
    if n == 0 {
      assert p + x[..0] == p && x[0..] == x;
    } else {
      var p' := p + [x[0]];
      assert (p + x[..n])[..|p| + 1] == p';
      WaitShrinks(c, p + x[..n], |p| + 1);
      FeedHead(c, p, x);
      DrainWaiting(c, p');
      PrependNothing(Feed(c, p', Singles(x[1..])));
      assert p' + x[1..][..n - 1] == p + x[..n];
      assert x[1..][n - 1..] == x[n..];
      Accumulate(c, p', x[1..], n - 1);
    }
  }

  /** The first bytes of a fragile record overflow the buffer. */
  lemma {:induction false} FragileOverflows(c: Config, x: Bytes)
    requires |x| > c.maxRecord && Next(c, x[..c.maxRecord + 1], false).Wait?
    ensures Feed(c, [], Singles(x)) == Fed([], Err(TooLarge))
  {
    hide Next;
    var m := c.maxRecord;
    assert x[..m + 1][..m] == x[..m] && [] + x[..m] == x[..m];
    WaitShrinks(c, x[..m + 1], m);
    Accumulate(c, [], x, m);
    FeedHead(c, x[..m], x[m..]);
    assert x[m..][0] == x[m] && x[..m] + [x[m]] == x[..m + 1];
  }

  /** An empty CSV line is decided within two bytes. */
  lemma {:induction false} SkipIsShort(c: Config, x: Bytes, eof: bool)
    requires Next(c, x, eof).Skip?
    ensures |x| >= 2 ==> !Next(c, x[..2], false).Wait?
  {
    if |x| >= 2 {
      assert CsvRecordScan(c, x) == AtNewline(0);
      assert CsvMove(c, FieldStart, 1, x[0]) == Newline;
      assert x[..2][0] == x[0];
    }
  }

  lemma {:induction false} FragileHereMatters(c: Config, x: Bytes, inputSeen: bool, emitted: bool)
    requires c.maxRecord >= 1 && |x| > c.maxRecord && Next(c, x[..c.maxRecord + 1], false).Wait?
             && !OverflowsAnyway(c, x)
    ensures Finish(c, Drain(c, x, false), inputSeen, emitted) != Outcome([], Some(TooLarge))
  {
    hide NextLine, NextCsv;
    assert x[..c.maxRecord + 1][..2] == x[..2];
    WaitShrinks(c, x[..c.maxRecord + 1], 2);
    if Next(c, x, false).Skip? { SkipIsShort(c, x, false); }
    if Next(c, x, true).Skip? { SkipIsShort(c, x, true); }
  }

  /** A record is decided at the latest one byte after its separator. */
  lemma {:induction false} DecidedSoon(c: Config, x: Bytes)
    requires Next(c, x, false).Emit? || Next(c, x, false).Skip?
    ensures var n := Next(c, x, false).consumed; n < |x| ==> !Next(c, x[..n + 1], false).Wait?
  {
    var n := Next(c, x, false).consumed;
    if n < |x| {
      assert x == x[..n + 1] + x[n + 1..];
      if c.format.Line? {
        assert FirstLf(x) == n - 1;
        assert x[..n + 1][n - 1] == LF;
      } else {
        CsvScanExtends(c, x[..n + 1], x[n + 1..], 0, FieldStart, 1);
      }
    }
  }

  /** The smallest prefix on which the next record is decided. */
  lemma {:induction false} DecisionPoint(c: Config, x: Bytes, n: nat) returns (l: nat)
    requires n <= |x| && !Next(c, x[..n], false).Wait?
    ensures 0 < l <= n && !Next(c, x[..l], false).Wait? && Next(c, x[..l - 1], false).Wait?
    decreases n
  {
    EmptyWaits(c);
    assert x[..0] == [];
    if Next(c, x[..n - 1], false).Wait? {
      l := n;
    } else {
      l := DecisionPoint(c, x, n - 1);
    }
  }

  /** The point where a record decided within the limit is decided: right at or after its separator. */
  lemma {:induction false} DecidedWithin(c: Config, x: Bytes) returns (l: nat)
    requires Next(c, x, false).Emit? || Next(c, x, false).Skip?
    requires |x| > c.maxRecord ==> !Next(c, x[..c.maxRecord + 1], false).Wait?
    ensures 0 < l <= |x| && l - 1 <= c.maxRecord && Next(c, x[..l - 1], false).Wait?
    ensures Next(c, x[..l], false) == Next(c, x, false)
    ensures Next(c, x, false).consumed <= l <= Next(c, x, false).consumed + 1
  {
    hide Next;
    assert x[..|x|] == x;
    l := DecisionPoint(c, x, if |x| > c.maxRecord then c.maxRecord + 1 else |x|);
    assert x == x[..l] + x[l..];
    NextExtends(c, x[..l], x[l..]);
    NextConsumes(c, x[..l]);
    DecidedSoon(c, x);
    var n := Next(c, x, false).consumed;
    if n + 1 < l {
      assert x[..l - 1][..n + 1] == x[..n + 1];
      WaitShrinks(c, x[..l - 1], n + 1);
      assert false;
    }
  }

  lemma {:induction false} DrainStep(c: Config, p: Bytes, limited: bool)
    requires Next(c, p, false).Emit? || Next(c, p, false).Skip?
    ensures var s := Next(c, p, false);
            Drain(c, p, limited) == Prepend(if s.Emit? then [s.record] else [], Drain(c, p[s.consumed..], limited))
  {
    hide Next;
    var s := Next(c, p, false);
    NextConsumes(c, p);
    if s.Skip? { assert [] + Drain(c, p[s.consumed..], limited).records == Drain(c, p[s.consumed..], limited).records; }
  }

  /** A record decided within the limit is taken out the same way byte by byte. */
  lemma {:induction false} SinglesStep(c: Config, x: Bytes)
    requires Next(c, x, false).Emit? || Next(c, x, false).Skip?
    requires |x| > c.maxRecord ==> !Next(c, x[..c.maxRecord + 1], false).Wait?
    ensures var s := Next(c, x, false);
            var records := if s.Emit? then [s.record] else [];
            0 < s.consumed <= |x| && Feed(c, [], Singles(x)) == Prepend(records, Feed(c, [], Singles(x[s.consumed..])))
  {
    hide Next, Drain, Feed, Singles;
    var s := Next(c, x, false);
    var n := s.consumed;
    NextConsumes(c, x);
    var l := DecidedWithin(c, x);
    assert [] + x[..l - 1] == x[..l - 1];
    Accumulate(c, [], x, l - 1);
    FeedHead(c, x[..l - 1], x[l - 1..]);
    assert x[..l - 1] + [x[l - 1]] == x[..l] && x[l - 1..][0] == x[l - 1] && x[l - 1..][1..] == x[l..];
    assert x[..l][n..] == x[n..l];
    var records := if s.Emit? then [s.record] else [];
    var left := Drain(c, x[n..l], true);
    DrainStep(c, x[..l], true);
    SinglesTail(c, x, n, l);
    if left.rest.Ok? { PrependTwice(records, left.records, Feed(c, left.rest.value, Singles(x[l..]))); }
  }

  lemma {:induction false} NextConsumes(c: Config, p: Bytes)
    ensures Next(c, p, false).Emit? ==> 0 < Next(c, p, false).consumed <= |p|
    ensures Next(c, p, false).Skip? ==> 0 < Next(c, p, false).consumed <= |p|
  {
  }

  lemma {:induction false} SinglesTail(c: Config, x: Bytes, n: nat, l: nat)
    requires n <= l <= |x| && l <= n + 1
    ensures var left := Drain(c, x[n..l], true);
            Feed(c, [], Singles(x[n..])) == if left.rest.Ok? then
              Prepend(left.records, Feed(c, left.rest.value, Singles(x[l..]))) else left
  {
    if n == l {
      EmptyWaits(c);
      var f := Feed(c, [], Singles(x[l..]));
      assert Drain(c, [], true) == Fed([], Ok([]));
      assert Prepend([], f) == f by { assert [] + f.records == f.records; }
    } else {
      assert x[n..][0] == x[n] && x[n..][1..] == x[l..] && [] + [x[n]] == x[n..l];
    }
  }

  lemma {:induction false} SinglesDiffer(c: Config, x: Bytes, inputSeen: bool, emitted: bool)
    requires c.maxRecord >= 1 && Fragile(c, x)
    ensures Finish(c, Feed(c, [], Singles(x)), inputSeen, emitted) != Finish(c, Drain(c, x, false), inputSeen, emitted)
    decreases |x|
  {
    hide NextLine, NextCsv, Close;
    if |x| > c.maxRecord && Next(c, x[..c.maxRecord + 1], false).Wait? && !OverflowsAnyway(c, x) {
      FragileOverflows(c, x);
      FragileHereMatters(c, x, inputSeen, emitted);
    } else {
      var s := Next(c, x, false);
      var records := if s.Emit? then [s.record] else [];
      SinglesStep(c, x);
      DrainStep(c, x, false);
      var f, d := Feed(c, [], Singles(x[s.consumed..])), Drain(c, x[s.consumed..], false);
      SinglesDiffer(c, x[s.consumed..], inputSeen, emitted || records != []);
      FinishOfPrepend(c, records, f, inputSeen, emitted);
      FinishOfPrepend(c, records, d, inputSeen, emitted);
      var o, o' := Finish(c, f, inputSeen, emitted || records != []), Finish(c, d, inputSeen, emitted || records != []);
      assert (records + o.records)[|records|..] == o.records && (records + o'.records)[|records|..] == o'.records;
    }
  }

  /** Every chunking of an input agrees with its one-shot reading exactly when none of its records is fragile. */
  lemma {:induction false} OneShotAgreesExactly(c: Config, input: Bytes)
    requires c.maxRecord >= 1
    ensures !Fragile(c, input) <==> forall chunks :: Flatten(chunks) == input ==> RunAll(c, chunks) == Whole(c, input)
  {
    if Fragile(c, input) {
      FlattenSingles(input);
      SinglesDiffer(c, input, input != [], false);
      assert RunAll(c, Singles(input)) != Whole(c, input);
    } else {
      forall chunks | Flatten(chunks) == input ensures RunAll(c, chunks) == Whole(c, input) {
        PartitionIndependent(c, chunks);
      }
    }
  }
}
