/**
 Which accepted inputs some cut into small pieces accepts too: all but those whose last record leaves a CR
 beyond the limit in the buffer. Pieces of two bytes suffice.
 */
module RecordCuts {
  import opened Common
  import opened Streams
  import opened RecordSpec
  import opened RecordTheorems
  import opened RecordMeaning
  import opened RecordFragile

  /** Draining `p` leaves more in the buffer than a record may hold. */
  predicate Full(c: Config, p: Bytes) {
    var d := Drain(c, p, false);
    d.rest.Ok? && |d.rest.value| > c.maxRecord
  }

  /** A run that does not fail has drained the whole input and never left the buffer full. */
  lemma {:induction false} FedDrained(c: Config, p: Bytes, chunks: seq<Bytes>)
    requires Next(c, p, false).Wait? && |p| <= c.maxRecord && Feed(c, p, chunks).rest.Ok?
    ensures Feed(c, p, chunks) == Drain(c, p + Flatten(chunks), false) && !Full(c, p + Flatten(chunks))
    decreases |chunks|
  {
    hide Drain, Next;
    if chunks == [] {
      assert p + Flatten(chunks) == p;
      DrainOfWaiting(c, p);
    } else {
      var head, tail := p + chunks[0], Flatten(chunks[1..]);
      assert p + Flatten(chunks) == head + tail;
      LimitedDrain(c, head);
      DrainExtends(c, head, tail);
      DrainedWaits(c, head, false);
      FedDrained(c, Drain(c, head, false).rest.value, chunks[1..]);
    }
  }

  lemma {:induction false} DrainOfWaiting(c: Config, p: Bytes)
    requires Next(c, p, false).Wait?
    ensures Drain(c, p, false) == Fed([], Ok(p))
  {
  }

  lemma {:induction false} RestShrinks(c: Config, p: Bytes)
    requires Drain(c, p, false).rest.Ok?
    ensures |Drain(c, p, false).rest.value| <= |p|
    decreases |p|
  {
    match Next(c, p, false)
    case Emit(_, n) => RestShrinks(c, p[n..]);
    case Skip(n) => RestShrinks(c, p[n..]);
    case _ =>
  }

  /** A record is decided by the two bytes after its payload. */
  lemma {:induction false} DecidedByTwo(c: Config, x: Bytes, m: nat)
    requires Next(c, x, false).Emit? && |Next(c, x, false).record.payload| + 2 <= m <= |x|
    ensures !Next(c, x[..m], false).Wait?
  {
    assert x == x[..m] + x[m..];
    if c.format.Line? {
      assert x[..m][FirstLf(x)] == LF;
    } else {
      CsvScanExtends(c, x[..m], x[m..], 0, FieldStart, 1);
    }
  }

  /** A waiting buffer beyond the limit that the whole input resolves is resolved by the next byte. */
  lemma {:induction false} NextByteEmits(c: Config, r: Bytes, more: Bytes)
    requires c.maxRecord >= 1 && more != [] && Next(c, r, false).Wait? && |r| > c.maxRecord
    requires Drain(c, r + more, false).rest.Ok? && !Full(c, r + more)
    ensures Next(c, r + more[..1], false).Emit?
    ensures |r| <= Next(c, r + more[..1], false).consumed <= |r| + 1
  {
    hide NextLine, NextCsv;
    var y := r + more;
    assert y[..|r|] == r;
    assert r[..2] == y[..2];
    WaitShrinks(c, r, 2);
    if Next(c, y, false).Skip? {
      SkipIsShort(c, y, false);
      assert false;
    }
    var n := Next(c, y, false).consumed;
    var z := r + more[..1];
    assert y[..|r| + 1] == z && y == z + more[1..];
    DecidedByTwo(c, y, |r| + 1);
    NextExtends(c, z, more[1..]);
    DecidedSoon(c, y);
    if n < |r| {
      assert y[..n + 1] == r[..n + 1];
      WaitShrinks(c, r, n + 1);
      assert false;
    }
  }

  lemma {:induction false} DrainPrefix(c: Config, x: Bytes, k: nat)
    requires k <= |x| && Drain(c, x, false).rest.Ok?
    ensures var d := Drain(c, x[..k], false);
            d.rest.Ok? && Next(c, d.rest.value, false).Wait?
              && Drain(c, x, false) == Prepend(d.records, Drain(c, d.rest.value + x[k..], false))
  {
    hide Drain, Next;
    assert x == x[..k] + x[k..];
    DrainExtends(c, x[..k], x[k..]);
    DrainedWaits(c, x[..k], false);
  }

  /** Two positions in a row never both leave the buffer full. */
  lemma {:induction false} NotTwice(c: Config, x: Bytes, k: nat)
    requires c.maxRecord >= 1 && k < |x| && Full(c, x[..k])
    requires Drain(c, x, false).rest.Ok? && !Full(c, x)
    ensures !Full(c, x[..k + 1])
  {
    hide Drain, Next;
    DrainPrefix(c, x, k);
    var r := Drain(c, x[..k], false).rest.value;
    NextByteEmits(c, r, x[k..]);
    assert x[k..][..1] == x[k..k + 1] && x[..k + 1] == x[..k] + x[k..k + 1];
    DrainExtends(c, x[..k], x[k..k + 1]);
    var z := r + x[k..k + 1];
    var n := Next(c, z, false).consumed;
    DrainStep(c, z, false);
    if Drain(c, z[n..], false).rest.Ok? { RestShrinks(c, z[n..]); }
  }

  /** Single bytes, and two together where one alone would leave the buffer full. */
  function Pairs(c: Config, x: Bytes, k: nat): (pieces: seq<Bytes>)
    requires k <= |x|
    ensures forall i :: 0 <= i < |pieces| ==> 1 <= |pieces[i]| <= 2
    decreases |x| - k
  {
    if k == |x| then []
    else
      var n := if k + 2 <= |x| && Full(c, x[..k + 1]) then k + 2 else k + 1;
      [x[k..n]] + Pairs(c, x, n)
  }

  lemma {:induction false} PairsFlatten(c: Config, x: Bytes, k: nat)
    requires k <= |x|
    ensures Flatten(Pairs(c, x, k)) == x[k..]
    decreases |x| - k
  {
    hide Full;
    if k < |x| {
      var n := if k + 2 <= |x| && Full(c, x[..k + 1]) then k + 2 else k + 1;
      PairsFlatten(c, x, n);
      assert ([x[k..n]] + Pairs(c, x, n))[1..] == Pairs(c, x, n);
      assert x[k..] == x[k..n] + x[n..];
    }
  }

  lemma {:induction false} FeedCons(c: Config, p: Bytes, chunk: Bytes, chunks: seq<Bytes>)
    ensures var d := Drain(c, p + chunk, true);
            Feed(c, p, [chunk] + chunks) == if d.rest.Err? then d else Prepend(d.records, Feed(c, d.rest.value, chunks))
  {
    assert ([chunk] + chunks)[1..] == chunks;
  }

  lemma {:induction false} FeedPairs(c: Config, x: Bytes, k: nat)
    requires c.maxRecord >= 1 && k <= |x| && Drain(c, x, false).rest.Ok? && !Full(c, x) && !Full(c, x[..k])
    ensures Drain(c, x[..k], false).rest.Ok?
    ensures var d := Drain(c, x[..k], false);
            Drain(c, x, false) == Prepend(d.records, Feed(c, d.rest.value, Pairs(c, x, k)))
    decreases |x| - k
  {
    hide Drain, Next, Feed;
    DrainPrefix(c, x, k);
    var d := Drain(c, x[..k], false);
    if k == |x| {
      assert x[..k] == x;
      FedLast(c, d);
    } else {
      var n := if k + 2 <= |x| && Full(c, x[..k + 1]) then k + 2 else k + 1;
      if n == k + 2 {
        NotTwice(c, x, k + 1);
      } else if k + 1 == |x| {
        assert x[..k + 1] == x;
      }
      FeedPairs(c, x, n);
      assert x[..n] == x[..k] + x[k..n];
      DrainExtends(c, x[..k], x[k..n]);
      LimitedDrain(c, d.rest.value + x[k..n]);
      FeedCons(c, d.rest.value, x[k..n], Pairs(c, x, n));
      var first := Drain(c, d.rest.value + x[k..n], false);
      PrependTwice(d.records, first.records, Feed(c, first.rest.value, Pairs(c, x, n)));
    }
  }

  lemma {:induction false} FedLast(c: Config, d: Fed)
    requires d.rest.Ok?
    ensures d == Prepend(d.records, Feed(c, d.rest.value, []))
  {
    assert d.records + [] == d.records;
  }

  /** Unless the whole input leaves the buffer full, pieces of at most two bytes give the one-shot outcome. */
  lemma {:induction false} PairsAgree(c: Config, input: Bytes)
    requires c.maxRecord >= 1 && Drain(c, input, false).rest.Ok? && !Full(c, input)
    ensures RunAll(c, Pairs(c, input, 0)) == Whole(c, input) && Flatten(Pairs(c, input, 0)) == input
  {
    hide Next, Feed, Pairs, Finish;
    PairsFlatten(c, input, 0);
    assert input[..0] == [] && input[0..] == input;
    EmptyWaits(c);
    DrainOfWaiting(c, []);
    FeedPairs(c, input, 0);
    PrependNothing(Feed(c, [], Pairs(c, input, 0)));
  }

  // ---- the whole input leaves the buffer full ------------------------------------------------

  /** The last record is a CSV record of maximal size whose CR ends the input. */
  predicate EndsInFullCr(c: Config, records: seq<Record>) {
    records != [] && |records[|records| - 1].payload| == c.maxRecord && records[|records| - 1].separator == [CR]
  }

  lemma {:induction false} FullExactly(c: Config, p: Bytes, inputSeen: bool, emitted: bool)
    requires c.maxRecord >= 1 && Accepted(Finish(c, Drain(c, p, false), inputSeen, emitted))
    ensures Full(c, p) <==> EndsInFullCr(c, Split(c, p))
    decreases |p|
  {
    hide NextLine, NextCsv, SplitLines, SplitCsv, Close;
    if p == [] {
      EmptyWaits(c);
      NothingSplit(c);
    } else {
      FirstRecord(c, p);
      var r := Split(c, p)[0];
      var n := |r.payload| + |r.separator|;
      var s := Next(c, p, false);
      if s.Wait? {
        NothingSplit(c);
        FullHere(c, p, inputSeen, emitted);
      } else {
        var records := if s.Emit? then [s.record] else [];
        DrainStep(c, p, false);
        FinishOfPrepend(c, records, Drain(c, p[n..], false), inputSeen, emitted);
        FullExactly(c, p[n..], inputSeen, emitted || records != []);
        if Split(c, p[n..]) == [] {
          LastIsDecided(c, p);
        } else {
          assert Split(c, p)[|Split(c, p)| - 1] == Split(c, p[n..])[|Split(c, p[n..])| - 1];
        }
      }
    }
  }

  lemma {:induction false} NothingSplit(c: Config)
    ensures Split(c, []) == []
  {
  }

  lemma {:induction false} SplitNothing(c: Config, p: Bytes)
    requires Split(c, p) == []
    ensures p == []
  {
  }

  /** A CR at the end of the buffer is not decided, so a decided record does not end there. */
  lemma {:induction false} LastIsDecided(c: Config, p: Bytes)
    requires p != [] && !Next(c, p, false).Wait? && |Split(c, p)| == 1
    ensures Split(c, p)[0].separator != [CR] || Next(c, p, false).Fail?
  {
    hide NextLine, NextCsv, SplitLines, SplitCsv, FirstOffence;
    if c.format.Line? {
      LineEndsInLf(p);
    } else {
      SplitCsvCons(p);
      NextMeans(c, p, false);
      var r := SplitCsv(p)[0];
      SplitNothing(c, p[|r.payload| + |r.separator|..]);
    }
  }

  lemma {:induction false} LineEndsInLf(p: Bytes)
    requires p != []
    ensures SplitLines(p)[0].separator != [CR]
  {
    hide SplitLines;
    SplitLinesCons(p);
  }

  /** A buffer that waits and closes without error is full exactly when its record is a maximal one before CR. */
  lemma {:induction false} FullHere(c: Config, p: Bytes, inputSeen: bool, emitted: bool)
    requires c.maxRecord >= 1 && p != [] && Next(c, p, false).Wait? && Accepted(Close(c, p, inputSeen, emitted))
    ensures |p| > c.maxRecord <==> |Split(c, p)[0].payload| == c.maxRecord && Split(c, p)[0].separator == [CR]
  {
    hide NextLine, NextCsv, SplitLines, SplitCsv, FirstOffence, CsvScan;
    if c.format.Line? {
      LineEndsInLf(p);
    } else {
      SplitCsvCons(p);
      NextMeans(c, p, false);
      NextMeans(c, p, true);
    }
  }
}
