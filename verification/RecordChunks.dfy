/**
 When two ways of cutting the same input give the decoder different outcomes. The first fragile record has
 to be decided by the `maxRecord` bytes that may wait in the buffer together with one more chunk.
 */
module RecordChunks {
  import opened Common
  import opened Streams
  import opened RecordSpec
  import opened RecordTheorems
  import opened RecordMeaning
  import opened RecordFragile
  import opened RecordCuts

  /** `chunks` are the bytes of `input` in pieces of at most `n` bytes. */
  predicate CutInto(chunks: seq<Bytes>, input: Bytes, n: nat) {
    Flatten(chunks) == input && forall i :: 0 <= i < |chunks| ==> |chunks[i]| <= n
  }

  // ---- seen from the buffer ------------------------------------------------------------------

  /** The most of a record that a full buffer and a chunk of `n` bytes can show at once. */
  function Sight(c: Config, p: Bytes, n: nat): Bytes {
    if |p| <= c.maxRecord + n then p else p[..c.maxRecord + n]
  }

  /** The first fragile record of `p` is decided within sight. */
  predicate Near(c: Config, p: Bytes, n: nat)
    decreases |p|
  {
    if FragileHere(c, p) then !Next(c, Sight(c, p, n), false).Wait?
    else
      match Next(c, p, false)
      case Emit(_, k) => Near(c, p[k..], n)
      case Skip(k) => Near(c, p[k..], n)
      case _ => false
  }

  /** There is a fragile record, and the first one is not decided within sight. */
  predicate Far(c: Config, p: Bytes, n: nat)
    decreases |p|
  {
    if FragileHere(c, p) then Next(c, Sight(c, p, n), false).Wait?
    else
      match Next(c, p, false)
      case Emit(_, k) => Far(c, p[k..], n)
      case Skip(k) => Far(c, p[k..], n)
      case _ => false
  }

  /** The records before the first fragile one. */
  function Before(c: Config, p: Bytes): seq<Record>
    decreases |p|
  {
    if FragileHere(c, p) then []
    else
      match Next(c, p, false)
      case Emit(record, k) => [record] + Before(c, p[k..])
      case Skip(k) => Before(c, p[k..])
      case _ => []
  }

  lemma {:induction false} NearOrFar(c: Config, p: Bytes, n: nat)
    ensures Fragile(c, p) <==> Near(c, p, n) || Far(c, p, n)
    decreases |p|
  {
    hide NextLine, NextCsv, OverflowsAnyway;
    match Next(c, p, false)
    case Emit(_, k) => NearOrFar(c, p[k..], n);
    case Skip(k) => NearOrFar(c, p[k..], n);
    case _ =>
  }

  // ---- a near record is cut in two ways --------------------------------------------------------

  lemma {:induction false} Unfragile(c: Config, x: Bytes)
    requires !FragileHere(c, x) && (Next(c, x, false).Emit? || Next(c, x, false).Skip?) && |x| > c.maxRecord
    ensures !Next(c, x[..c.maxRecord + 1], false).Wait?
  {
    hide NextLine, NextCsv;
  }

  lemma {:induction false} SinglesOfNothing(c: Config, p: Bytes)
    ensures Feed(c, p, Singles([])) == Fed([], Ok(p))
  {
  }

  /**
   Byte by byte, a fragile input fails at its first fragile record, which is in the buffer up to the limit
   one byte before.
   */
  lemma {:induction false} SinglesReach(c: Config, x: Bytes, n: nat) returns (off: nat)
    requires c.maxRecord >= 1 && Fragile(c, x)
    ensures off + c.maxRecord < |x| && FragileHere(c, x[off..])
    ensures Near(c, x, n) <==> Near(c, x[off..], n)
    ensures Feed(c, [], Singles(x)) == Fed(Before(c, x), Err(TooLarge))
    ensures Feed(c, [], Singles(x[..off + c.maxRecord])) == Fed(Before(c, x), Ok(x[off..off + c.maxRecord]))
    decreases |x|
  {
    hide NextLine, NextCsv, OverflowsAnyway, Feed, Singles, Sight;
    var m := c.maxRecord;
    if FragileHere(c, x) {
      off := 0;
      assert x[0..] == x;
      FragileOverflows(c, x);
      var head := x[..m];
      assert x[..m + 1][..m] == head && head[..m] == head && head[m..] == [] && [] + head == head;
      WaitShrinks(c, x[..m + 1], m);
      Accumulate(c, [], head, m);
      SinglesOfNothing(c, head);
      assert x[0..m] == head;
    } else {
      var s := Next(c, x, false);
      var k := s.consumed;
      var records := if s.Emit? then [s.record] else [];
      NextConsumes(c, x);
      if |x| > m { Unfragile(c, x); }
      SinglesStep(c, x);
      var off' := SinglesReach(c, x[k..], n);
      off := k + off';
      assert x[k..][off'..] == x[off..];
      StepTo(c, x, off + m);
      assert x[..off + m][k..] == x[k..][..off' + m];
      assert x[k..][off'..off' + m] == x[off..off + m];
    }
  }

  /** The same step on a prefix that reaches beyond the record. */
  lemma {:induction false} StepTo(c: Config, x: Bytes, q: nat)
    requires !FragileHere(c, x) && (Next(c, x, false).Emit? || Next(c, x, false).Skip?)
    requires Next(c, x, false).consumed < q <= |x|
    ensures var s := Next(c, x, false);
            var records := if s.Emit? then [s.record] else [];
            Feed(c, [], Singles(x[..q])) == Prepend(records, Feed(c, [], Singles(x[..q][s.consumed..])))
  {
    hide NextLine, NextCsv, OverflowsAnyway, Feed, Singles;
    var y, k, m := x[..q], Next(c, x, false).consumed, c.maxRecord;
    DecidedSoon(c, x);
    assert x == x[..k + 1] + x[k + 1..] && y == x[..k + 1] + x[k + 1..q];
    NextExtends(c, x[..k + 1], x[k + 1..]);
    NextExtends(c, x[..k + 1], x[k + 1..q]);
    if |y| > m {
      Unfragile(c, x);
      assert y[..m + 1] == x[..m + 1];
    }
    SinglesStep(c, y);
  }

  lemma {:induction false} FeedOn(c: Config, p: Bytes, chunks: seq<Bytes>, more: seq<Bytes>)
    requires Feed(c, p, chunks).rest.Ok?
    ensures var f := Feed(c, p, chunks); Feed(c, p, chunks + more) == Prepend(f.records, Feed(c, f.rest.value, more))
    decreases |chunks|
  {
    hide Drain;
    if chunks == [] {
      assert chunks + more == more;
      PrependNothing(Feed(c, p, more));
    } else {
      var first := Drain(c, p + chunks[0], true);
      assert (chunks + more)[0] == chunks[0] && (chunks + more)[1..] == chunks[1..] + more;
      FeedOn(c, first.rest.value, chunks[1..], more);
      var rest := Feed(c, first.rest.value, chunks[1..]);
      PrependTwice(first.records, rest.records, Feed(c, rest.rest.value, more));
    }
  }

  /** A decided record goes out, or its error stops the feed. */
  lemma {:induction false} DecidedShows(c: Config, p: Bytes, chunk: Bytes, more: seq<Bytes>)
    requires Next(c, p + chunk, false).Emit?
             || (Next(c, p + chunk, false).Fail? && Next(c, p + chunk, false) != Fail(TooLarge))
    ensures var f := Feed(c, p, [chunk] + more); f.records != [] || (f.rest.Err? && f.rest.error != TooLarge)
  {
    hide NextLine, NextCsv, Feed;
    FeedCons(c, p, chunk, more);
    if Next(c, p + chunk, false).Emit? { DrainStep(c, p + chunk, true); }
  }

  /** Bytes up to the limit one by one, then the rest of the sight at once, then bytes again. */
  function Jump(c: Config, x: Bytes, off: nat, n: nat): seq<Bytes>
    requires off + c.maxRecord < |x|
  {
    var from, to := off + c.maxRecord, off + |Sight(c, x[off..], n)|;
    if to < from then [] else Singles(x[..from]) + ([x[from..to]] + Singles(x[to..]))
  }

  lemma {:induction false} SinglesCut(x: Bytes, n: nat)
    requires n >= 1
    ensures CutInto(Singles(x), x, n)
  {
    FlattenSingles(x);
    SinglesShort(x);
  }

  lemma {:induction false} SinglesShort(x: Bytes)
    ensures forall i :: 0 <= i < |Singles(x)| ==> |Singles(x)[i]| == 1
  {
    if x != [] { SinglesShort(x[1..]); }
  }

  lemma {:induction false} JumpCut(c: Config, x: Bytes, off: nat, n: nat)
    requires n >= 1 && off + c.maxRecord < |x|
    ensures CutInto(Jump(c, x, off, n), x, n)
  {
    hide Singles, Flatten;
    var from, to := off + c.maxRecord, off + |Sight(c, x[off..], n)|;
    SinglesCut(x[..from], n);
    SinglesCut(x[to..], n);
    var tail := Singles(x[to..]);
    FlattenTogether([x[from..to]], tail);
    FlattenOne(x[from..to]);
    FlattenTogether(Singles(x[..from]), [x[from..to]] + tail);
    assert x == x[..from] + (x[from..to] + x[to..]);
  }

  lemma {:induction false} FlattenOne(piece: Bytes)
    ensures Flatten([piece]) == piece
  {
    assert [piece][1..] == [];
  }

  lemma {:induction false} NearDiffers(c: Config, x: Bytes, n: nat) returns (a: seq<Bytes>, b: seq<Bytes>)
    requires c.maxRecord >= 1 && n >= 1 && Near(c, x, n)
    ensures CutInto(a, x, n) && CutInto(b, x, n) && RunAll(c, a) != RunAll(c, b)
  {
    hide Near, Fragile, Feed, Singles, Flatten, FragileHere, Close, CutInto, Next;
    NearOrFar(c, x, n);
    var off := SinglesReach(c, x, n);
    a, b := Singles(x), Jump(c, x, off, n);
    SinglesCut(x, n);
    JumpCut(c, x, off, n);
    var y, m := x[off..], c.maxRecord;
    var to := off + |Sight(c, y, n)|;
    NearIsDecided(c, y, n);
    assert y[..m] == x[off..off + m] && y[m..to - off] == x[off + m..to] && y[..m] + y[m..to - off] == Sight(c, y, n);
    FeedOn(c, [], Singles(x[..off + m]), [x[off + m..to]] + Singles(x[to..]));
    DecidedShows(c, x[off..off + m], x[off + m..to], Singles(x[to..]));
    OutcomesDiffer(c, Before(c, x), Feed(c, x[off..off + m], [x[off + m..to]] + Singles(x[to..])), x != []);
    assert Flatten(a) == Flatten(b) == x by { CutFlattens(a, x, n); CutFlattens(b, x, n); }
  }

  lemma {:induction false} CutFlattens(chunks: seq<Bytes>, input: Bytes, n: nat)
    requires CutInto(chunks, input, n)
    ensures Flatten(chunks) == input
  {
  }

  lemma {:induction false} NearIsDecided(c: Config, y: Bytes, n: nat)
    requires c.maxRecord >= 1 && FragileHere(c, y) && Near(c, y, n) && n >= 1
    ensures var s := Next(c, Sight(c, y, n), false); s.Emit? || (s.Fail? && s != Fail(TooLarge))
    ensures c.maxRecord < |Sight(c, y, n)| <= |y| && Sight(c, y, n) == y[..|Sight(c, y, n)|]
  {
    hide NextLine, NextCsv;
    var sight := Sight(c, y, n);
    assert y[..|y|] == y && y == sight + y[|sight|..];
    NextExtends(c, sight, y[|sight|..]);
    assert y[..c.maxRecord + 1][..2] == y[..2];
    WaitShrinks(c, y[..c.maxRecord + 1], 2);
    if Next(c, y, false).Skip? { SkipIsShort(c, y, false); }
  }

  lemma {:induction false} OutcomesDiffer(c: Config, before: seq<Record>, f: Fed, inputSeen: bool)
    requires f.records != [] || (f.rest.Err? && f.rest.error != TooLarge)
    ensures Finish(c, Prepend(before, f), inputSeen, false) != Finish(c, Fed(before, Err(TooLarge)), inputSeen, false)
  {
  }

  // ---- a far record fails in every cut ---------------------------------------------------------

  /** Draining a prefix within sight takes out only records before the first fragile one. */
  lemma {:induction false} DrainFar(c: Config, head: Bytes, tail: Bytes, n: nat)
    requires |head| <= c.maxRecord + n && Far(c, head + tail, n)
    ensures var d := Drain(c, head, false);
            && d.rest.Ok? && Far(c, d.rest.value + tail, n)
            && Before(c, head + tail) == d.records + Before(c, d.rest.value + tail)
    decreases |head|
  {
    hide NextLine, NextCsv, OverflowsAnyway;
    var s := Next(c, head, false);
    var x := head + tail;
    if s.Wait? {
      assert [] + Before(c, x) == Before(c, x);
    } else {
      NextExtends(c, head, tail);
      if FragileHere(c, x) {
        var sight := Sight(c, x, n);
        assert sight == head + sight[|head|..];
        NextExtends(c, head, sight[|head|..]);
        assert false;
      }
      var k := s.consumed;
      NextConsumes(c, head);
      assert x[k..] == head[k..] + tail;
      DrainFar(c, head[k..], tail, n);
      DrainStep(c, head, false);
      if s.Emit? {
        var d := Drain(c, head[k..], false);
        assert [s.record] + (d.records + Before(c, d.rest.value + tail)) ==
          [s.record] + d.records + Before(c, d.rest.value + tail);
      }
    }
  }

  /** A buffer over the limit holds the first fragile record. */
  lemma {:induction false} FullIsFragile(c: Config, r: Bytes, tail: Bytes, n: nat)
    requires Next(c, r, false).Wait? && |r| > c.maxRecord && Far(c, r + tail, n)
    ensures Before(c, r + tail) == []
  {
    hide NextLine, NextCsv;
    assert (r + tail)[..c.maxRecord + 1] == r[..c.maxRecord + 1];
    WaitShrinks(c, r, c.maxRecord + 1);
  }

  lemma {:induction false} FarIsLong(c: Config, p: Bytes, n: nat)
    requires Next(c, p, false).Wait? && |p| <= c.maxRecord
    ensures !Far(c, p, n)
  {
    hide NextLine, NextCsv;
  }

  lemma {:induction false} FarFeeds(c: Config, p: Bytes, chunks: seq<Bytes>, n: nat)
    requires Next(c, p, false).Wait? && |p| <= c.maxRecord && Far(c, p + Flatten(chunks), n)
    requires forall i :: 0 <= i < |chunks| ==> |chunks[i]| <= n
    ensures Feed(c, p, chunks) == Fed(Before(c, p + Flatten(chunks)), Err(TooLarge))
    decreases |chunks|
  {
    hide Next, Drain, Far, Before;
    if chunks == [] {
      assert p + Flatten(chunks) == p;
      FarIsLong(c, p, n);
    } else {
      var head, tail := p + chunks[0], Flatten(chunks[1..]);
      assert p + Flatten(chunks) == head + tail;
      DrainFar(c, head, tail, n);
      LimitedDrain(c, head);
      DrainedWaits(c, head, false);
      var d := Drain(c, head, false);
      if |d.rest.value| > c.maxRecord {
        FullIsFragile(c, d.rest.value, tail, n);
        assert d.records + [] == d.records;
      } else {
        FarFeeds(c, d.rest.value, chunks[1..], n);
      }
    }
  }

  lemma {:induction false} FarRuns(c: Config, chunks: seq<Bytes>, n: nat)
    requires Far(c, Flatten(chunks), n) && forall i :: 0 <= i < |chunks| ==> |chunks[i]| <= n
    ensures RunAll(c, chunks) == Outcome(Before(c, Flatten(chunks)), Some(TooLarge))
  {
    hide Feed, Far, Before, Flatten, Next;
    EmptyWaits(c);
    assert [] + Flatten(chunks) == Flatten(chunks);
    FarFeeds(c, [], chunks, n);
  }

  ghost predicate CutsDiffer(c: Config, input: Bytes, n: nat) {
    exists a, b :: CutInto(a, input, n) && CutInto(b, input, n) && RunAll(c, a) != RunAll(c, b)
  }

  lemma {:induction false} CutsDifferNear(c: Config, input: Bytes, n: nat)
    requires c.maxRecord >= 1 && n >= 1
    ensures CutsDiffer(c, input, n) <==> Near(c, input, n)
  {
    hide Near, Far, RunAll, Fragile, Before;
    if Near(c, input, n) {
      var a, b := NearDiffers(c, input, n);
    } else {
      NearOrFar(c, input, n);
      forall a, b | CutInto(a, input, n) && CutInto(b, input, n) ensures RunAll(c, a) == RunAll(c, b) {
        if Far(c, input, n) {
          FarRuns(c, a, n);
          FarRuns(c, b, n);
        } else {
          PartitionIndependent(c, a);
          PartitionIndependent(c, b);
        }
      }
    }
  }

  // ---- seen from the bytes ---------------------------------------------------------------------

  /** The index of the first fragile record, all earlier ones passing; the length if there is none. */
  function FirstFragile(c: Config, records: seq<Record>): (i: nat)
    ensures i <= |records|
    ensures i < |records| ==> FragileRecord(c, records[i]) && forall j :: 0 <= j < i ==> Passes(c, records[j])
    ensures i < |records| <==> SomeFragile(c, records)
  {
    if records == [] || FragileRecord(c, records[0]) then 0
    else if Passes(c, records[0]) then 1 + FirstFragile(c, records[1..])
    else |records|
  }

  /**
   The first `k` bytes of a record and what follows it decide it: an offence is among them, or its whole
   separator, and after a lone CR one more byte, which is not there when the record is the last.
   */
  predicate Shown(c: Config, r: Record, last: bool, k: nat) {
    if c.format.Line? then |r.payload| + |r.separator| <= k
    else
      || OffenceOf(c, if k < |r.payload| then r.payload[..k] else r.payload).Some?
      || (&& r.separator != [] && !(last && r.separator == [CR])
          && |r.payload| + (if r.separator[0] == LF then 1 else 2) <= k)
  }

  lemma {:induction false} LineShown(c: Config, p: Bytes, n: nat)
    requires c.format.Line? && p != [] && FragileHere(c, p) && n >= 1
    ensures !Next(c, Sight(c, p, n), false).Wait? <==> Shown(c, SplitLines(p)[0], |SplitLines(p)| == 1, c.maxRecord + n)
  {
    hide SplitLines;
    LineFragileHere(c, p);
    SplitLinesCons(p);
    assert p[..|p|] == p;
    FirstLfOfPrefix(p, |Sight(c, p, n)|);
    if FirstLf(p) < |p| { LineSize(p, FirstLf(p)); }
  }

  lemma {:induction false} CsvShown(c: Config, p: Bytes, n: nat)
    requires c.format.Csv? && FragileHere(c, p) && n >= 1 && c.maxRecord >= 1
    ensures p != []
    ensures !Next(c, Sight(c, p, n), false).Wait? <==> Shown(c, SplitCsv(p)[0], |SplitCsv(p)| == 1, c.maxRecord + n)
  {
    hide SplitCsv, OffenceOf, NextCsv, OverflowsAnyway;
    var k := |Sight(c, p, n)|;
    assert p[..|p|] == p && Sight(c, p, n) == p[..k];
    SplitCsvCons(p);
    WaitsMeans(c, p, k);
    var r := SplitCsv(p)[0];
    LastMeans(p);
    if k < |r.payload| {
      assert k == c.maxRecord + n;
    } else {
      assert r.payload[..|r.payload|] == r.payload;
    }
    SeparatorIs(p);
    assert r.separator == [] ==> |r.payload| == |p|;
    assert k == |p| || k == c.maxRecord + n < |p|;
  }

  lemma {:induction false} LastMeans(p: Bytes)
    requires p != []
    ensures var r := SplitCsv(p)[0]; |SplitCsv(p)| == 1 <==> |r.payload| + |r.separator| == |p|
  {
    hide SplitCsv;
    SplitCsvCons(p);
    var r := SplitCsv(p)[0];
    var rest := p[|r.payload| + |r.separator|..];
    if rest != [] { SplitCsvCons(rest); } else { NoCsv(Config(Csv, 1, 1, _ => true, _ => None), true); }
  }

  lemma {:induction false} SeparatorIs(p: Bytes)
    requires p != []
    ensures var s := SplitCsv(p)[0].separator; s == [] || s == [LF] || s == [CR] || s == [CR, LF]
  {
    hide SplitCsv;
    FirstIs(p);
  }

  lemma {:induction false} NearExactly(c: Config, input: Bytes, n: nat)
    requires c.maxRecord >= 1 && n >= 1
    ensures var rs := Split(c, input);
            var i := FirstFragile(c, rs);
            Near(c, input, n) <==> i < |rs| && Shown(c, rs[i], i == |rs| - 1, c.maxRecord + n)
    decreases |input|
  {
    hide NextLine, NextCsv, FragileRecord, Passes, OverflowsAnyway, SplitLines, SplitCsv, Shown, Sight, FragileHere;
    if input == [] {
      NothingNear(c, n);
    } else {
      FirstRecord(c, input);
      var rs := Split(c, input);
      var r := rs[0];
      var rest := input[|r.payload| + |r.separator|..];
      assert rs[1..] == Split(c, rest);
      if FragileHere(c, input) {
        if c.format.Line? { LineShown(c, input, n); } else { CsvShown(c, input, n); }
      } else {
        NearExactly(c, rest, n);
        if Next(c, input, false).Wait? { NothingNear(c, n); }
      }
    }
  }

  lemma {:induction false} NothingNear(c: Config, n: nat)
    ensures !Near(c, [], n) && Split(c, []) == []
  {
  }

  /**
   With chunks of at most `n` bytes, two cuts of an input differ in their outcome exactly when it holds a
   fragile record and the first one is shown by its first `maxRecord + n` bytes.
   */
  lemma {:induction false} CutsDifferExactly(c: Config, input: Bytes, n: nat)
    requires c.maxRecord >= 1 && n >= 1
    ensures var rs := Split(c, input);
            var i := FirstFragile(c, rs);
            CutsDiffer(c, input, n) <==> i < |rs| && Shown(c, rs[i], i == |rs| - 1, c.maxRecord + n)
  {
    hide CutsDiffer, Near, FirstFragile, Shown, Split;
    CutsDifferNear(c, input, n);
    NearExactly(c, input, n);
  }

  // ---- chunks of any size ----------------------------------------------------------------------

  /** Record `i` is the last and waits for a byte after its CR that never comes. */
  predicate Stuck(c: Config, records: seq<Record>, i: nat)
    requires i < |records|
  {
    i == |records| - 1 && records[i].separator == [CR] && OffenceOf(c, records[i].payload).None?
  }

  lemma {:induction false} PieceWithin(chunks: seq<Bytes>, i: nat)
    requires i < |chunks|
    ensures |chunks[i]| <= |Flatten(chunks)|
  {
    if i > 0 { PieceWithin(chunks[1..], i - 1); }
  }

  lemma {:induction false} RecordWithin(c: Config, input: Bytes, i: nat)
    requires c.maxRecord >= 1 && i < |Split(c, input)|
    ensures |Split(c, input)[i].payload| + |Split(c, input)[i].separator| <= |input|
    decreases |input|
  {
    hide Split, FragileHere, FragileRecord, Passes, Next;
    if input == [] {
      NothingSplit(c);
    } else {
      FirstRecord(c, input);
      var r := Split(c, input)[0];
      if i > 0 { RecordWithin(c, input[|r.payload| + |r.separator|..], i - 1); }
    }
  }

  /** A fragile record is shown by enough bytes unless it is stuck. */
  lemma {:induction false} ShownInFull(c: Config, records: seq<Record>, i: nat, k: nat)
    requires i < |records| && FragileRecord(c, records[i])
    requires |records[i].payload| + |records[i].separator| <= k && |records[i].payload| + 2 <= k
    ensures Shown(c, records[i], i == |records| - 1, k) <==> !Stuck(c, records, i)
  {
    hide OffenceOf, CsvFault;
    OpenTooLong(c, records[i]);
  }

  ghost predicate SomeCutsDiffer(c: Config, input: Bytes) {
    exists a, b :: Flatten(a) == input && Flatten(b) == input && RunAll(c, a) != RunAll(c, b)
  }

  lemma {:induction false} AnySize(c: Config, input: Bytes)
    ensures SomeCutsDiffer(c, input) <==> CutsDiffer(c, input, |input| + 1)
  {
    hide RunAll, Flatten;
    if a, b :| Flatten(a) == input && Flatten(b) == input && RunAll(c, a) != RunAll(c, b) {
      forall i | 0 <= i < |a| ensures |a[i]| <= |input| { PieceWithin(a, i); }
      forall i | 0 <= i < |b| ensures |b[i]| <= |input| { PieceWithin(b, i); }
      assert CutInto(a, input, |input| + 1) && CutInto(b, input, |input| + 1);
    }
    if a, b :| CutInto(a, input, |input| + 1) && CutInto(b, input, |input| + 1) && RunAll(c, a) != RunAll(c, b) {
      assert Flatten(a) == input && Flatten(b) == input;
    }
  }

  /**
   Two cuts of an input, into chunks of any size, differ in their outcome exactly when it holds a fragile
   record and the first one is not stuck at the end of the input.
   */
  lemma {:induction false} SomeCutsDifferExactly(c: Config, input: Bytes)
    requires c.maxRecord >= 1
    ensures var rs := Split(c, input);
            var i := FirstFragile(c, rs);
            SomeCutsDiffer(c, input) <==> i < |rs| && !Stuck(c, rs, i)
  {
    hide SomeCutsDiffer, CutsDiffer, Shown, Stuck, Split, FragileRecord;
    var rs := Split(c, input);
    var i := FirstFragile(c, rs);
    AnySize(c, input);
    CutsDifferExactly(c, input, |input| + 1);
    if i < |rs| {
      RecordWithin(c, input, i);
      ShownInFull(c, rs, i, c.maxRecord + (|input| + 1));
    }
  }

  /** An input whose first fragile record is stuck fails in every cut, and in every cut the same way. */
  lemma {:induction false} StuckFails(c: Config, chunks: seq<Bytes>)
    requires c.maxRecord >= 1
    requires var rs := Split(c, Flatten(chunks));
             var i := FirstFragile(c, rs);
             i < |rs| && Stuck(c, rs, i)
    ensures RunAll(c, chunks) == RunAll(c, Singles(Flatten(chunks))) && RunAll(c, chunks).error == Some(TooLarge)
  {
    hide RunAll, Stuck, Split, FirstFragile, FragileRecord, Passes;
    var input := Flatten(chunks);
    SomeCutsDifferExactly(c, input);
    FlattenSingles(input);
    SinglesFail(c, input);
  }

  // ---- two inputs that end in CR ---------------------------------------------------------------

  lemma {:induction false} OneByteAndCr(c: Config)
    requires c.format.Csv?
    ensures Split(c, [97, CR]) == [Record([97], [CR])] + [] && OffenceOf(c, [97]).None?
  {
    var input := [97, CR];
    assert input[..0] == [] && input[..1] == [97] && [97][..0] == [];
    assert !Break(input, 0) && Break(input, 1);
    assert FirstBreak(input, 0) == 1;
    assert SeparatorEnd(input, 1) == 2 && input[1..2] == [CR] && input[2..] == [];
    assert SplitCsv([]) == [];
    assert Offence(c, [97], 0).None?;
  }

  /** One byte and CR as CSV under a limit of one byte: accepted at once, too large in every cut. */
  lemma {:induction false} FullCrIsStuck(chunks: seq<Bytes>)
    requires Flatten(chunks) == [97, CR]
    ensures var c := Config(Csv, 1, 1, _ => true, _ => None);
            Whole(c, [97, CR]) == Outcome([Record([97], [CR])], None) && RunAll(c, chunks).error == Some(TooLarge)
  {
    hide Whole, RunAll, SplitCsv, JudgeCsv, SomeFragile;
    var c, r := Config(Csv, 1, 1, _ => true, _ => None), Record([97], [CR]);
    OneByteAndCr(c);
    WholeJudgesCsv(c, [97, CR]);
    JudgeCsvCons(c, r, [], false);
    NoCsv(c, true);
    StuckFails(c, chunks);
  }

  lemma {:induction false} StrayScans(c: Config)
    requires c.format.Csv?
    ensures CsvRecordScan(c, [97, 98, QUOTE, QUOTE, CR]) == Bad(BadCsv)
    ensures CsvRecordScan(c, [97, 98]) == Open(Unquoted, 1)
  {
    var input, head := [97, 98, QUOTE, QUOTE, CR], [97, 98];
    assert CsvScan(c, input, 2, Unquoted, 1) == Bad(BadCsv);
    assert CsvScan(c, input, 1, Unquoted, 1) == Bad(BadCsv);
    assert CsvScan(c, head, 2, Unquoted, 1) == Open(Unquoted, 1);
    assert CsvScan(c, head, 1, Unquoted, 1) == Open(Unquoted, 1);
  }

  /** The CSV text `ab""` and CR under that limit: also a last record before CR, and yet two cuts differ. */
  lemma {:induction false} StrayQuotesDiffer()
    ensures var c, input := Config(Csv, 1, 1, _ => true, _ => None), [97, 98, QUOTE, QUOTE, CR];
            && Split(c, input) == [Record([97, 98, QUOTE, QUOTE], [CR])]
            && RunAll(c, [input]).error == Some(BadCsv) && RunAll(c, Singles(input)).error == Some(TooLarge)
  {
    hide CsvScan, Split, SomeFragile, Singles;
    var c, input := Config(Csv, 1, 1, _ => true, _ => None), [97, 98, QUOTE, QUOTE, CR];
    StraySplits(c);
    StrayScans(c);
    assert input[..2] == [97, 98];
    assert Fragile(c, input);
    FragileExactly(c, input);
    SinglesFail(c, input);
    FeedCons(c, [], input, []);
    assert [input] + [] == [input] && [] + input == input;
  }

  lemma {:induction false} StraySplits(c: Config)
    requires c.format.Csv?
    ensures Split(c, [97, 98, QUOTE, QUOTE, CR]) == [Record([97, 98, QUOTE, QUOTE], [CR])]
  {
    var input := [97, 98, QUOTE, QUOTE, CR];
    assert input[..0] == [];
    OutsideNext(input, 0);
    OutsideNext(input, 1);
    OutsideNext(input, 2);
    OutsideNext(input, 3);
    assert Break(input, 4);
    assert FirstBreak(input, 4) == 4;
    assert FirstBreak(input, 3) == 4;
    assert FirstBreak(input, 2) == 4;
    assert FirstBreak(input, 1) == 4;
    assert FirstBreak(input, 0) == 4;
    assert SeparatorEnd(input, 4) == 5 && input[..4] == [97, 98, QUOTE, QUOTE] && input[4..5] == [CR]
      && input[5..] == [];
    assert SplitCsv([]) == [];
  }
}
