/**
 The inputs that some chunking reads differently from the one-shot reading, described by their bytes: some
 record, all earlier ones passing, is not refused as too large although its first `maxRecord + 1` bytes
 leave it undecided.
 */
module RecordFragile {
  import opened Common
  import opened Streams
  import opened RecordSpec
  import opened RecordTheorems
  import opened RecordMeaning

  function Split(c: Config, input: Bytes): seq<Record> {
    if c.format.Line? then SplitLines(input) else SplitCsv(input)
  }

  function Fault(c: Config, r: Record): Option<Error> {
    if c.format.Line? then LineFault(c, r) else CsvFault(c, r)
  }

  /** Taken out, or passed over as an empty CSV line. */
  predicate Passes(c: Config, r: Record) {
    Fault(c, r).None? || (c.format.Csv? && r.payload == [])
  }

  /**
   Lines: a payload of exactly `maxRecord` bytes before CRLF. CSV: such a payload before CR or CRLF, or a
   longer one; in both cases without an offence so far.
   */
  predicate Undecided(c: Config, r: Record) {
    var size := |r.payload|;
    if c.format.Line? then size == c.maxRecord && r.separator == [CR, LF]
    else
      && (size > c.maxRecord || (size == c.maxRecord && r.separator != [] && r.separator[0] == CR))
      && OffenceOf(c, if size > c.maxRecord then r.payload[..c.maxRecord + 1] else r.payload).None?
  }

  predicate FragileRecord(c: Config, r: Record) {
    Undecided(c, r) && Fault(c, r) != Some(TooLarge)
  }

  /** Some record is fragile and all before it pass. */
  predicate SomeFragile(c: Config, records: seq<Record>) {
    && records != []
    && (FragileRecord(c, records[0]) || (Passes(c, records[0]) && SomeFragile(c, records[1..])))
  }

  // ---- the first record --------------------------------------------------------------------

  predicate FragileHere(c: Config, p: Bytes) {
    |p| > c.maxRecord && Next(c, p[..c.maxRecord + 1], false).Wait? && !OverflowsAnyway(c, p)
  }

  lemma {:induction false} FirstLfOfPrefix(p: Bytes, n: nat)
    requires n <= |p|
    ensures FirstLf(p[..n]) == if FirstLf(p) < n then FirstLf(p) else n
  {
    FirstLfIsFirst(p[..n], if FirstLf(p) < n then FirstLf(p) else n);
  }

  lemma {:induction false} LineFragileHere(c: Config, p: Bytes)
    requires c.format.Line? && p != []
    ensures FragileHere(c, p) <==> FragileRecord(c, SplitLines(p)[0])
  {
    hide SplitLines;
    var end := FirstLf(p);
    SplitLinesCons(p);
    if end < |p| { LineSize(p, end); }
    if |p| > c.maxRecord { FirstLfOfPrefix(p, c.maxRecord + 1); }
    if end == c.maxRecord + 1 && end < |p| && p[c.maxRecord] == CR {
      assert p[c.maxRecord..end + 1] == [CR, LF];
    }
  }

  lemma {:induction false} BreakOfPrefix(p: Bytes, n: nat, i: nat)
    requires i < n <= |p|
    ensures Break(p[..n], i) <==> Break(p, i)
  {
    assert p[..n][..i] == p[..i];
  }

  lemma {:induction false} FirstBreakOfPrefix(p: Bytes, n: nat)
    requires n <= |p|
    ensures FirstBreak(p[..n], 0) == if FirstBreak(p, 0) < n then FirstBreak(p, 0) else n
  {
    hide Break;
    var a, b := FirstBreak(p[..n], 0), FirstBreak(p, 0);
    if a < n { BreakOfPrefix(p, n, a); }
    if b < n { BreakOfPrefix(p, n, b); }
  }

  /** The first record, once its end is known. */
  lemma {:induction false} FirstIs(p: Bytes)
    requires p != []
    ensures var end := FirstBreak(p, 0);
            SplitCsv(p)[0] == if end == |p| then Record(p, []) else Record(p[..end], p[end..SeparatorEnd(p, end)])
  {
    hide FirstBreak;
  }

  /** The first record of a prefix of the input. */
  lemma {:induction false} SplitPrefix(p: Bytes, n: nat)
    requires 0 < n <= |p|
    ensures var r, head := SplitCsv(p)[0], SplitCsv(p[..n])[0];
            if n <= |r.payload| then head == Record(r.payload[..n], [])
            else head.payload == r.payload && r.separator != [] && head.separator == r.separator[..|head.separator|]
                 && |head.separator| == if n == |r.payload| + 1 then 1 else |r.separator|
  {
    hide FirstBreak, SplitCsv;
    FirstBreakOfPrefix(p, n);
    FirstIs(p);
    FirstIs(p[..n]);
    var end := FirstBreak(p, 0);
    if n <= end {
      assert p[..end][..n] == p[..n];
    } else {
      PrefixSeparator(p, n, end);
    }
  }

  lemma {:induction false} PrefixSeparator(p: Bytes, n: nat, end: nat)
    requires end < n <= |p|
    ensures p[..n][..end] == p[..end]
    ensures var all, head := p[end..SeparatorEnd(p, end)], p[..n][end..SeparatorEnd(p[..n], end)];
            all != [] && |head| <= |all| && head == all[..|head|] && |head| == if n == end + 1 then 1 else |all|
  {
    assert p[..n][end] == p[end];
  }

  /** The first `n` bytes leave the first record open. */
  lemma {:induction false} WaitsMeans(c: Config, p: Bytes, n: nat)
    requires c.format.Csv? && 1 < n <= |p|
    ensures var r := SplitCsv(p)[0];
            Next(c, p[..n], false).Wait? <==>
            && (|r.payload| >= n || (|r.payload| == n - 1 && r.separator != [] && r.separator[0] == CR))
            && OffenceOf(c, if |r.payload| >= n then r.payload[..n] else r.payload).None?
  {
    hide SplitCsv, OffenceOf, NextCsv;
    SplitPrefix(p, n);
    SplitCsvCons(p[..n]);
    NextMeans(c, p[..n], false);
    OffenceIsFault(c, SplitCsv(p[..n])[0]);
  }

  lemma {:induction false} OverflowsMeans(c: Config, p: Bytes)
    requires c.format.Csv? && p != [] && SplitCsv(p)[0].payload != []
    ensures OverflowsAnyway(c, p) <==>
            Fault(c, SplitCsv(p)[0]) == Some(TooLarge)
              || (SplitCsv(p)[0].separator == [] && OffenceOf(c, SplitCsv(p)[0].payload).None?)
  {
    hide SplitCsv, OffenceOf, NextCsv, CsvFault;
    SplitCsvCons(p);
    NextMeans(c, p, false);
    NextMeans(c, p, true);
    OffenceIsFault(c, SplitCsv(p)[0]);
  }

  lemma {:induction false} CsvFragileHere(c: Config, p: Bytes)
    requires c.format.Csv? && p != [] && c.maxRecord >= 1
    ensures FragileHere(c, p) <==> FragileRecord(c, SplitCsv(p)[0])
  {
    hide SplitCsv, OffenceOf, Next, OverflowsAnyway, CsvFault;
    SplitCsvCons(p);
    var r := SplitCsv(p)[0];
    if |p| > c.maxRecord {
      WaitsMeans(c, p, c.maxRecord + 1);
      if r.payload != [] { OverflowsMeans(c, p); }
    }
    OpenTooLong(c, r);
  }

  lemma {:induction false} OpenTooLong(c: Config, r: Record)
    ensures r.separator == [] && |r.payload| > c.maxRecord && OffenceOf(c, r.payload).None? ==>
            CsvFault(c, r) == Some(TooLarge)
  {
  }

  // ---- all records -------------------------------------------------------------------------

  lemma {:induction false} SomeFragileCons(c: Config, r: Record, records: seq<Record>)
    ensures SomeFragile(c, [r] + records) <==> FragileRecord(c, r) || (Passes(c, r) && SomeFragile(c, records))
  {
    assert ([r] + records)[1..] == records;
  }

  lemma {:induction false} FragileExactly(c: Config, input: Bytes)
    requires c.maxRecord >= 1
    ensures Fragile(c, input) <==> SomeFragile(c, Split(c, input))
    decreases |input|
  {
    hide NextLine, NextCsv, FragileRecord, SomeFragile, Fault, OverflowsAnyway, SplitLines, SplitCsv;
    if input == [] {
      NothingFragile(c);
    } else {
      FirstRecord(c, input);
      var r := Split(c, input)[0];
      var rest := input[|r.payload| + |r.separator|..];
      SomeFragileCons(c, r, Split(c, rest));
      FragileExactly(c, rest);
      if Next(c, input, false).Wait? { NothingFragile(c); }
    }
  }

  lemma {:induction false} NothingFragile(c: Config)
    ensures !Fragile(c, []) && !SomeFragile(c, Split(c, []))
  {
  }

  lemma {:induction false} FirstRecord(c: Config, p: Bytes)
    requires p != [] && c.maxRecord >= 1
    ensures var r := Split(c, p)[0];
            var n := |r.payload| + |r.separator|;
            && 0 < n <= |p| && Split(c, p) == [r] + Split(c, p[n..])
            && (FragileHere(c, p) <==> FragileRecord(c, r))
            && match Next(c, p, false)
               case Emit(_, m) => m == n && Passes(c, r)
               case Skip(m) => m == n && Passes(c, r)
               case Fail(_) => !Passes(c, r)
               case Wait => p[n..] == []
  {
    hide NextLine, NextCsv, FragileHere, FragileRecord, SplitLines, SplitCsv, FirstOffence, CsvFault;
    if c.format.Line? {
      NextLineMeans(c, p, false);
      LineFragileHere(c, p);
    } else {
      SplitCsvCons(p);
      NextMeans(c, p, false);
      CsvFragileHere(c, p);
      OffenceIsFault(c, SplitCsv(p)[0]);
    }
  }

  // ---- against the one-shot reading ----------------------------------------------------------------

  /** On a fragile input the byte-by-byte run fails, whatever the one-shot reading says. */
  lemma {:induction false} SinglesFail(c: Config, input: Bytes)
    requires c.maxRecord >= 1 && SomeFragile(c, Split(c, input))
    ensures RunAll(c, Singles(input)).error == Some(TooLarge)
  {
    FragileExactly(c, input);
    FlattenSingles(input);
    SinglesDiffer(c, input, input != [], false);
    RunAgreesOrFails(c, Singles(input));
  }

  /** Some chunking differs from the one-shot reading exactly when the split input holds a fragile record. */
  lemma {:induction false} OneShotDiffersOnBytes(c: Config, input: Bytes)
    requires c.maxRecord >= 1
    ensures SomeFragile(c, Split(c, input)) <==>
            exists chunks :: Flatten(chunks) == input && RunAll(c, chunks) != Whole(c, input)
  {
    FragileExactly(c, input);
    OneShotAgreesExactly(c, input);
  }

  lemma {:induction false} ShortIsRobust(c: Config, records: seq<Record>)
    requires c.maxRecord >= 1 && forall r :: r in records ==> |r.payload| < c.maxRecord
    ensures !SomeFragile(c, records)
  {
    if records != [] {
      assert records[0] in records;
      ShortIsRobust(c, records[1..]);
    }
  }

  lemma {:induction false} NonEmptyKeeps(records: seq<Record>, r: Record)
    requires r in records && r.payload != []
    ensures r in NonEmpty(records)
  {
    if r != records[0] { NonEmptyKeeps(records[1..], r); }
  }

  /**
   When the one-shot reading accepts and every payload is strictly shorter than the limit, every way
   of cutting the input gives the same records.
   */
  lemma {:induction false} ShortRecordsAnyChunking(c: Config, chunks: seq<Bytes>)
    requires c.maxRecord >= 1
    requires var o := Whole(c, Flatten(chunks)); Accepted(o) && forall r :: r in o.records ==> |r.payload| < c.maxRecord
    ensures RunAll(c, chunks) == Whole(c, Flatten(chunks))
  {
    hide SomeFragile, Split, Whole, RunAll;
    var input := Flatten(chunks);
    forall r | r in Split(c, input) ensures |r.payload| < c.maxRecord { AcceptedHolds(c, input, r); }
    ShortIsRobust(c, Split(c, input));
    FragileExactly(c, input);
    PartitionIndependent(c, chunks);
  }

  /** Every non-empty record of an accepted input is handed out. */
  lemma {:induction false} AcceptedHolds(c: Config, input: Bytes, r: Record)
    requires Accepted(Whole(c, input)) && r in Split(c, input)
    ensures r.payload == [] || r in Whole(c, input).records
  {
    hide SplitLines, SplitCsv, Judge, JudgeCsv, Whole, NonEmpty;
    if c.format.Line? {
      WholeJudgesLines(c, input);
      if input == [] {
        NoLines(c);
      } else {
        JudgedAll(c, SplitLines(input));
      }
    } else {
      WholeJudgesCsv(c, input);
      JudgedCsv(c, SplitCsv(input), false);
      if r.payload != [] { NonEmptyKeeps(SplitCsv(input), r); }
    }
  }

  // ---- two fragile inputs --------------------------------------------------------------------

  lemma {:induction false} OneLine(payload: Bytes)
    requires LF !in payload
    ensures SplitLines(payload + [CR, LF]) == [Record(payload, [CR, LF])] + []
  {
    hide SplitLines;
    var input := payload + [CR, LF];
    FirstLfIsFirst(input, |payload| + 1);
    assert LineRecord(input, |payload| + 1) == Record(payload, [CR, LF]);
    SplitLinesCons(input);
    assert input[|input|..] == [];
    NoLines(Config(Line, 1, 1, _ => true, _ => None));
  }

  /** A line of maximal size ended by CRLF: accepted at once, refused byte by byte. */
  lemma {:induction false} MaximalLineIsFragile(c: Config, payload: Bytes)
    requires c.format.Line? && |payload| == c.maxRecord >= 1 && LF !in payload && c.utf8(payload)
    ensures var input := payload + [CR, LF];
            && Whole(c, input) == Outcome([Record(payload, [CR, LF])], None)
            && RunAll(c, Singles(input)).error == Some(TooLarge)
  {
    hide Whole, RunAll, Judge, SplitLines, SomeFragile, Singles;
    var input := payload + [CR, LF];
    var r := Record(payload, [CR, LF]);
    OneLine(payload);
    NoLines(c);
    WholeJudgesLines(c, input);
    JudgeCons(c, r, []);
    SomeFragileCons(c, r, []);
    SinglesFail(c, input);
  }

  /** The CSV text `ab"` under a limit of one byte: a stray quote at once, too large byte by byte. */
  lemma {:induction false} LongBadCsvIsFragile()
    ensures var c, input := Config(Csv, 1, 1, _ => true, _ => None), [97, 98, QUOTE];
            && Whole(c, input) == Outcome([], Some(BadCsv))
            && RunAll(c, Singles(input)).error == Some(TooLarge)
  {
    var c, input := Config(Csv, 1, 1, _ => true, _ => None), [97, 98, QUOTE];
    assert CsvScan(c, input, 2, Unquoted, 1) == Bad(BadCsv);
    assert CsvScan(c, input, 1, Unquoted, 1) == Bad(BadCsv);
    assert CsvRecordScan(c, input) == Bad(BadCsv);
    var head := input[..2];
    assert CsvScan(c, head, 2, Unquoted, 1) == Open(Unquoted, 1);
    assert CsvScan(c, head, 1, Unquoted, 1) == Open(Unquoted, 1);
    assert CsvRecordScan(c, head) == Open(Unquoted, 1);
    assert Fragile(c, input);
    FragileExactly(c, input);
    SinglesFail(c, input);
  }
}
