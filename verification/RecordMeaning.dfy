/** What the one-shot reading of an input means, independently of the decoder. */
module RecordMeaning {
  import opened Common
  import opened Streams
  import opened RecordSpec
  import opened RecordTheorems

  // ---- lines -----------------------------------------------------------------------------

  /** Cut after every line feed; a missing final feed leaves a last line without separator. */
  function SplitLines(input: Bytes): seq<Record>
    decreases |input|
  {
    if input == [] then []
    else
      var end := FirstLf(input);
      if end == |input| then [Record(input, [])]
      else [LineRecord(input, end)] + SplitLines(input[end + 1..])
  }

  /** An empty input is one empty line. */
  function LinesOf(input: Bytes): seq<Record> {
    if input == [] then [Record([], [])] else SplitLines(input)
  }

  function LineFault(c: Config, r: Record): Option<Error> {
    if |r.payload| > c.maxRecord then Some(TooLarge) else if !c.utf8(r.payload) then Some(BadEncoding) else None
  }

  /** Records up to the first one that is too large or not UTF-8. */
  function Judge(c: Config, records: seq<Record>): Outcome {
    if records == [] then Outcome([], None)
    else if LineFault(c, records[0]).Some? then Outcome([], LineFault(c, records[0]))
    else
      var rest := Judge(c, records[1..]);
      Outcome([records[0]] + rest.records, rest.error)
  }

  lemma {:induction false} LineSize(p: Bytes, end: nat)
    requires end < |p|
    ensures var r := LineRecord(p, end); r.separator != [] && |r.payload| + |r.separator| == end + 1
  {
  }

  lemma {:induction false} SplitLinesCons(p: Bytes)
    requires p != []
    ensures var end := FirstLf(p);
            var r := if end < |p| then LineRecord(p, end) else Record(p, []);
            var n := |r.payload| + |r.separator|;
            0 < n <= |p| && SplitLines(p) == [r] + SplitLines(p[n..])
  {
    hide LineRecord, FirstLf;
    var end := FirstLf(p);
    if end < |p| {
      LineSize(p, end);
    } else {
      assert p[|p|..] == [];
    }
  }

  lemma {:induction false} NextLineMeans(c: Config, p: Bytes, eof: bool)
    requires c.format.Line? && p != []
    ensures var r := SplitLines(p)[0];
            var n := |r.payload| + |r.separator|;
            && 0 < n <= |p| && (r.separator == [] ==> r.payload == p) && SplitLines(p) == [r] + SplitLines(p[n..])
            && Next(c, p, eof) ==
               if r.separator == [] then Wait
               else match LineFault(c, r)
                    case Some(e) => Fail(e)
                    case None => Emit(r, n)
  {
    hide LineRecord, FirstLf, SplitLines;
    SplitLinesCons(p);
    var end := FirstLf(p);
    if end < |p| { LineSize(p, end); }
  }

  lemma {:induction false} JudgeCons(c: Config, r: Record, records: seq<Record>)
    ensures Judge(c, [r] + records) ==
            if LineFault(c, r).Some? then Outcome([], LineFault(c, r))
            else var rest := Judge(c, records); Outcome([r] + rest.records, rest.error)
  {
    assert ([r] + records)[1..] == records;
  }

  lemma {:induction false} DrainedLines(c: Config, input: Bytes, emitted: bool)
    requires c.format.Line?
    ensures Finish(c, Drain(c, input, false), true, emitted) == Judge(c, SplitLines(input))
    decreases |input|
  {
    hide NextLine, Judge, SplitLines;
    if input == [] {
      NoLines(c);
      EmptyWaits(c);
    } else {
      NextLineMeans(c, input, false);
      var r := SplitLines(input)[0];
      var rest := input[|r.payload| + |r.separator|..];
      JudgeCons(c, r, SplitLines(rest));
      if Next(c, input, false).Emit? {
        DrainedLines(c, rest, true);
        FinishOfPrepend(c, [r], Drain(c, rest, false), true, emitted);
      } else if Next(c, input, false).Wait? {
        NoLines(c);
      }
    }
  }

  lemma {:induction false} NoLines(c: Config)
    ensures SplitLines([]) == [] && Judge(c, []) == Outcome([], None)
  {
  }

  /** For line formats the one-shot reading judges the lines of the input, one after the other. */
  lemma {:induction false} WholeJudgesLines(c: Config, input: Bytes)
    requires c.format.Line?
    ensures Whole(c, input) == Judge(c, LinesOf(input))
  {
    if input == [] {
      assert Drain(c, [], false) == Fed([], Ok([]));
      assert [Record([], [])][1..] == [];
      assert [] + CloseLine(c, [], false).records == CloseLine(c, [], false).records;
    } else {
      DrainedLines(c, input, false);
    }
  }

  function Joined(records: seq<Record>): Bytes {
    if records == [] then [] else records[0].payload + records[0].separator + Joined(records[1..])
  }

  lemma {:induction false} LineRecordJoins(p: Bytes, end: nat)
    requires end < |p|
    ensures LineRecord(p, end).payload + LineRecord(p, end).separator == p[..end + 1]
  {
  }

  lemma {:induction false} JoinedCons(record: Record, records: seq<Record>)
    ensures Joined([record] + records) == record.payload + record.separator + Joined(records)
  {
    assert ([record] + records)[1..] == records;
  }

  lemma {:induction false} SplitJoins(input: Bytes)
    ensures Joined(SplitLines(input)) == input
    decreases |input|
  {
    hide Joined, LineRecord, FirstLf;
    if input == [] {
      JoinedNothing();
    } else {
      var end := FirstLf(input);
      if end < |input| {
        LineRecordJoins(input, end);
        SplitJoins(input[end + 1..]);
        JoinedCons(LineRecord(input, end), SplitLines(input[end + 1..]));
        assert input == input[..end + 1] + input[end + 1..];
      } else {
        JoinedNothing();
        JoinedCons(Record(input, []), []);
        assert [Record(input, [])] + [] == [Record(input, [])];
      }
    }
  }

  lemma {:induction false} JoinedNothing()
    ensures Joined([]) == []
  {
  }

  lemma {:induction false} JudgedAll(c: Config, records: seq<Record>)
    requires Accepted(Judge(c, records))
    ensures Judge(c, records).records == records
  {
    if records != [] { JudgedAll(c, records[1..]); }
  }

  /** Payloads and separators of an accepted line input put together give back the input. */
  lemma {:induction false} LinesRoundTrip(c: Config, input: Bytes)
    requires c.format.Line? && Accepted(Whole(c, input))
    ensures Joined(Whole(c, input).records) == input
  {
    WholeJudgesLines(c, input);
    JudgedAll(c, LinesOf(input));
    if input != [] { SplitJoins(input); } else { assert [Record([], [])][1..] == []; }
  }

  // ---- CSV on bytes ------------------------------------------------------------------------

  function Quotes(p: Bytes): nat {
    if p == [] then 0 else Quotes(p[..|p| - 1]) + (if p[|p| - 1] == QUOTE then 1 else 0)
  }

  /** Position `i` is outside quotes: an even number of quotes comes before it. */
  predicate Outside(p: Bytes, i: nat)
    requires i <= |p|
  {
    Quotes(p[..i]) % 2 == 0
  }

  /** One more than the number of commas outside quotes before `i`. */
  function FieldCount(p: Bytes, i: nat): nat
    requires i <= |p|
  {
    if i == 0 then 1 else FieldCount(p, i - 1) + (if p[i - 1] == COMMA && Outside(p, i - 1) then 1 else 0)
  }

  /** A line break outside quotes. */
  predicate Break(p: Bytes, i: nat)
    requires i < |p|
  {
    IsNewline(p[i]) && Outside(p, i)
  }

  /**
   What is wrong with the byte at `i`: a comma that opens one field too many, a quote in the middle of an
   unquoted field, or an ordinary byte after a closing quote.
   */
  function Offence(c: Config, p: Bytes, i: nat): Option<Error>
    requires i < |p|
  {
    if !Outside(p, i) || IsNewline(p[i]) then None
    else if p[i] == COMMA then (if FieldCount(p, i) + 1 > c.maxFields then Some(TooLarge) else None)
    else if p[i] == QUOTE then (if i == 0 || p[i - 1] == COMMA || p[i - 1] == QUOTE then None else Some(BadCsv))
    else if i > 0 && p[i - 1] == QUOTE then Some(BadCsv) else None
  }

  /** The first line break outside quotes from `i` on, or the length. */
  function FirstBreak(p: Bytes, i: nat): (n: nat)
    requires i <= |p|
    ensures i <= n <= |p| && (n < |p| ==> Break(p, n))
    ensures forall j :: i <= j < n ==> !Break(p, j)
    decreases |p| - i
  {
    if i == |p| || Break(p, i) then i else FirstBreak(p, i + 1)
  }

  /** The first offence at a position in `i..n`. */
  function FirstOffence(c: Config, p: Bytes, i: nat, n: nat): Option<Error>
    requires i <= n <= |p|
    decreases n - i
  {
    if i == n then None else if Offence(c, p, i).Some? then Offence(c, p, i) else FirstOffence(c, p, i + 1, n)
  }

  /** The scanner's state, from the bytes around `i` alone. */
  function StateAt(p: Bytes, i: nat): CsvState
    requires i <= |p|
  {
    if !Outside(p, i) then Quoted
    else if i == 0 || p[i - 1] == COMMA then FieldStart
    else if p[i - 1] == QUOTE then QuoteClosed
    else Unquoted
  }

  lemma {:induction false} OutsideNext(p: Bytes, i: nat)
    requires i < |p|
    ensures Outside(p, i + 1) <==> (Outside(p, i) <==> p[i] != QUOTE)
  {
    assert p[..i + 1][..i] == p[..i];
  }

  lemma {:induction false} MoveMeans(c: Config, p: Bytes, i: nat)
    requires i < |p|
    ensures match CsvMove(c, StateAt(p, i), FieldCount(p, i), p[i])
            case Go(state, fields) =>
              state == StateAt(p, i + 1) && fields == FieldCount(p, i + 1) && Offence(c, p, i).None? && !Break(p, i)
            case Newline => Break(p, i)
            case Reject(e) => Offence(c, p, i) == Some(e) && !Break(p, i)
  {
    hide Outside;
    OutsideNext(p, i);
  }

  lemma {:induction false} ScanFrom(c: Config, p: Bytes, i: nat)
    requires i <= |p|
    ensures var end := FirstBreak(p, i);
            CsvScan(c, p, i, StateAt(p, i), FieldCount(p, i)) ==
            match FirstOffence(c, p, i, end)
            case Some(e) => Bad(e)
            case None => if end < |p| then AtNewline(end) else Open(StateAt(p, |p|), FieldCount(p, |p|))
    decreases |p| - i
  {
    hide Offence, Break, StateAt, FieldCount, CsvMove;
    if i < |p| {
      MoveMeans(c, p, i);
      if CsvMove(c, StateAt(p, i), FieldCount(p, i), p[i]).Go? { ScanFrom(c, p, i + 1); }
    }
  }

  lemma {:induction false} OffencesOfPrefix(c: Config, p: Bytes, i: nat, n: nat)
    requires i < n <= |p|
    ensures Offence(c, p[..n], i) == Offence(c, p, i)
  {
    assert p[..n][..i] == p[..i];
    FieldCountOfPrefix(p, i, n);
  }

  lemma {:induction false} FieldCountOfPrefix(p: Bytes, i: nat, n: nat)
    requires i <= n <= |p|
    ensures FieldCount(p[..n], i) == FieldCount(p, i)
    decreases i
  {
    if i > 0 {
      FieldCountOfPrefix(p, i - 1, n);
      assert p[..n][..i - 1] == p[..i - 1];
    }
  }

  lemma {:induction false} FirstOffenceOfPrefix(c: Config, p: Bytes, i: nat, n: nat)
    requires i <= n <= |p|
    ensures FirstOffence(c, p[..n], i, n) == FirstOffence(c, p, i, n)
    decreases n - i
  {
    hide Offence;
    if i < n {
      OffencesOfPrefix(c, p, i, n);
      FirstOffenceOfPrefix(c, p, i + 1, n);
    }
  }

  /** The first offence of a payload. */
  function OffenceOf(c: Config, p: Bytes): Option<Error> {
    FirstOffence(c, p, 0, |p|)
  }

  /**
   A CSV record ends at the first line break that has an even number of quotes before it. The scan fails
   exactly when a byte before that break offends, and with the first offence.
   */
  lemma {:induction false} RecordEndsOutsideQuotes(c: Config, p: Bytes)
    ensures var end := FirstBreak(p, 0);
            CsvRecordScan(c, p) ==
            match OffenceOf(c, p[..end])
            case Some(e) => Bad(e)
            case None => if end < |p| then AtNewline(end) else Open(StateAt(p, |p|), FieldCount(p, |p|))
  {
    hide FirstOffence;
    assert p[..0] == [];
    ScanFrom(c, p, 0);
    FirstOffenceOfPrefix(c, p, 0, FirstBreak(p, 0));
  }

  // ---- CSV as a list of records ----------------------------------------------------------------

  /** Cut after every line break outside quotes: LF, CR or CRLF. */
  function SplitCsv(input: Bytes): seq<Record>
    decreases |input|
  {
    if input == [] then []
    else
      var end := FirstBreak(input, 0);
      if end == |input| then [Record(input, [])]
      else
        var n := SeparatorEnd(input, end);
        [Record(input[..end], input[end..n])] + SplitCsv(input[n..])
  }

  /** Why a CSV record is refused. A last record without separator is measured before it is parsed. */
  function CsvFault(c: Config, r: Record): Option<Error> {
    if OffenceOf(c, r.payload).Some? then OffenceOf(c, r.payload)
    else if r.separator == [] && |r.payload| > c.maxRecord then Some(TooLarge)
    else if r.separator == [] && !Outside(r.payload, |r.payload|) then Some(BadCsv)
    else if c.csvCheck(r.payload).Some? then c.csvCheck(r.payload)
    else if !c.utf8(r.payload) then Some(BadEncoding)
    else if |r.payload| > c.maxRecord then Some(TooLarge)
    else None
  }

  /** Records up to the first refused one, empty ones passed over; there has to be one. */
  function JudgeCsv(c: Config, records: seq<Record>, emitted: bool): Outcome {
    if records == [] then Outcome([], if emitted then None else Some(BadCsv))
    else if records[0].payload == [] then JudgeCsv(c, records[1..], emitted)
    else if CsvFault(c, records[0]).Some? then Outcome([], CsvFault(c, records[0]))
    else
      var rest := JudgeCsv(c, records[1..], true);
      Outcome([records[0]] + rest.records, rest.error)
  }

  lemma {:induction false} NextMeans(c: Config, p: Bytes, eof: bool)
    requires c.format.Csv? && p != []
    ensures var r := SplitCsv(p)[0];
            var n := |r.payload| + |r.separator|;
            Next(c, p, eof) ==
            if OffenceOf(c, r.payload).Some? then Fail(OffenceOf(c, r.payload).value)
            else if r.separator == [] || (r.separator == [CR] && n == |p| && !eof) then Wait
            else if r.payload == [] then Skip(n)
            else match CsvFault(c, r)
                 case Some(e) => Fail(e)
                 case None => Emit(r, n)
  {
    hide CsvScan, FirstOffence;
    RecordEndsOutsideQuotes(c, p);
    var end := FirstBreak(p, 0);
    if end == |p| {
      assert p[..end] == p;
    } else {
      assert Break(p, end);
      assert p[end..SeparatorEnd(p, end)][0] == p[end];
      assert |p[end..SeparatorEnd(p, end)]| == SeparatorEnd(p, end) - end;
    }
  }

  lemma {:induction false} SplitCsvCons(input: Bytes)
    requires input != []
    ensures var r := SplitCsv(input)[0];
            var n := |r.payload| + |r.separator|;
            && 0 < n <= |input| && r.payload + r.separator == input[..n]
            && SplitCsv(input) == [r] + SplitCsv(input[n..])
            && (r.separator == [] ==> r.payload == input)
  {
    hide Break, Outside;
    var end := FirstBreak(input, 0);
    if end == |input| { assert input[|input|..] == []; }
  }

  lemma {:induction false} JudgeCsvCons(c: Config, r: Record, records: seq<Record>, emitted: bool)
    ensures JudgeCsv(c, [r] + records, emitted) ==
            if r.payload == [] then JudgeCsv(c, records, emitted)
            else if CsvFault(c, r).Some? then Outcome([], CsvFault(c, r))
            else var rest := JudgeCsv(c, records, true); Outcome([r] + rest.records, rest.error)
  {
    assert ([r] + records)[1..] == records;
  }

  /** A buffer that waits holds one record, which the end of the input decides. */
  lemma {:induction false} ClosedCsv(c: Config, p: Bytes, emitted: bool)
    requires c.format.Csv? && Next(c, p, false).Wait?
    ensures CloseCsv(c, p, emitted) == JudgeCsv(c, SplitCsv(p), emitted)
  {
    hide NextCsv, FirstOffence, SplitCsv, JudgeCsv, CsvScan;
    if p == [] {
      ClosedNothing(c, emitted);
    } else {
      NextMeans(c, p, false);
      NextMeans(c, p, true);
      SplitCsvCons(p);
      var r := SplitCsv(p)[0];
      JudgeCsvCons(c, r, SplitCsv(p[|r.payload| + |r.separator|..]), emitted);
      assert p[|p|..] == [];
      NoCsv(c, emitted);
      NoCsv(c, true);
      if r.separator == [] { OpenState(c, p); }
    }
  }

  lemma {:induction false} ClosedNothing(c: Config, emitted: bool)
    requires c.format.Csv?
    ensures CloseCsv(c, [], emitted) == JudgeCsv(c, SplitCsv([]), emitted)
  {
  }

  lemma {:induction false} NoCsv(c: Config, emitted: bool)
    ensures SplitCsv([]) == [] && JudgeCsv(c, [], emitted) == Outcome([], if emitted then None else Some(BadCsv))
  {
  }

  lemma {:induction false} OpenState(c: Config, p: Bytes)
    requires p != [] && SplitCsv(p)[0].separator == [] && OffenceOf(c, p).None?
    ensures CsvRecordScan(c, p) == Open(StateAt(p, |p|), FieldCount(p, |p|))
  {
    RecordEndsOutsideQuotes(c, p);
    assert p[..|p|] == p;
  }

  lemma {:induction false} DrainedCsv(c: Config, input: Bytes, inputSeen: bool, emitted: bool)
    requires c.format.Csv?
    ensures Finish(c, Drain(c, input, false), inputSeen, emitted) == JudgeCsv(c, SplitCsv(input), emitted)
    decreases |input|
  {
    hide NextCsv, JudgeCsv, SplitCsv, CsvFault, FirstOffence, CloseCsv;
    if input == [] {
      EmptyWaits(c);
      ClosedCsv(c, input, emitted);
      assert [] + CloseCsv(c, input, emitted).records == CloseCsv(c, input, emitted).records;
    } else {
      NextMeans(c, input, false);
      SplitCsvCons(input);
      var s := Next(c, input, false);
      var r := SplitCsv(input)[0];
      var rest := input[|r.payload| + |r.separator|..];
      JudgeCsvCons(c, r, SplitCsv(rest), emitted);
      if s.Wait? {
        ClosedCsv(c, input, emitted);
        assert [] + CloseCsv(c, input, emitted).records == CloseCsv(c, input, emitted).records;
      } else if s.Fail? {
        OffenceIsFault(c, r);
      } else {
        var records := if s.Emit? then [r] else [];
        DrainStep(c, input, false);
        DrainedCsv(c, rest, inputSeen, emitted || records != []);
        FinishOfPrepend(c, records, Drain(c, rest, false), inputSeen, emitted);
        var o := JudgeCsv(c, SplitCsv(rest), emitted);
        assert [] + o.records == o.records;
      }
    }
  }

  lemma {:induction false} OffenceIsFault(c: Config, r: Record)
    ensures OffenceOf(c, r.payload).Some? ==> CsvFault(c, r) == OffenceOf(c, r.payload) && r.payload != []
  {
  }

  /** For CSV the one-shot reading judges the records between line breaks outside quotes, one after the other. */
  lemma {:induction false} WholeJudgesCsv(c: Config, input: Bytes)
    requires c.format.Csv?
    ensures Whole(c, input) == JudgeCsv(c, SplitCsv(input), false)
  {
    DrainedCsv(c, input, input != [], false);
  }

  function NonEmpty(records: seq<Record>): seq<Record> {
    if records == [] then [] else (if records[0].payload == [] then [] else [records[0]]) + NonEmpty(records[1..])
  }

  lemma {:induction false} SplitCsvJoins(input: Bytes)
    ensures Joined(SplitCsv(input)) == input
    decreases |input|
  {
    hide Joined, SplitCsv;
    JoinedNothing();
    if input == [] {
      assert SplitCsv([]) == [] by { NoCsv(Config(Csv, 1, 1, _ => true, _ => None), true); }
    } else {
      SplitCsvCons(input);
      var r := SplitCsv(input)[0];
      var n := |r.payload| + |r.separator|;
      SplitCsvJoins(input[n..]);
      JoinedCons(r, SplitCsv(input[n..]));
      assert input == input[..n] + input[n..];
    }
  }

  lemma {:induction false} JudgedCsv(c: Config, records: seq<Record>, emitted: bool)
    requires Accepted(JudgeCsv(c, records, emitted))
    ensures JudgeCsv(c, records, emitted).records == NonEmpty(records)
  {
    if records != [] {
      JudgedCsv(c, records[1..], emitted || records[0].payload != []);
    }
  }

  /** The records of an accepted CSV input are its lines without the empty ones; no byte of them is lost. */
  lemma {:induction false} CsvRoundTrip(c: Config, input: Bytes)
    requires c.format.Csv? && Accepted(Whole(c, input))
    ensures Whole(c, input).records == NonEmpty(SplitCsv(input)) && Joined(SplitCsv(input)) == input
  {
    WholeJudgesCsv(c, input);
    JudgedCsv(c, SplitCsv(input), false);
    SplitCsvJoins(input);
  }
}
