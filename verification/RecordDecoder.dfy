/** The incremental record decoder, proved to compute the runs of the specification. */
module RecordDecoder {
  import opened Common
  import opened Streams
  import opened RecordSpec
  import opened RecordTheorems

  // ---- what one call of `prepare_next` does --------------------------------------------

  datatype Prep = Ready(record: Record, rest: Bytes, complete: bool) | Nothing(rest: Bytes, complete: bool)
      | PrepFail(error: Error)

  /** The buffer without its leading empty CSV lines. */
  function SkipEmpty(c: Config, p: Bytes, eof: bool): (q: Bytes)
    ensures !Next(c, q, eof).Skip? && |q| <= |p|
    decreases |p|
  {
    match Next(c, p, eof)
    case Skip(n) => SkipEmpty(c, p[n..], eof)
    case _ => p
  }

  function LastRecord(c: Config, q: Bytes): Prep {
    if c.format.Csv? && CsvRecordScan(c, q).Open? && CsvRecordScan(c, q).state.Quoted? then PrepFail(BadCsv)
    else if c.format.Csv? && q == [] then Nothing([], true)
    else if c.format.Csv? && c.csvCheck(q).Some? then PrepFail(c.csvCheck(q).value)
    else if !c.utf8(q) then PrepFail(BadEncoding)
    else Ready(Record(q, []), [], true)
  }

  function Prepare(c: Config, p: Bytes, eof: bool, inputSeen: bool): Prep {
    var q := SkipEmpty(c, p, eof);
    match Next(c, q, eof)
    case Emit(record, n) => Ready(record, q[n..], false)
    case Fail(e) => PrepFail(e)
    case _ =>
      if |q| > c.maxRecord then PrepFail(TooLarge)
      else if !eof then Nothing(q, false)
      else if c.format.Line? && q == [] && inputSeen then Nothing([], true)
      else LastRecord(c, q)
  }

  lemma {:induction false} LinesAreNotSkipped(c: Config, p: Bytes, eof: bool)
    ensures c.format.Line? ==> SkipEmpty(c, p, eof) == p
  {
  }

  /** Preparing a line, in one expression. */
  lemma {:induction false} LinePrepared(c: Config, p: Bytes, eof: bool, inputSeen: bool)
    requires c.format.Line?
    ensures var end := FirstLf(p);
            Prepare(c, p, eof, inputSeen) ==
            if end < |p| then
              var record := LineRecord(p, end);
              if |record.payload| > c.maxRecord then PrepFail(TooLarge)
              else if !c.utf8(record.payload) then PrepFail(BadEncoding)
              else Ready(record, p[end + 1..], false)
            else if |p| > c.maxRecord then PrepFail(TooLarge)
            else if !eof then Nothing(p, false)
            else if p == [] && inputSeen then Nothing([], true)
            else if !c.utf8(p) then PrepFail(BadEncoding)
            else Ready(Record(p, []), [], true)
  {
    hide SkipEmpty, NextCsv, CsvScan, FirstLf;
    LinesAreNotSkipped(c, p, eof);
  }

  lemma {:induction false} LineRecordIs(p: Bytes, end: nat)
    requires end < |p|
    ensures var cut := if end > 0 && p[end - 1] == CR then end - 1 else end;
            LineRecord(p, end) == Record(p[..cut], p[cut..end + 1]) && |p[..cut]| == cut
  {
  }

  /** Draining is repeated preparing. */
  lemma {:induction false} DrainByPreparing(c: Config, p: Bytes, inputSeen: bool)
    ensures Drain(c, p, true) ==
            match Prepare(c, p, false, inputSeen)
            case Ready(record, rest, _) => Prepend([record], Drain(c, rest, true))
            case Nothing(rest, _) => Fed([], Ok(rest))
            case PrepFail(e) => Fed([], Err(e))
    decreases |p|
  {
    match Next(c, p, false)
    case Skip(n) => DrainByPreparing(c, p[n..], inputSeen);
    case _ =>
  }

  /** At the end of input a drained buffer holds at most one more record. */
  lemma {:induction false} CloseByPreparing(c: Config, p: Bytes, inputSeen: bool, emitted: bool)
    requires Next(c, p, false).Wait? && (p != [] ==> inputSeen)
    ensures match Prepare(c, p, true, inputSeen)
            case Ready(record, rest, complete) =>
              Close(c, p, inputSeen, emitted) == Outcome([record], None) && rest == [] && (!complete ==> c.format.Csv?)
            case Nothing(_, complete) =>
              complete && Close(c, p, inputSeen, emitted) ==
                (if c.format.Csv? && !emitted then Outcome([], Some(BadCsv)) else Outcome([], None))
            case PrepFail(e) => Close(c, p, inputSeen, emitted) == Outcome([], Some(e))
  {
    if c.format.Csv? && CsvRecordScan(c, p).AtNewline? {
      var at := CsvRecordScan(c, p).at;
      assert at + 1 == |p| && SeparatorEnd(p, at) == |p|;
      assert p[|p|..] == [];
      assert CsvRecordScan(c, []) == Open(FieldStart, 1);
      assert SkipEmpty(c, [], true) == [];
    }
  }

  /** The scan state after a prefix determines the scan of the whole buffer. */
  lemma {:induction false} ScanFromPrefix(c: Config, p: Bytes, i: nat, state: CsvState, fields: nat)
    requires i <= |p| && CsvRecordScan(c, p[..i]) == Open(state, fields)
    ensures CsvRecordScan(c, p) == CsvScan(c, p, i, state, fields)
    ensures i < |p| && CsvMove(c, state, fields, p[i]).Go? ==>
              CsvRecordScan(c, p[..i + 1]) == Open(CsvMove(c, state, fields, p[i]).state,
                CsvMove(c, state, fields, p[i]).fields)
  {
    assert p == p[..i] + p[i..];
    CsvScanExtends(c, p[..i], p[i..], 0, FieldStart, 1);
    if i < |p| {
      assert p[..i + 1] == p[..i] + [p[i]];
      CsvScanExtends(c, p[..i], [p[i]], 0, FieldStart, 1);
    }
  }

  /** Where a CSV scan leaves the leading empty lines. */
  lemma {:induction false} SkipOrStop(c: Config, p: Bytes, eof: bool)
    requires c.format.Csv?
    ensures CsvRecordScan(c, p) == AtNewline(0) && BoundaryKnown(p, 0, eof) ==>
            SkipEmpty(c, p, eof) == SkipEmpty(c, p[SeparatorEnd(p, 0)..], eof)
    ensures !(CsvRecordScan(c, p) == AtNewline(0) && BoundaryKnown(p, 0, eof)) ==> SkipEmpty(c, p, eof) == p
  {
  }

  class RecordDecoder {
    const c: Config
    const maxFrame: nat
    var pending: Bytes
    var ready: Option<Record>
    var scanOffset: nat
    var csvState: CsvState
    var csvFields: nat
    var finished: bool
    var complete: bool
    var inputSeen: bool
    var emitted: nat

    /** What the scan has established about the bytes before `scanOffset`. */
    ghost predicate Valid()
      reads this
    {
      && scanOffset <= |pending|
      && (complete ==> pending == [])
      && (pending != [] ==> inputSeen)
      && (c.format.Line? ==> forall i :: 0 <= i < scanOffset ==> pending[i] != LF)
      && (c.format.Csv? ==> CsvRecordScan(c, pending[..scanOffset]) == Open(csvState, csvFields))
    }

    constructor (c: Config, maxFrame: nat)
      ensures Valid() && this.c == c && this.maxFrame == maxFrame
      ensures pending == [] && ready.None? && !finished && !complete && !inputSeen && emitted == 0
    {
      this.c, this.maxFrame := c, maxFrame;
      pending, ready, scanOffset, csvState, csvFields := [], None, 0, FieldStart, 1;
      finished, complete, inputSeen, emitted := false, false, false, 0;
    }

    /** Search the next line feed from `scanOffset` on. */
    method SearchLf() returns (end: nat)
      requires Valid() && c.format.Line?
      ensures end == FirstLf(pending)
    {
      end := scanOffset;
      while end < |pending| && pending[end] != LF
        invariant scanOffset <= end <= |pending|
        invariant forall i :: 0 <= i < end ==> pending[i] != LF
      {
        end := end + 1;
      }
      FirstLfIsFirst(pending, end);
    }

    method PrepareLine(eof: bool) returns (r: Option<Error>)
      requires Valid() && ready.None? && !complete && c.format.Line?
      modifies this
      ensures unchanged(`finished, `emitted)
      ensures match Prepare(c, old(pending), eof, old(inputSeen))
              case Ready(record, rest, done) =>
                r.None? && Valid() && ready == Some(record) && pending == rest && complete == done
                  && (old(inputSeen) ==> inputSeen)
              case Nothing(rest, done) => r.None? && Valid() && ready.None? && pending == rest && complete == done
                && inputSeen == old(inputSeen)
              case PrepFail(e) =>
                r == Some(e) && ready.None? && !complete && pending == SkipEmpty(c, old(pending), eof)
                  && inputSeen == old(inputSeen)
    {
      hide Prepare, FirstLf, CsvRecordScan, LineRecord;
      LinePrepared(c, pending, eof, inputSeen);
      if FirstLf(pending) < |pending| { LineRecordIs(pending, FirstLf(pending)); }
      var end := SearchLf();
      if end < |pending| {
        var cut := if end > 0 && pending[end - 1] == CR then end - 1 else end;
        if cut > c.maxRecord {
          return Some(TooLarge);
        }
        if !c.utf8(pending[..cut]) {
          return Some(BadEncoding);
        }
        ready := Some(Record(pending[..cut], pending[cut..end + 1]));
        pending := pending[end + 1..];
        scanOffset := 0;
        return None;
      }
      scanOffset := |pending|;
      if |pending| > c.maxRecord {
        return Some(TooLarge);
      }
      if eof && (pending != [] || !inputSeen) {
        if !c.utf8(pending) {
          return Some(BadEncoding);
        }
        ready := Some(Record(pending, []));
        pending, scanOffset, inputSeen, complete := [], 0, true, true;
      } else if eof {
        complete := true;
      }
      return None;
    }

    /** Scan on from `scanOffset` byte by byte; empty lines are dropped on the way. */
    method ScanCsv(eof: bool) returns (end: CsvEnd)
      requires Valid() && ready.None? && !complete && c.format.Csv?
      modifies `pending, `scanOffset, `csvState, `csvFields
      ensures Valid() && pending == SkipEmpty(c, old(pending), eof) && end == CsvRecordScan(c, pending)
      ensures end.Open? ==> end.state == csvState
    {
      hide SkipEmpty, CsvMove;
      while scanOffset < |pending|
        invariant Valid()
        invariant SkipEmpty(c, pending, eof) == SkipEmpty(c, old(pending), eof)
        decreases |pending|, |pending| - scanOffset
      {
        ScanFromPrefix(c, pending, scanOffset, csvState, csvFields);
        SkipOrStop(c, pending, eof);
        match CsvMove(c, csvState, csvFields, pending[scanOffset])
        case Reject(e) =>
          return Bad(e);
        case Go(state, fields) =>
          csvState, csvFields, scanOffset := state, fields, scanOffset + 1;
        case Newline =>
          if scanOffset > 0 || !BoundaryKnown(pending, scanOffset, eof) {
            return AtNewline(scanOffset);
          }
          pending := pending[SeparatorEnd(pending, scanOffset)..];
          csvState, csvFields, scanOffset := FieldStart, 1, 0;
      }
      assert pending[..scanOffset] == pending;
      SkipOrStop(c, pending, eof);
      return Open(csvState, csvFields);
    }

    method PrepareCsv(eof: bool) returns (r: Option<Error>)
      requires Valid() && ready.None? && !complete && c.format.Csv?
      modifies this
      ensures unchanged(`finished, `emitted)
      ensures match Prepare(c, old(pending), eof, old(inputSeen))
              case Ready(record, rest, done) =>
                r.None? && Valid() && ready == Some(record) && pending == rest && complete == done
                  && (old(inputSeen) ==> inputSeen)
              case Nothing(rest, done) => r.None? && Valid() && ready.None? && pending == rest && complete == done
                && inputSeen == old(inputSeen)
              case PrepFail(e) =>
                r == Some(e) && ready.None? && !complete && pending == SkipEmpty(c, old(pending), eof)
                  && inputSeen == old(inputSeen)
    {
      hide SkipEmpty;
      var scan := ScanCsv(eof);
      if scan.Bad? {
        return Some(scan.error);
      }
      if scan.AtNewline? && BoundaryKnown(pending, scan.at, eof) {
        var payload, end := pending[..scan.at], SeparatorEnd(pending, scan.at);
        if c.csvCheck(payload).Some? {
          return Some(c.csvCheck(payload).value);
        }
        if !c.utf8(payload) {
          return Some(BadEncoding);
        }
        if scan.at > c.maxRecord {
          return Some(TooLarge);
        }
        ready := Some(Record(payload, pending[scan.at..end]));
        pending := pending[end..];
        csvState, csvFields, scanOffset := FieldStart, 1, 0;
        return None;
      }
      if |pending| > c.maxRecord {
        return Some(TooLarge);
      }
      if eof {
        if csvState == Quoted {
          return Some(BadCsv);
        }
        if pending != [] {
          if c.csvCheck(pending).Some? {
            return Some(c.csvCheck(pending).value);
          }
          if !c.utf8(pending) {
            return Some(BadEncoding);
          }
          ready := Some(Record(pending, []));
          pending, inputSeen, complete := [], true, true;
          csvState, csvFields, scanOffset := FieldStart, 1, 0;
        } else {
          complete := true;
        }
      }
      return None;
    }

    method PrepareNext(eof: bool) returns (r: Option<Error>)
      requires Valid()
      modifies this
      ensures unchanged(`finished, `emitted)
      ensures old(ready.Some? || complete) ==> r.None? && Valid() && unchanged(this)
      ensures !old(ready.Some? || complete) ==>
              match Prepare(c, old(pending), eof, old(inputSeen))
              case Ready(record, rest, done) =>
                r.None? && Valid() && ready == Some(record) && pending == rest && complete == done
                  && (old(inputSeen) ==> inputSeen)
              case Nothing(rest, done) => r.None? && Valid() && ready.None? && pending == rest && complete == done
                && inputSeen == old(inputSeen)
              case PrepFail(e) =>
                r == Some(e) && ready.None? && !complete && pending == SkipEmpty(c, old(pending), eof)
                  && inputSeen == old(inputSeen)
    {
      if ready.Some? || complete {
        return None;
      }
      if c.format.Line? {
        r := PrepareLine(eof);
      } else {
        r := PrepareCsv(eof);
      }
    }

    method Push(chunk: Bytes) returns (r: Option<Error>)
      requires Valid() && !complete
      modifies this
      ensures finished == old(finished) && emitted == old(emitted)
      ensures old(finished) || old(ready).Some? ==> r == Some(Misuse) && unchanged(this)
      ensures !old(finished) && old(ready).None? && |chunk| > maxFrame ==> r == Some(FrameTooLarge) && unchanged(this)
      ensures !old(finished) && old(ready).None? && |chunk| <= maxFrame ==>
              match Prepare(c, old(pending) + chunk, false, old(inputSeen) || chunk != [])
              case Ready(record, rest, _) => r.None? && Valid() && ready == Some(record) && pending == rest && !complete
                && (old(inputSeen) || chunk != [] ==> inputSeen)
              case Nothing(rest, _) => r.None? && Valid() && ready.None? && pending == rest && !complete
                && inputSeen == (old(inputSeen) || chunk != [])
              case PrepFail(e) =>
                && r == Some(e) && ready.None? && !complete && pending == SkipEmpty(c, old(pending) + chunk, false)
                && inputSeen == (old(inputSeen) || chunk != [])
    {
      if finished || ready.Some? {
        return Some(Misuse);
      }
      if |chunk| > maxFrame {
        return Some(FrameTooLarge);
      }
      inputSeen := inputSeen || chunk != [];
      assert (pending + chunk)[..scanOffset] == pending[..scanOffset];
      pending := pending + chunk;
      PreparedIsIncomplete(c, pending, inputSeen);
      r := PrepareNext(false);
    }

    method NextRecord() returns (r: Result<Option<Record>, Error>)
      requires Valid()
      modifies this
      ensures finished == old(finished)
      ensures old(ready).Some? ==>
                r == Ok(old(ready)) && Valid() && ready.None? && pending == old(pending) && complete == old(complete)
                  && inputSeen == old(inputSeen)
      ensures old(ready).None? && old(complete) ==> r == Ok(None) && Valid() && unchanged(this)
      ensures old(ready).None? && !old(complete) ==>
              match Prepare(c, old(pending), old(finished), old(inputSeen))
              case Ready(record, rest, done) =>
                r == Ok(Some(record)) && Valid() && ready.None? && pending == rest && complete == done
                  && (old(inputSeen) ==> inputSeen)
              case Nothing(rest, done) => r == Ok(None) && Valid() && ready.None? && pending == rest && complete == done
                && inputSeen == old(inputSeen)
              case PrepFail(e) =>
                && r == Err(e) && ready.None? && !complete && pending == SkipEmpty(c, old(pending), old(finished))
                && inputSeen == old(inputSeen)
      ensures emitted == old(emitted) + (if r.Ok? && r.value.Some? then 1 else 0)
    {
      var error := PrepareNext(finished);
      if error.Some? {
        return Err(error.value);
      }
      var record := ready;
      ready := None;
      if record.Some? {
        emitted := emitted + 1;
      }
      return Ok(record);
    }

    /** Take records until there is none left: what callers do after every push. */
    method DrainRecords() returns (f: Fed)
      requires Valid() && !finished && !complete
      modifies this
      ensures finished == old(finished)
      ensures var queued := if old(ready).Some? then [old(ready).value] else [];
              f == Prepend(queued, Drain(c, old(pending), true))
      ensures f.rest.Ok? ==>
              Valid() && ready.None? && !complete && pending == f.rest.value && emitted == old(emitted) + |f.records|
      ensures f.rest.Ok? && old(inputSeen) ==> inputSeen
      ensures f.rest.Ok? && old(pending) == [] && old(ready).None? ==> inputSeen == old(inputSeen)
    {
      hide Drain, Next, Prepare, SkipEmpty, CsvScan, FirstLf, NextCsv;
      var records: seq<Record> := [];
      ghost var queued := if ready.Some? then [ready.value] else [];
      assert [] + (queued + Drain(c, pending, true).records) == queued + Drain(c, pending, true).records;
      while true
        invariant Valid() && finished == old(finished) && !complete && (old(inputSeen) ==> inputSeen)
        invariant old(pending) == [] && old(ready).None? ==> pending == [] && ready.None? && inputSeen == old(inputSeen)
        invariant emitted == old(emitted) + |records|
        invariant Prepend(if old(ready).Some? then [old(ready).value] else [], Drain(c, old(pending), true))
                  == Prepend(records, Prepend(if ready.Some? then [ready.value] else [], Drain(c, pending, true)))
        decreases |pending| + if ready.Some? then 1 else 0
      {
        DrainByPreparing(c, pending, inputSeen);
        PreparedIsIncomplete(c, pending, inputSeen);
        PrependNothing(Drain(c, pending, true));
        var next := NextRecord();
        if next.Err? {
          return Fed(records, Err(next.error));
        }
        if next.value.None? {
          return Fed(records, Ok(pending));
        }
        PrependTwice(records, [next.value.value], Drain(c, pending, true));
        PrependNothing(Drain(c, pending, true));
        records := records + [next.value.value];
      }
    }

    /** Finish the input and take the last records. */
    method FinishAndDrain() returns (o: Outcome)
      requires Valid() && ready.None? && !finished && !complete && Next(c, pending, false).Wait?
      modifies this
      ensures o == Close(c, old(pending), old(inputSeen), old(emitted) > 0)
    {
      CloseByPreparing(c, pending, inputSeen, emitted > 0);
      finished := true;
      var error := PrepareNext(true);
      if error.Some? {
        return Outcome([], error);
      }
      if c.format.Csv? && ready.None? && emitted == 0 {
        return Outcome([], Some(BadCsv));
      }
      if ready.None? {
        return Outcome([], None);
      }
      assert !complete ==> pending == [] && c.format.Csv?;
      AfterTheLast(c, inputSeen);
      var first := NextRecord();
      var second := NextRecord();
      assert second == Ok(None);
      return Outcome([first.value.value], None);
    }
  }

  lemma {:induction false} PreparedIsIncomplete(c: Config, p: Bytes, inputSeen: bool)
    ensures match Prepare(c, p, false, inputSeen)
            case Ready(_, rest, done) => !done && |rest| < |p|
            case Nothing(_, done) => !done
            case _ => true
    ensures p == [] ==> Prepare(c, p, false, inputSeen) == Nothing([], false)
  {
  }

  lemma {:induction false} AfterTheLast(c: Config, inputSeen: bool)
    ensures c.format.Csv? ==> Prepare(c, [], true, inputSeen) == Nothing([], true)
  {
  }

  lemma {:induction false} FeedSteps(c: Config, p: Bytes, chunks: seq<Bytes>, records: seq<Record>)
    requires chunks != []
    ensures var d := Drain(c, p + chunks[0], true);
            Prepend(records, Feed(c, p, chunks)) ==
            if d.rest.Ok? then Prepend(records + d.records, Feed(c, d.rest.value, chunks[1..])) else Prepend(records, d)
  {
    var d := Drain(c, p + chunks[0], true);
    if d.rest.Ok? { PrependTwice(records, d.records, Feed(c, d.rest.value, chunks[1..])); }
  }

  /** One chunk: push it and take every record it completes. */
  method FeedChunk(d: RecordDecoder, chunk: Bytes) returns (f: Fed)
    requires d.Valid() && d.ready.None? && !d.finished && !d.complete && |chunk| <= d.maxFrame
    modifies d
    ensures f == Drain(d.c, old(d.pending) + chunk, true)
    ensures f.rest.Ok? ==>
              && d.Valid() && d.ready.None? && !d.finished && !d.complete && d.pending == f.rest.value
              && d.emitted == old(d.emitted) + |f.records| && d.inputSeen == (old(d.inputSeen) || chunk != [])
  {
    hide Next, Drain, Prepare;
    ghost var p, c := d.pending + chunk, d.c;
    ghost var seen := d.inputSeen || chunk != [];
    DrainByPreparing(c, p, seen);
    PreparedIsIncomplete(c, p, seen);
    var error := d.Push(chunk);
    if error.Some? {
      return Fed([], Err(error.value));
    }
    if d.ready.None? {
      DrainedWaits(c, p, true);
      DrainWaiting(c, d.pending);
      PrependNothing(Drain(c, d.pending, true));
    }
    f := d.DrainRecords();
  }

  lemma {:induction false} FeedNothing(c: Config, p: Bytes, records: seq<Record>)
    ensures Prepend(records, Feed(c, p, [])) == Fed(records, Ok(p))
  {
    assert records + [] == records;
  }

  /** A decoder fed chunk by chunk, drained after each, then finished. */
  method DecodeAll(c: Config, maxFrame: nat, chunks: seq<Bytes>) returns (o: Outcome)
    requires forall i :: 0 <= i < |chunks| ==> |chunks[i]| <= maxFrame
    ensures o == RunAll(c, chunks)
    ensures o.records <= Whole(c, Flatten(chunks)).records
    ensures o == Whole(c, Flatten(chunks)) || o.error == Some(TooLarge)
    ensures !Fragile(c, Flatten(chunks)) ==> o == Whole(c, Flatten(chunks))
  {
    hide Next, Drain, Fragile, Close, Feed, Flatten, Whole;
    RunAgreesOrFails(c, chunks);
    if !Fragile(c, Flatten(chunks)) { PartitionIndependent(c, chunks); }
    var d := new RecordDecoder(c, maxFrame);
    var records: seq<Record> := [];
    EmptyWaits(c);
    PrependNothing(Feed(c, [], chunks));
    var i := 0;
    assert chunks[0..] == chunks;
    FlattenNothing(chunks[..0]);
    while i < |chunks|
      invariant 0 <= i <= |chunks| && fresh(d) && d.c == c && d.maxFrame == maxFrame
      invariant d.Valid() && d.ready.None? && !d.finished && !d.complete && d.emitted == |records|
      invariant Next(c, d.pending, false).Wait?
      invariant d.inputSeen == (Flatten(chunks[..i]) != [])
      invariant Feed(c, [], chunks) == Prepend(records, Feed(c, d.pending, chunks[i..]))
    {
      var chunk := chunks[i];
      ghost var p := d.pending;
      assert chunks[i..][0] == chunk && chunks[i..][1..] == chunks[i + 1..];
      FeedSteps(c, p, chunks[i..], records);
      FlattenSnoc(chunks[..i], chunk);
      assert chunks[..i] + [chunk] == chunks[..i + 1];
      var f := FeedChunk(d, chunk);
      records := records + f.records;
      if f.rest.Err? {
        return Outcome(records, Some(f.rest.error));
      }
      DrainedWaits(c, p + chunk, true);
      i := i + 1;
    }
    assert chunks[..i] == chunks && chunks[i..] == [];
    FeedNothing(c, d.pending, records);
    var last := d.FinishAndDrain();
    o := Outcome(records + last.records, last.error);
  }
}
