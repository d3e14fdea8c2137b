/**
 Splitting a byte stream into records: the line formats and CSV. `Whole` is the one-shot reading of a
 complete input; `RunAll` is the decoder fed with an arbitrary sequence of chunks and drained after each.
 */
module RecordSpec {
  import opened Common
  import opened Streams

  const LF: byte := 10
  const CR: byte := 13
  const QUOTE: byte := 34
  const COMMA: byte := 44

  datatype Error = TooLarge | BadEncoding | BadCsv | FrameTooLarge | Misuse

  datatype Format = Line | Csv

  /** Limits, with UTF-8 validity and the acceptance of one CSV payload left abstract. */
  datatype Config = Config(
    format: Format,
    maxRecord: nat,
    maxFields: nat,
    utf8: Bytes -> bool,
    csvCheck: Bytes -> Option<Error>)

  predicate IsNewline(b: byte) {
    b == LF || b == CR
  }

  // ---- lines ---------------------------------------------------------------------------

  /** The position of the first line feed, or the length. */
  function FirstLf(p: Bytes): (n: nat)
    ensures n <= |p|
    ensures n < |p| ==> p[n] == LF
    ensures forall i :: 0 <= i < n ==> p[i] != LF
  {
    if p == [] then 0 else if p[0] == LF then 0 else 1 + FirstLf(p[1..])
  }

  /** The record of a line whose feed is at `end`: a preceding CR belongs to the separator. */
  function LineRecord(p: Bytes, end: nat): Record
    requires end < |p|
  {
    var cut := if end > 0 && p[end - 1] == CR then end - 1 else end;
    Record(p[..cut], p[cut..end + 1])
  }

  // ---- one CSV record --------------------------------------------------------------------

  datatype CsvState = FieldStart | Unquoted | Quoted | QuoteClosed

  datatype Move = Go(state: CsvState, fields: nat) | Newline | Reject(error: Error)

  function NextField(c: Config, fields: nat): Move {
    if fields + 1 > c.maxFields then Reject(TooLarge) else Go(FieldStart, fields + 1)
  }

  function CsvMove(c: Config, state: CsvState, fields: nat, b: byte): Move {
    match state
    case FieldStart =>
      if b == QUOTE then Go(Quoted, fields) else if b == COMMA then NextField(c, fields)
      else if IsNewline(b) then Newline else Go(Unquoted, fields)
    case Unquoted =>
      if b == COMMA then NextField(c, fields) else if b == QUOTE then Reject(BadCsv)
      else if IsNewline(b) then Newline else Go(Unquoted, fields)
    case Quoted => if b == QUOTE then Go(QuoteClosed, fields) else Go(Quoted, fields)
    case QuoteClosed =>
      if b == QUOTE then Go(Quoted, fields) else if b == COMMA then NextField(c, fields)
      else if IsNewline(b) then Newline else Reject(BadCsv)
  }

  datatype CsvEnd = AtNewline(at: nat) | Open(state: CsvState, fields: nat) | Bad(error: Error)

  function CsvScan(c: Config, p: Bytes, i: nat, state: CsvState, fields: nat): (end: CsvEnd)
    requires i <= |p|
    ensures end.AtNewline? ==> i <= end.at < |p| && IsNewline(p[end.at])
    decreases |p| - i
  {
    if i == |p| then Open(state, fields)
    else
      match CsvMove(c, state, fields, p[i])
      case Go(state', fields') => CsvScan(c, p, i + 1, state', fields')
      case Newline => AtNewline(i)
      case Reject(e) => Bad(e)
  }

  function CsvRecordScan(c: Config, p: Bytes): CsvEnd {
    CsvScan(c, p, 0, FieldStart, 1)
  }

  /** Whether the separator at `at` is complete: a final CR may still be followed by LF. */
  predicate BoundaryKnown(p: Bytes, at: nat, eof: bool)
    requires at < |p|
  {
    p[at] == LF || at + 1 < |p| || eof
  }

  function SeparatorEnd(p: Bytes, at: nat): (n: nat)
    requires at < |p|
    ensures at < n <= |p| && n <= at + 2
  {
    if p[at] != LF && at + 1 < |p| && p[at + 1] == LF then at + 2 else at + 1
  }

  // ---- the next record of a buffer ---------------------------------------------------------

  datatype Scan = Emit(record: Record, consumed: nat) | Skip(consumed: nat) | Fail(error: Error) | Wait

  function NextLine(c: Config, p: Bytes): Scan {
    var end := FirstLf(p);
    if end == |p| then Wait
    else
      var record := LineRecord(p, end);
      if |record.payload| > c.maxRecord then Fail(TooLarge)
      else if !c.utf8(record.payload) then Fail(BadEncoding)
      else Emit(record, end + 1)
  }

  function NextCsv(c: Config, p: Bytes, eof: bool): Scan {
    match CsvRecordScan(c, p)
    case Bad(e) => Fail(e)
    case Open(_, _) => Wait
    case AtNewline(at) =>
      if !BoundaryKnown(p, at, eof) then Wait
      else if at == 0 then Skip(SeparatorEnd(p, at))
      else if c.csvCheck(p[..at]).Some? then Fail(c.csvCheck(p[..at]).value)
      else if !c.utf8(p[..at]) then Fail(BadEncoding)
      else if at > c.maxRecord then Fail(TooLarge)
      else Emit(Record(p[..at], p[at..SeparatorEnd(p, at)]), SeparatorEnd(p, at))
  }

  function Next(c: Config, p: Bytes, eof: bool): (s: Scan)
    ensures s.Emit? ==> 0 < s.consumed <= |p| && s.record.payload + s.record.separator == p[..s.consumed]
    ensures s.Emit? ==> |s.record.payload| <= c.maxRecord && s.record.separator != []
    ensures s.Skip? ==> 0 < s.consumed <= |p|
  {
    if c.format.Line? then NextLine(c, p) else NextCsv(c, p, eof)
  }

  // ---- draining a buffer -------------------------------------------------------------------

  /** The records taken out of a buffer, and what is left in it or the error that stopped it. */
  datatype Fed = Fed(records: seq<Record>, rest: Result<Bytes, Error>)

  function Prepend(records: seq<Record>, f: Fed): Fed {
    Fed(records + f.records, f.rest)
  }

  /** `limited`: a buffer that holds no complete record may not exceed the record limit. */
  function Drain(c: Config, p: Bytes, limited: bool): Fed
    decreases |p|
  {
    match Next(c, p, false)
    case Emit(record, n) => Prepend([record], Drain(c, p[n..], limited))
    case Skip(n) => Drain(c, p[n..], limited)
    case Fail(e) => Fed([], Err(e))
    case Wait => if limited && |p| > c.maxRecord then Fed([], Err(TooLarge)) else Fed([], Ok(p))
  }

  function Feed(c: Config, p: Bytes, chunks: seq<Bytes>): Fed
    decreases |chunks|
  {
    if chunks == [] then Fed([], Ok(p))
    else
      var first := Drain(c, p + chunks[0], true);
      if first.rest.Err? then first else Prepend(first.records, Feed(c, first.rest.value, chunks[1..]))
  }

  // ---- the end of the input ------------------------------------------------------------------

  /** All records of an input and the error that ended it, if any. */
  datatype Outcome = Outcome(records: seq<Record>, error: Option<Error>)

  predicate Accepted(o: Outcome) {
    o.error.None?
  }

  /** What `finish` and the final drain make of a drained buffer. */
  function CloseLine(c: Config, p: Bytes, inputSeen: bool): Outcome {
    if |p| > c.maxRecord then Outcome([], Some(TooLarge))
    else if p == [] && inputSeen then Outcome([], None)
    else if !c.utf8(p) then Outcome([], Some(BadEncoding))
    else Outcome([Record(p, [])], None)
  }

  function CloseCsv(c: Config, p: Bytes, emitted: bool): Outcome
    decreases |p|
  {
    match Next(c, p, true)
    case Emit(record, n) => Outcome([record], None)
    case Skip(n) => if emitted then Outcome([], None) else Outcome([], Some(BadCsv))
    case Fail(e) => Outcome([], Some(e))
    case Wait =>
      if |p| > c.maxRecord then Outcome([], Some(TooLarge))
      else if CsvRecordScan(c, p).Open? && CsvRecordScan(c, p).state.Quoted? then Outcome([], Some(BadCsv))
      else if p == [] then (if emitted then Outcome([], None) else Outcome([], Some(BadCsv)))
      else if c.csvCheck(p).Some? then Outcome([], Some(c.csvCheck(p).value))
      else if !c.utf8(p) then Outcome([], Some(BadEncoding))
      else Outcome([Record(p, [])], None)
  }

  function Close(c: Config, p: Bytes, inputSeen: bool, emitted: bool): Outcome {
    if c.format.Line? then CloseLine(c, p, inputSeen) else CloseCsv(c, p, emitted)
  }

  /** `emitted`: whether records were taken out before those of `f`. */
  function Finish(c: Config, f: Fed, inputSeen: bool, emitted: bool): Outcome {
    match f.rest
    case Err(e) => Outcome(f.records, Some(e))
    case Ok(p) =>
      var last := Close(c, p, inputSeen, emitted || f.records != []);
      Outcome(f.records + last.records, last.error)
  }

  function RunAll(c: Config, chunks: seq<Bytes>): Outcome {
    Finish(c, Feed(c, [], chunks), Flatten(chunks) != [], false)
  }

  /** The one-shot reading: split the whole input, with no buffer to overflow. */
  function Whole(c: Config, input: Bytes): Outcome {
    Finish(c, Drain(c, input, false), input != [], false)
  }

  // ---- where a run can depart from the one-shot reading ----------------------------------------

  /** The next record of `p` is over the limit however the input was cut. */
  predicate OverflowsAnyway(c: Config, p: Bytes) {
    || Next(c, p, false) == Fail(TooLarge)
    || (Next(c, p, false).Wait? && (Next(c, p, true).Wait? || Next(c, p, true) == Fail(TooLarge)))
  }

  /**
   Some record still waits for input after `maxRecord + 1` bytes, so that a cut there overflows the buffer,
   although the one-shot reading does not find it too large: it accepts it or refuses it for another reason.
   */
  predicate Fragile(c: Config, p: Bytes)
    decreases |p|
  {
    || (|p| > c.maxRecord && Next(c, p[..c.maxRecord + 1], false).Wait? && !OverflowsAnyway(c, p))
    || (match Next(c, p, false)
        case Emit(_, n) => Fragile(c, p[n..])
        case Skip(n) => Fragile(c, p[n..])
        case _ => false)
  }
}
