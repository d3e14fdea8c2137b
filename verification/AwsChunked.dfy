/**
 The aws-chunked payload coding (AWS Signature Version 4, "Transferring Payload in Multiple Chunks",
 Amazon S3 API Reference), as a machine that consumes one byte at a time. Hashing, HMAC, UTF-8
 validity and whitespace trimming are abstract functions of byte sequences.
 */
module AwsChunked {
  import opened Common
  import opened Streams

  const CR: byte := 13
  const LF: byte := 10
  const SEMICOLON: byte := 59
  const COLON: byte := 58
  const CRLF: Bytes := [CR, LF]
  /** `chunk-signature=` */
  const SIGNATURE_PREFIX: Bytes := [99, 104, 117, 110, 107, 45, 115, 105, 103, 110, 97, 116, 117, 114, 101, 61]
  /** `x-amz-trailer-signature` */
  const TRAILER_SIGNATURE: Bytes := [120, 45, 97, 109, 122, 45, 116, 114, 97, 105, 108, 101, 114, 45, 115, 105, 103,
    110, 97, 116, 117, 114, 101]

  const MAX_CHUNK_HEADER_BYTES: nat := 8192
  const MAX_TRAILER_LINE_BYTES: nat := 8192
  const MAX_TRAILER_BYTES: nat := 16384
  const MAX_TRAILERS: nat := 16
  const MAX_CHUNKS: nat := 100_000
  const MAX_CHUNK_BYTES: nat := 16_777_216

  datatype Error =
    | Framing(message: string) | Oversized | DecodedLengthMismatch | InvalidPayloadHash | SignatureMismatch
    | TrailingData | Truncated | MissingChecksum | ConflictingChecksum
    | DuplicateTrailer(name: Bytes)

  type U64 = n: nat | n <= U64_MAX

  datatype Mode = Signed | SignedTrailer | UnsignedTrailer

  /** `chunkSignature(previous, body)` and `trailerSignature(previous, name, value)` are lower-case hex. */
  datatype Config = Config(
    mode: Mode,
    seed: Bytes,
    expectedLength: U64,
    declaredTrailer: Option<Bytes>,
    utf8: Bytes -> bool,
    trimmed: Bytes -> bool,
    chunkSignature: (Bytes, Bytes) -> Bytes,
    trailerSignature: (Bytes, Bytes, Bytes) -> Bytes)

  datatype Phase = Header | Data | DataCrlf(matched: nat) | FinalCrlf(matched: nat) | Trailers | Done

  datatype St = St(
    phase: Phase,
    line: Bytes,
    remaining: nat,
    chunk: Bytes,
    expectedSignature: Option<Bytes>,
    previousSignature: Bytes,
    decoded: nat,
    chunks: nat,
    trailerBytes: nat,
    trailerCount: nat,
    checksumTrailer: Option<(Bytes, Bytes)>,
    trailerSignature: Option<Bytes>)

  function Init(c: Config): St {
    St(Header, [], 0, [], None, c.seed, 0, 0, 0, 0, None, None)
  }

  // ---- parsing lines ---------------------------------------------------------------------

  predicate IsHex(b: byte) {
    48 <= b <= 57 || 65 <= b <= 70 || 97 <= b <= 102
  }

  predicate AllHex(s: Bytes) {
    forall i :: 0 <= i < |s| ==> IsHex(s[i])
  }

  function Lower(b: byte): byte {
    if 65 <= b <= 90 then b + 32 else b
  }

  function Lowercase(s: Bytes): Bytes {
    seq(|s|, i requires 0 <= i < |s| => Lower(s[i]))
  }

  function HexDigit(b: byte): nat
    requires IsHex(b)
  {
    if b <= 57 then (b - 48) as nat else if b <= 70 then (b - 55) as nat else (b - 87) as nat
  }

  function HexValue(s: Bytes): nat
    requires AllHex(s)
  {
    if s == [] then 0 else HexValue(s[..|s| - 1]) * 16 + HexDigit(s[|s| - 1])
  }

  /** The position of the first occurrence of `b`, or the length. */
  function IndexOf(s: Bytes, b: byte): (n: nat)
    ensures n <= |s|
    ensures n < |s| ==> s[n] == b
    ensures forall i :: 0 <= i < n ==> s[i] != b
  {
    if s == [] then 0 else if s[0] == b then 0 else 1 + IndexOf(s[1..], b)
  }

  predicate IsSha256(s: Bytes) {
    |s| == 64 && AllHex(s)
  }

  /** The size a chunk header line announces: the 1 to 16 hex digits before the first semicolon. */
  function ParseSize(c: Config, line: Bytes): Result<nat, Error> {
    var digits := line[..IndexOf(line, SEMICOLON)];
    if !c.utf8(line) then Err(Framing("non-ASCII header"))
    else if digits == [] || |digits| > 16 || !AllHex(digits) then Err(Framing("invalid chunk size"))
    else if HexValue(digits) > MAX_CHUNK_BYTES then Err(Oversized)
    else Ok(HexValue(digits))
  }

  /** The chunk signature, in the modes that sign chunks; no extension is allowed in the other. */
  function ParseExtension(c: Config, line: Bytes): Result<Option<Bytes>, Error> {
    var cut := IndexOf(line, SEMICOLON);
    if c.mode.UnsignedTrailer? then
      if cut < |line| then Err(Framing("unexpected chunk extension")) else Ok(None)
    else if cut == |line| || !(SIGNATURE_PREFIX <= line[cut + 1..]) then Err(Framing("missing chunk signature"))
    else
      var signature := line[cut + 1..][|SIGNATURE_PREFIX|..];
      if IsSha256(signature) then Ok(Some(Lowercase(signature))) else Err(InvalidPayloadHash)
  }

  /** What `start_chunk` does once the header line is read. */
  function OpenChunk(c: Config, st: St, size: nat, signature: Option<Bytes>): Result<St, Error> {
    var st' := st.(chunks := st.chunks + 1, remaining := size, chunk := [],
                   expectedSignature := if signature.Some? then signature else st.expectedSignature);
    if size == 0 then
      match VerifyChunk(c, st')
      case Err(e) => Err(e)
      case Ok(st'') => Ok(st''.(phase := if c.mode.Signed? then FinalCrlf(0) else Trailers))
    else if st.decoded + size > U64_MAX || st.decoded + size > c.expectedLength then Err(DecodedLengthMismatch)
    else Ok(st'.(decoded := st.decoded + size, phase := Data))
  }

  function StartChunk(c: Config, st: St, line: Bytes): Result<St, Error> {
    match ParseSize(c, line)
    case Err(e) => Err(e)
    case Ok(size) =>
      if st.chunks + 1 > MAX_CHUNKS then Err(Oversized)
      else
        match ParseExtension(c, line)
        case Err(e) => Err(e)
        case Ok(signature) => OpenChunk(c, st, size, signature)
  }

  function VerifyChunk(c: Config, st: St): Result<St, Error> {
    if st.expectedSignature.None? then Ok(st)
    else if c.chunkSignature(st.previousSignature, st.chunk) != st.expectedSignature.value then Err(SignatureMismatch)
    else Ok(st.(previousSignature := st.expectedSignature.value, expectedSignature := None))
  }

  predicate IsTrailerName(s: Bytes) {
    s != [] && forall i :: 0 <= i < |s| ==> 97 <= s[i] <= 122 || 48 <= s[i] <= 57 || s[i] == 45
  }

  function ParseTrailer(c: Config, st: St, line: Bytes): Result<St, Error> {
    if st.trailerCount + 1 > MAX_TRAILERS then Err(Oversized)
    else if !c.utf8(line) then Err(Framing("non-ASCII trailer"))
    else
      var cut := IndexOf(line, COLON);
      if cut == |line| then Err(Framing("malformed trailer"))
      else
        var name, value := line[..cut], line[cut + 1..];
        var st' := st.(trailerCount := st.trailerCount + 1);
        if !IsTrailerName(name) || !c.trimmed(value) then Err(Framing("non-canonical trailer"))
        else if name == TRAILER_SIGNATURE then
          if st.trailerSignature.Some? || st.checksumTrailer.None? then Err(DuplicateTrailer(name))
          else if !IsSha256(value) then Err(InvalidPayloadHash)
          else Ok(st'.(trailerSignature := Some(Lowercase(value))))
        else if st.checksumTrailer.Some? then Err(DuplicateTrailer(name))
        else if c.declaredTrailer != Some(name) then Err(ConflictingChecksum)
        else Ok(st'.(checksumTrailer := Some((name, value))))
  }

  function VerifyTrailers(c: Config, st: St): Option<Error> {
    if st.checksumTrailer.None? then Some(MissingChecksum)
    else if c.mode.SignedTrailer? then
      if st.trailerSignature.None? then Some(Framing("missing trailer signature"))
      else if c.trailerSignature(st.previousSignature, st.checksumTrailer.value.0, st.checksumTrailer.value.1) !=
        st.trailerSignature.value
      then Some(SignatureMismatch)
      else None
    else if st.trailerSignature.Some? then Some(Framing("unexpected trailer signature"))
    else None
  }

  /** A complete trailer line; the empty one ends the stream. */
  function TrailerLine(c: Config, st: St, line: Bytes): Result<St, Error> {
    var st' := st.(trailerBytes := st.trailerBytes + |line| + 2);
    if st'.trailerBytes > MAX_TRAILER_BYTES then Err(Oversized)
    else if line == [] then
      match VerifyTrailers(c, st')
      case Some(e) => Err(e)
      case None => Ok(st'.(phase := Done))
    else ParseTrailer(c, st', line)
  }

  // ---- one byte at a time ------------------------------------------------------------------

  datatype Took = Got(line: Bytes) | More(buffer: Bytes) | TooLong

  predicate EndsWithCrlf(s: Bytes) {
    |s| >= 2 && s[|s| - 2..] == CRLF
  }

  /** One byte of `take_line`. */
  function TakeByte(buffer: Bytes, b: byte, limit: nat): Took {
    var next := buffer + [b];
    if EndsWithCrlf(next) then Got(next[..|next| - 2])
    else if |next| > limit && (|next| != limit + 1 || b != CR) then TooLong
    else More(next)
  }

  datatype Ran = Ran(st: St, output: Bytes)

  function Quiet(r: Result<St, Error>): Result<Ran, Error> {
    match r
    case Ok(st) => Ok(Ran(st, []))
    case Err(e) => Err(e)
  }

  function LineLimit(phase: Phase): nat {
    if phase.Header? then MAX_CHUNK_HEADER_BYTES else MAX_TRAILER_LINE_BYTES
  }

  /** A complete line, in the two states that read lines. */
  function ActOnLine(c: Config, st: St, line: Bytes): Result<St, Error> {
    if st.phase.Header? then StartChunk(c, st.(line := []), line) else TrailerLine(c, st.(line := []), line)
  }

  function StepLine(c: Config, st: St, b: byte): Result<Ran, Error> {
    match TakeByte(st.line, b, LineLimit(st.phase))
    case Got(line) => Quiet(ActOnLine(c, st, line))
    case More(buffer) => Ok(Ran(st.(line := buffer), []))
    case TooLong => Err(Oversized)
  }

  function Step(c: Config, st: St, b: byte): Result<Ran, Error> {
    match st.phase
    case Header => StepLine(c, st, b)
    case Trailers => StepLine(c, st, b)
    case Data =>
      if st.remaining == 0 then Err(Framing("chunk without data"))
      else
        var st' := st.(chunk := st.chunk + [b], remaining := st.remaining - 1);
        if st'.remaining > 0 then Ok(Ran(st', [b]))
        else
          (match VerifyChunk(c, st')
           case Err(e) => Err(e)
           case Ok(st'') => Ok(Ran(st''.(phase := DataCrlf(0)), [b])))
    case DataCrlf(m) =>
      if b != (if m == 0 then CR else LF) then Err(Framing("chunk data lacks CRLF"))
      else Ok(Ran(st.(phase := if m == 0 then DataCrlf(1) else Header), []))
    case FinalCrlf(m) =>
      if b != (if m == 0 then CR else LF) then Err(Framing("final chunk lacks CRLF"))
      else Ok(Ran(st.(phase := if m == 0 then FinalCrlf(1) else Done), []))
    case Done => Err(TrailingData)
  }

  function After(output: Bytes, r: Result<Ran, Error>): Result<Ran, Error> {
    match r
    case Ok(ran) => Ok(Ran(ran.st, output + ran.output))
    case Err(e) => Err(e)
  }

  /** The effect of a whole input: the first error, or the final state with everything decoded. */
  function Run(c: Config, st: St, input: Bytes): Result<Ran, Error>
    decreases |input|
  {
    if input == [] then Ok(Ran(st, []))
    else
      match Step(c, st, input[0])
      case Err(e) => Err(e)
      case Ok(ran) => After(ran.output, Run(c, ran.st, input[1..]))
  }

  function Finish(c: Config, st: St): Option<Error> {
    if !st.phase.Done? then Some(Truncated)
    else if st.decoded != c.expectedLength then Some(DecodedLengthMismatch)
    else None
  }

  /** What a run over `input` from a new decoder, followed by the final check, yields. */
  function Decode(c: Config, input: Bytes): Result<Bytes, Error> {
    match Run(c, Init(c), input)
    case Err(e) => Err(e)
    case Ok(ran) => if Finish(c, ran.st).Some? then Err(Finish(c, ran.st).value) else Ok(ran.output)
  }

  // ---- partition independence --------------------------------------------------------------

  lemma {:induction false} AfterTwice(a: Bytes, b: Bytes, r: Result<Ran, Error>)
    ensures After(a, After(b, r)) == After(a + b, r)
  {
    if r.Ok? { assert a + (b + r.value.output) == a + b + r.value.output; }
  }

  lemma {:induction false} AfterNothing(r: Result<Ran, Error>)
    ensures After([], r) == r
  {
    if r.Ok? { assert [] + r.value.output == r.value.output; }
  }

  /** Consuming two pieces is consuming their concatenation. */
  lemma {:induction false} RunJoins(c: Config, st: St, a: Bytes, b: Bytes)
    ensures Run(c, st, a + b) ==
            match Run(c, st, a)
            case Err(e) => Err(e)
            case Ok(ran) => After(ran.output, Run(c, ran.st, b))
    decreases |a|
  {
    hide Step;
    if a == [] {
      assert [] + b == b;
      AfterNothing(Run(c, st, b));
    } else {
      assert (a + b)[1..] == a[1..] + b;
      var step := Step(c, st, a[0]);
      if step.Ok? {
        RunJoins(c, step.value.st, a[1..], b);
        var first := Run(c, step.value.st, a[1..]);
        if first.Ok? { AfterTwice(step.value.output, first.value.output, Run(c, first.value.st, b)); }
      }
    }
  }

  /** Pushing pieces one after the other, stopping at the first error. */
  function RunAll(c: Config, st: St, pieces: seq<Bytes>): Result<Ran, Error>
    decreases |pieces|
  {
    if pieces == [] then Ok(Ran(st, []))
    else
      match Run(c, st, pieces[0])
      case Err(e) => Err(e)
      case Ok(ran) => After(ran.output, RunAll(c, ran.st, pieces[1..]))
  }

  /** Any split of a stream into pushes gives the same first error, or the same final state and output. */
  lemma {:induction false} PartitionIndependent(c: Config, st: St, pieces: seq<Bytes>)
    ensures RunAll(c, st, pieces) == Run(c, st, Flatten(pieces))
    decreases |pieces|
  {
    if pieces != [] {
      RunJoins(c, st, pieces[0], Flatten(pieces[1..]));
      var first := Run(c, st, pieces[0]);
      if first.Ok? { PartitionIndependent(c, first.value.st, pieces[1..]); }
    }
  }

  // ---- lines -------------------------------------------------------------------------------

  predicate CrlfAt(s: Bytes, i: nat) {
    i + 1 < |s| && s[i] == CR && s[i + 1] == LF
  }

  /** Where the first CRLF starts, or the length when there is none. */
  function FirstCrlf(s: Bytes): (n: nat)
    ensures n <= |s|
    ensures n < |s| ==> CrlfAt(s, n)
    ensures forall i :: 0 <= i < n ==> !CrlfAt(s, i)
  {
    if s == [] then 0 else if CrlfAt(s, 0) then 0
    else
      var n := FirstCrlf(s[1..]);
      assert forall i :: 0 < i < |s| ==> CrlfAt(s, i) == CrlfAt(s[1..], i - 1);
      1 + n
  }

  datatype Taken = Line(line: Bytes, rest: Bytes) | Partial(buffer: Bytes) | Long

  /** `take_line` run until a line is complete, the input is used up or the limit is passed. */
  function Take(buffer: Bytes, input: Bytes, limit: nat): Taken
    decreases |input|
  {
    if input == [] then Partial(buffer)
    else
      match TakeByte(buffer, input[0], limit)
      case Got(line) => Line(line, input[1..])
      case More(next) => Take(next, input[1..], limit)
      case TooLong => Long
  }

  /** What may be left in the buffer between pushes: at most `limit + 1` bytes, and no complete line. */
  predicate Buffered(buffer: Bytes, limit: nat) {
    && FirstCrlf(buffer) == |buffer|
    && (|buffer| <= limit || (|buffer| == limit + 1 && buffer[limit] == CR))
  }

  /**
   Whatever was buffered before, a line is accepted exactly when the first CRLF comes after at most
   `limit` bytes; without a CRLF the bytes stay buffered exactly while a line of `limit` bytes is possible.
   */
  lemma {:induction false} TakeExactly(buffer: Bytes, input: Bytes, limit: nat)
    requires Buffered(buffer, limit)
    ensures var all := buffer + input;
            var k := FirstCrlf(all);
            Take(buffer, input, limit) ==
            if k < |all| then (if k <= limit then Line(all[..k], all[k + 2..]) else Long)
            else if Buffered(all, limit) then Partial(all) else Long
    decreases |input|
  {
    if input == [] {
      assert buffer + input == buffer;
    } else {
      var next := buffer + [input[0]];
      assert next + input[1..] == buffer + input;
      TakeByteExactly(buffer, input[0], limit);
      if TakeByte(buffer, input[0], limit).More? {
        TakeExactly(next, input[1..], limit);
      } else {
        TakeStops(buffer, input, limit);
      }
    }
  }

  lemma {:induction false} TakeByteExactly(buffer: Bytes, b: byte, limit: nat)
    requires Buffered(buffer, limit)
    ensures TakeByte(buffer, b, limit).More? ==>
            TakeByte(buffer, b, limit).buffer == buffer + [b] && Buffered(buffer + [b], limit)
    ensures TakeByte(buffer, b, limit).Got? <==> |buffer| > 0 && CrlfAt(buffer + [b], |buffer| - 1)
  {
    var next := buffer + [b];
    assert forall i :: 0 <= i && CrlfAt(next, i) ==> i == |buffer| - 1 || CrlfAt(buffer, i);
    assert forall i :: 0 <= i < |buffer| ==> !CrlfAt(buffer, i);
    if EndsWithCrlf(next) {
      assert next[|next| - 2..] == CRLF;
      assert next[|next| - 2] == next[|next| - 2..][0] && next[|next| - 1] == next[|next| - 2..][1];
    }
    if |buffer| > 0 && CrlfAt(next, |buffer| - 1) {
      assert next[|next| - 2..] == [next[|next| - 2], next[|next| - 1]];
    }
  }

  lemma {:induction false} TakeStops(buffer: Bytes, input: Bytes, limit: nat)
    requires Buffered(buffer, limit) && input != []
    requires !TakeByte(buffer, input[0], limit).More?
    ensures var all := buffer + input;
            var k := FirstCrlf(all);
            Take(buffer, input, limit) ==
            if k < |all| then (if k <= limit then Line(all[..k], all[k + 2..]) else Long)
            else if Buffered(all, limit) then Partial(all) else Long
  {
    var all := buffer + input;
    var next := buffer + [input[0]];
    TakeByteExactly(buffer, input[0], limit);
    assert forall i :: 0 <= i < |buffer| - 1 ==> CrlfAt(all, i) == CrlfAt(buffer, i);
    assert forall i :: 0 <= i < |buffer| ==> !CrlfAt(buffer, i);
    if TakeByte(buffer, input[0], limit).Got? {
      assert CrlfAt(all, |buffer| - 1);
      assert FirstCrlf(all) == |buffer| - 1;
      assert next[..|next| - 2] == all[..|buffer| - 1];
      assert input[1..] == all[|buffer| + 1..];
    } else {
      assert |buffer| > 0 ==> CrlfAt(next, |buffer| - 1) == CrlfAt(all, |buffer| - 1);
      assert forall i :: 0 <= i < |buffer| ==> !CrlfAt(all, i);
      assert FirstCrlf(all) >= |buffer|;
      if |buffer| == limit {
        assert input[0] != CR;
        assert !CrlfAt(all, limit);
        assert FirstCrlf(all) > limit;
      }
    }
  }

  // ---- whole pieces at once ----------------------------------------------------------------

  function Resume(c: Config, r: Result<St, Error>, rest: Bytes): Result<Ran, Error> {
    match r
    case Err(e) => Err(e)
    case Ok(st) => Run(c, st, rest)
  }

  function AfterTake(c: Config, st: St, taken: Taken): Result<Ran, Error> {
    match taken
    case Long => Err(Oversized)
    case Partial(buffer) => Ok(Ran(st.(line := buffer), []))
    case Line(line, rest) => Resume(c, ActOnLine(c, st, line), rest)
  }

  /** In a line state the machine does nothing but take a line and act on it. */
  lemma {:induction false} RunTakes(c: Config, st: St, input: Bytes)
    requires st.phase.Header? || st.phase.Trailers?
    ensures Run(c, st, input) == AfterTake(c, st, Take(st.line, input, LineLimit(st.phase)))
    decreases |input|
  {
    hide ActOnLine, TakeByte, Step;
    if input != [] {
      RunLineByte(c, st, input);
      var took := TakeByte(st.line, input[0], LineLimit(st.phase));
      if took.More? {
        var st' := st.(line := took.buffer);
        RunTakes(c, st', input[1..]);
        var taken := Take(st'.line, input[1..], LineLimit(st.phase));
        if taken.Line? { LineIsReset(c, st, took.buffer, taken.line); }
      }
    }
  }

  lemma {:induction false} LineIsReset(c: Config, st: St, buffer: Bytes, text: Bytes)
    ensures ActOnLine(c, st.(line := buffer), text) == ActOnLine(c, st, text)
  {
    hide StartChunk, TrailerLine;
    assert st.(line := buffer).(line := []) == st.(line := []);
  }

  function AfterByte(c: Config, st: St, took: Took, rest: Bytes): Result<Ran, Error> {
    match took
    case Got(line) => Resume(c, ActOnLine(c, st, line), rest)
    case More(buffer) => Run(c, st.(line := buffer), rest)
    case TooLong => Err(Oversized)
  }

  lemma {:induction false} RunLineByte(c: Config, st: St, input: Bytes)
    requires st.phase.Header? || st.phase.Trailers?
    requires input != []
    ensures Run(c, st, input) == AfterByte(c, st, TakeByte(st.line, input[0], LineLimit(st.phase)), input[1..])
  {
    hide ActOnLine, TakeByte, After;
    assert Step(c, st, input[0]) == StepLine(c, st, input[0]);
    var step := Step(c, st, input[0]);
    if step.Ok? {
      AfterNothing(Run(c, step.value.st, input[1..]));
    }
  }

  /** The state after a chunk's last byte. */
  function CloseChunk(c: Config, st: St): Result<St, Error> {
    match VerifyChunk(c, st)
    case Err(e) => Err(e)
    case Ok(st') => Ok(st'.(phase := DataCrlf(0)))
  }

  lemma {:induction false} StepPart(c: Config, st: St, b: byte)
    requires st.phase.Data? && st.remaining > 1
    ensures Step(c, st, b) == Ok(Ran(st.(chunk := st.chunk + [b], remaining := st.remaining - 1), [b]))
  {
    hide VerifyChunk, StepLine;
  }

  /** In the data state a slice that does not end the chunk passes through. */
  lemma {:induction false} RunPart(c: Config, st: St, input: Bytes)
    requires st.phase.Data? && |input| < st.remaining
    ensures Run(c, st, input) == Ok(Ran(st.(chunk := st.chunk + input, remaining := st.remaining - |input|), input))
    decreases |input|
  {
    hide Step;
    if input == [] {
      assert st.chunk + input == st.chunk;
    } else {
      var st' := st.(chunk := st.chunk + [input[0]], remaining := st.remaining - 1);
      StepPart(c, st, input[0]);
      RunPart(c, st', input[1..]);
      assert st'.chunk + input[1..] == st.chunk + input;
      assert [input[0]] + input[1..] == input;
    }
  }

  /** The rest of a chunk passes through whole, and then the chunk is closed. */
  lemma {:induction false} RunBody(c: Config, st: St, body: Bytes, rest: Bytes)
    requires st.phase.Data? && |body| == st.remaining > 0
    ensures Run(c, st, body + rest) ==
            After(body, Resume(c, CloseChunk(c, st.(chunk := st.chunk + body, remaining := 0)), rest))
  {
    hide VerifyChunk, CloseChunk, Step;
    var init, last := body[..|body| - 1], body[|body| - 1];
    RunPart(c, st, init);
    assert body + rest == init + ([last] + rest);
    RunJoins(c, st, init, [last] + rest);
    var st' := st.(chunk := st.chunk + init, remaining := 1);
    RunLast(c, st', last, rest);
    assert st'.chunk + [last] == st.chunk + body;
    assert init + [last] == body;
    AfterTwice(init, [last], Resume(c, CloseChunk(c, st.(chunk := st.chunk + body, remaining := 0)), rest));
  }

  lemma {:induction false} RunLast(c: Config, st: St, b: byte, rest: Bytes)
    requires st.phase.Data? && st.remaining == 1
    ensures Run(c, st, [b] + rest) == After([b],
            Resume(c, CloseChunk(c, st.(chunk := st.chunk + [b], remaining := 0)), rest))
  {
    hide VerifyChunk;
    assert ([b] + rest)[1..] == rest;
  }

  function EndOfLine(phase: Phase, matched: nat): Phase
    requires phase.DataCrlf? || phase.FinalCrlf?
  {
    if phase.DataCrlf? then (if matched == 2 then Header else DataCrlf(matched))
    else if matched == 2 then Done
    else FinalCrlf(matched)
  }

  function CrlfError(phase: Phase): Error {
    if phase.DataCrlf? then Framing("chunk data lacks CRLF") else Framing("final chunk lacks CRLF")
  }

  lemma {:induction false} CrlfByte(c: Config, st: St, input: Bytes)
    requires st.phase.DataCrlf? || st.phase.FinalCrlf?
    requires st.phase.matched < 2
    requires input != []
    ensures var m := st.phase.matched;
            Run(c, st, input) ==
            if input[0] != (if m == 0 then CR else LF) then Err(CrlfError(st.phase))
            else Run(c, st.(phase := EndOfLine(st.phase, m + 1)), input[1..])
  {
    hide After, StepLine;
    var step := Step(c, st, input[0]);
    if step.Ok? { AfterNothing(Run(c, step.value.st, input[1..])); }
  }
}
