/**
 What the decoder accepts, said without a machine: a stream is a list of framed chunks whose signatures
 chain from the seed, a zero-size chunk, and in trailer modes one checksum trailer with its signature.
 */
module AwsChunkedStream {
  import opened Common
  import opened AwsChunked

  datatype Frame = Frame(header: Bytes, body: Bytes)
  datatype Trailer = Trailer(name: Bytes, value: Bytes, signature: Option<Bytes>)
  datatype Stream = Stream(frames: seq<Frame>, last: Bytes, trailer: Option<Trailer>)

  function EncodeFrames(frames: seq<Frame>): Bytes {
    if frames == [] then [] else frames[0].header + CRLF + (frames[0].body + CRLF + EncodeFrames(frames[1..]))
  }

  function ChecksumLine(t: Trailer): Bytes {
    t.name + [COLON] + t.value
  }

  function SignatureLine(signature: Bytes): Bytes {
    TRAILER_SIGNATURE + [COLON] + signature
  }

  function EncodeTrailer(trailer: Option<Trailer>): Bytes {
    if trailer.None? then CRLF
    else ChecksumLine(trailer.value) + CRLF + EncodeSignature(trailer.value.signature)
  }

  function EncodeSignature(signature: Option<Bytes>): Bytes {
    if signature.None? then CRLF else SignatureLine(signature.value) + CRLF + CRLF
  }

  function Encode(s: Stream): Bytes {
    EncodeFrames(s.frames) + (s.last + CRLF + EncodeTrailer(s.trailer))
  }

  function Bodies(frames: seq<Frame>): Bytes {
    if frames == [] then [] else frames[0].body + Bodies(frames[1..])
  }

  /** A header line that announces `body` and, where chunks are signed, carries its signature. */
  predicate Announces(c: Config, previous: Bytes, header: Bytes, body: Bytes) {
    && |header| <= MAX_CHUNK_HEADER_BYTES
    && ParseSize(c, header) == Ok(|body|)
    && ParseExtension(c, header).Ok?
    && var signature := ParseExtension(c, header).value;
       signature.Some? ==> signature.value == c.chunkSignature(previous, body)
  }

  /** The signature the next chunk is chained to. */
  function SignatureOf(c: Config, previous: Bytes, header: Bytes): Bytes {
    var signature := ParseExtension(c, header);
    if signature.Ok? && signature.value.Some? then signature.value.value else previous
  }

  predicate Chained(c: Config, previous: Bytes, frames: seq<Frame>)
    decreases |frames|
  {
    frames == [] ||
    (frames[0].body != [] && Announces(c, previous, frames[0].header, frames[0].body) &&
     Chained(c, SignatureOf(c, previous, frames[0].header), frames[1..]))
  }

  function LastSignature(c: Config, previous: Bytes, frames: seq<Frame>): Bytes
    decreases |frames|
  {
    if frames == [] then previous else LastSignature(c, SignatureOf(c, previous, frames[0].header), frames[1..])
  }

  predicate OneLine(s: Bytes, limit: nat) {
    |s| <= limit && FirstCrlf(s) == |s|
  }

  predicate ChecksumOk(c: Config, t: Trailer) {
    && IsTrailerName(t.name) && t.name != TRAILER_SIGNATURE && c.declaredTrailer == Some(t.name)
    && c.trimmed(t.value) && c.utf8(ChecksumLine(t)) && OneLine(ChecksumLine(t), MAX_TRAILER_LINE_BYTES)
  }

  predicate SignatureOk(c: Config, previous: Bytes, t: Trailer) {
    && (t.signature.Some? <==> c.mode.SignedTrailer?)
    && (t.signature.Some? ==>
          && IsSha256(t.signature.value)
          && c.trimmed(t.signature.value) && c.utf8(SignatureLine(t.signature.value))
          && Lowercase(t.signature.value) == c.trailerSignature(previous, t.name, t.value))
  }

  /** A well-formed stream whose signatures chain from `previous`. */
  predicate WellFormed(c: Config, previous: Bytes, s: Stream) {
    var last := LastSignature(c, previous, s.frames);
    && Chained(c, previous, s.frames)
    && Announces(c, last, s.last, [])
    && (s.trailer.None? <==> c.mode.Signed?)
    && (s.trailer.Some? ==>
          && ChecksumOk(c, s.trailer.value)
          && SignatureOk(c, SignatureOf(c, last, s.last), s.trailer.value))
  }

  // ---- the states at line boundaries ---------------------------------------------------------

  function AtHeader(previous: Bytes, decoded: nat, chunks: nat, chunk: Bytes): St {
    St(Header, [], 0, chunk, None, previous, decoded, chunks, 0, 0, None, None)
  }

  function AtTrailer(previous: Bytes, decoded: nat, chunks: nat): St {
    St(Trailers, [], 0, [], None, previous, decoded, chunks, 0, 0, None, None)
  }

  function AtFinal(previous: Bytes, decoded: nat, chunks: nat): St {
    St(FinalCrlf(0), [], 0, [], None, previous, decoded, chunks, 0, 0, None, None)
  }

  // ---- lines ---------------------------------------------------------------------------------

  lemma {:induction false} LineFound(line: Bytes, rest: Bytes)
    requires FirstCrlf(line) == |line|
    ensures FirstCrlf(line + CRLF + rest) == |line|
    ensures (line + CRLF + rest)[..|line|] == line
    ensures (line + CRLF + rest)[|line| + 2..] == rest
  {
    var all := line + CRLF + rest;
    assert all[|line|] == CR && all[|line| + 1] == LF;
    assert CrlfAt(all, |line|);
    forall i | 0 <= i < |line| ensures !CrlfAt(all, i) {
      assert !CrlfAt(line, i);
      if i + 1 < |line| {
        assert all[i] == line[i] && all[i + 1] == line[i + 1];
      } else {
        assert all[i + 1] == CR;
      }
    }
  }

  /** A line within the limit is taken whole. */
  lemma {:induction false} LineRuns(c: Config, st: St, line: Bytes, rest: Bytes)
    requires (st.phase.Header? || st.phase.Trailers?) && st.line == []
    requires OneLine(line, LineLimit(st.phase))
    ensures Run(c, st, line + CRLF + rest) == Resume(c, ActOnLine(c, st, line), rest)
  {
    hide Run, ActOnLine, TakeByte, Take, FirstCrlf;
    var input := line + CRLF + rest;
    var limit := LineLimit(st.phase);
    RunTakes(c, st, input);
    EmptyIsBuffered(limit);
    TakeExactly([], input, limit);
    assert [] + input == input;
    LineFound(line, rest);
  }

  lemma {:induction false} EmptyIsBuffered(limit: nat)
    ensures Buffered([], limit)
  {
  }

  /** A run that ends in the final state takes a whole line from every line state on its way. */
  lemma {:induction false} LineTaken(c: Config, st: St, input: Bytes) returns (line: Bytes, rest: Bytes)
    requires (st.phase.Header? || st.phase.Trailers?) && st.line == []
    requires Run(c, st, input).Ok? && Run(c, st, input).value.st.phase.Done?
    ensures input == line + CRLF + rest
    ensures OneLine(line, LineLimit(st.phase))
    ensures ActOnLine(c, st, line).Ok?
    ensures Run(c, st, input) == Run(c, ActOnLine(c, st, line).value, rest)
  {
    hide Run, ActOnLine, TakeByte, Take, FirstCrlf;
    var limit := LineLimit(st.phase);
    RunTakes(c, st, input);
    EmptyIsBuffered(limit);
    TakeExactly([], input, limit);
    assert [] + input == input;
    var k := FirstCrlf(input);
    line, rest := input[..k], input[k + 2..];
    PrefixIsLine(input, k);
  }

  lemma {:induction false} PrefixIsLine(input: Bytes, k: nat)
    requires k == FirstCrlf(input) < |input|
    ensures k + 2 <= |input|
    ensures input == input[..k] + CRLF + input[k + 2..]
    ensures FirstCrlf(input[..k]) == k
  {
    hide FirstCrlf;
    assert CrlfAt(input, k);
    SplitAtCrlf(input, k);
    var line := input[..k];
    forall i | 0 <= i < k ensures !CrlfAt(line, i) {
      assert !CrlfAt(input, i);
    }
  }

  lemma {:induction false} SplitAtCrlf(input: Bytes, k: nat)
    requires CrlfAt(input, k)
    ensures input == input[..k] + CRLF + input[k + 2..]
  {
    assert input[..k] + CRLF + input[k + 2..] == input[..k] + [input[k], input[k + 1]] + input[k + 2..];
  }

  // ---- headers -------------------------------------------------------------------------------

  lemma {:induction false} NoCrIsOneLine(s: Bytes)
    requires CR !in s
    ensures FirstCrlf(s) == |s|
  {
    hide FirstCrlf;
    assert forall i :: 0 <= i < |s| ==> !CrlfAt(s, i);
  }

  lemma {:induction false} HexHasNoCr(s: Bytes)
    requires AllHex(s)
    ensures CR !in s
  {
  }

  /** A header that parses holds no CR, so it is one line. */
  lemma {:induction false} HeaderIsOneLine(c: Config, header: Bytes)
    requires ParseSize(c, header).Ok? && ParseExtension(c, header).Ok?
    ensures FirstCrlf(header) == |header|
  {
    hide FirstCrlf, HexValue, IndexOf, Lowercase, AllHex;
    var cut := IndexOf(header, SEMICOLON);
    var digits := header[..cut];
    HexHasNoCr(digits);
    if cut == |header| {
      assert digits == header;
    } else {
      var extension := header[cut + 1..];
      var signature := extension[|SIGNATURE_PREFIX|..];
      HexHasNoCr(signature);
      assert extension == SIGNATURE_PREFIX + signature;
      assert header == digits + [SEMICOLON] + extension;
    }
    NoCrIsOneLine(header);
  }
}
