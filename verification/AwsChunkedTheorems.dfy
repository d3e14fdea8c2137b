/**
 The decoder accepts exactly the well-formed streams of the declared length, and yields their bodies.
 */
module AwsChunkedTheorems {
  import opened Common
  import opened AwsChunked
  import opened AwsChunkedStream
  import opened AwsChunkedTrailers

  /** The state after the header of a chunk that has data. */
  function AtData(c: Config, previous: Bytes, decoded: nat, chunks: nat, header: Bytes, size: nat): St
    requires ParseExtension(c, header).Ok?
  {
    St(Data, [], size, [], ParseExtension(c, header).value, previous, decoded + size, chunks + 1, 0, 0, None, None)
  }

  predicate Matches(c: Config, previous: Bytes, header: Bytes, body: Bytes)
    requires ParseExtension(c, header).Ok?
  {
    var signature := ParseExtension(c, header).value;
    signature.Some? ==> signature.value == c.chunkSignature(previous, body)
  }

  /** When a header line is accepted. */
  predicate Opens(c: Config, previous: Bytes, decoded: nat, chunks: nat, header: Bytes) {
    && ParseSize(c, header).Ok? && ParseExtension(c, header).Ok? && chunks + 1 <= MAX_CHUNKS
    && var size := ParseSize(c, header).value;
       if size == 0 then Matches(c, previous, header, []) else decoded + size <= c.expectedLength
  }

  lemma {:induction false} HeaderOpens(c: Config, previous: Bytes, decoded: nat, chunks: nat, chunk: Bytes,
      header: Bytes)
    ensures var r := ActOnLine(c, AtHeader(previous, decoded, chunks, chunk), header);
            && (r.Ok? <==> Opens(c, previous, decoded, chunks, header))
            && (r.Ok? ==>
                  var size := ParseSize(c, header).value;
                  var signature := SignatureOf(c, previous, header);
                  r.value ==
                  if size > 0 then AtData(c, previous, decoded, chunks, header, size)
                  else if c.mode.Signed? then AtFinal(signature, decoded, chunks + 1)
                  else AtTrailer(signature, decoded, chunks + 1))
  {
    hide ParseSize, ParseExtension;
  }

  /** Closing a chunk checks its signature against the chain. */
  lemma {:induction false} ChunkCloses(c: Config, previous: Bytes, decoded: nat, chunks: nat, header: Bytes,
      body: Bytes)
    requires ParseExtension(c, header).Ok? && body != []
    ensures var size := |body|;
            var full := AtData(c, previous, decoded, chunks, header, size).(chunk := [] + body, remaining := 0);
            var r := CloseChunk(c, full);
            && (r.Ok? <==> Matches(c, previous, header, body))
            && (r.Ok? ==> r.value == AtHeader(SignatureOf(c, previous, header), decoded + size, chunks + 1,
               body).(phase := DataCrlf(0)))
  {
    hide ParseExtension;
    assert [] + body == body;
  }

  lemma {:induction false} CrlfRuns(c: Config, st: St, rest: Bytes)
    requires st.phase == DataCrlf(0) || st.phase == FinalCrlf(0)
    ensures Run(c, st, CRLF + rest) == Run(c, st.(phase := EndOfLine(st.phase, 2)), rest)
  {
    hide Run;
    CrlfByte(c, st, CRLF + rest);
    var st' := st.(phase := EndOfLine(st.phase, 1));
    assert (CRLF + rest)[1..] == [LF] + rest;
    CrlfByte(c, st', [LF] + rest);
    assert ([LF] + rest)[1..] == rest;
    assert st'.(phase := EndOfLine(st'.phase, 2)) == st.(phase := EndOfLine(st.phase, 2));
  }

  lemma {:induction false} CrlfTaken(c: Config, st: St, input: Bytes) returns (rest: Bytes)
    requires st.phase == DataCrlf(0) || st.phase == FinalCrlf(0)
    requires Run(c, st, input).Ok? && Run(c, st, input).value.st.phase.Done?
    ensures input == CRLF + rest
    ensures Run(c, st, input) == Run(c, st.(phase := EndOfLine(st.phase, 2)), rest)
  {
    hide Run;
    RunNothing(c, st);
    CrlfByte(c, st, input);
    var st' := st.(phase := EndOfLine(st.phase, 1));
    RunNothing(c, st');
    CrlfByte(c, st', input[1..]);
    rest := input[2..];
    assert input[1..][1..] == rest;
    assert input == [input[0], input[1]] + rest;
    CrlfRuns(c, st, rest);
  }

  lemma {:induction false} RunNothing(c: Config, st: St)
    ensures Run(c, st, []) == Ok(Ran(st, []))
  {
  }

  // ---- one frame -----------------------------------------------------------------------------

  /** A well-formed frame yields its body and leaves the decoder before the next header. */
  lemma {:induction false} FrameRuns(c: Config, previous: Bytes, decoded: nat, chunks: nat, chunk: Bytes, frame: Frame,
      rest: Bytes)
    requires frame.body != [] && Announces(c, previous, frame.header, frame.body)
    requires chunks + 1 <= MAX_CHUNKS && decoded + |frame.body| <= c.expectedLength
    ensures Run(c, AtHeader(previous, decoded, chunks, chunk), frame.header + CRLF + (frame.body + CRLF + rest)) ==
            After(frame.body,
              Run(c, AtHeader(SignatureOf(c, previous, frame.header), decoded + |frame.body|, chunks + 1, frame.body),
              rest))
  {
    hide Run, After, ParseSize, ParseExtension, CloseChunk, ActOnLine, FirstCrlf, SignatureOf;
    var header, body := frame.header, frame.body;
    var st := AtHeader(previous, decoded, chunks, chunk);
    HeaderIsOneLine(c, header);
    LineRuns(c, st, header, body + CRLF + rest);
    HeaderOpens(c, previous, decoded, chunks, chunk, header);
    BodyRuns(c, previous, decoded, chunks, header, body, rest);
  }

  lemma {:induction false} BodyRuns(c: Config, previous: Bytes, decoded: nat, chunks: nat, header: Bytes, body: Bytes,
      rest: Bytes)
    requires ParseExtension(c, header).Ok? && body != [] && Matches(c, previous, header, body)
    ensures Run(c, AtData(c, previous, decoded, chunks, header, |body|), body + CRLF + rest) ==
            After(body, Run(c, AtHeader(SignatureOf(c, previous, header), decoded + |body|, chunks + 1, body), rest))
  {
    hide Run, After, ParseExtension, CloseChunk, SignatureOf, Matches;
    var st := AtData(c, previous, decoded, chunks, header, |body|);
    assert body + CRLF + rest == body + (CRLF + rest);
    RunBody(c, st, body, CRLF + rest);
    ChunkCloses(c, previous, decoded, chunks, header, body);
    var next := AtHeader(SignatureOf(c, previous, header), decoded + |body|, chunks + 1, body);
    CrlfRuns(c, next.(phase := DataCrlf(0)), rest);
    assert next.(phase := DataCrlf(0)).(phase := Header) == next;
  }

  /** A run that reaches the final state consumes the whole chunk, with a valid signature, and its CRLF. */
  lemma {:induction false} BodyTaken(c: Config, previous: Bytes, decoded: nat, chunks: nat, header: Bytes, size: nat,
      input: Bytes)
    returns (body: Bytes, rest: Bytes)
    requires ParseExtension(c, header).Ok? && size > 0
    requires var r := Run(c, AtData(c, previous, decoded, chunks, header, size), input); r.Ok? && r.value.st.phase.Done?
    ensures |body| == size && input == body + CRLF + rest && Matches(c, previous, header, body)
    ensures Run(c, AtData(c, previous, decoded, chunks, header, size), input) ==
            After(body, Run(c, AtHeader(SignatureOf(c, previous, header), decoded + size, chunks + 1, body), rest))
  {
    hide Run, ParseExtension, CloseChunk, SignatureOf, Matches;
    var st := AtData(c, previous, decoded, chunks, header, size);
    if |input| < size { RunPart(c, st, input); }
    body := input[..size];
    var tail := input[size..];
    assert input == body + tail;
    RunBody(c, st, body, tail);
    ChunkCloses(c, previous, decoded, chunks, header, body);
    var closed := AtHeader(SignatureOf(c, previous, header), decoded + size, chunks + 1, body).(phase := DataCrlf(0));
    rest := CrlfTaken(c, closed, tail);
    assert body + (CRLF + rest) == body + CRLF + rest;
    BodyRuns(c, previous, decoded, chunks, header, body, rest);
  }

  // ---- whole streams ---------------------------------------------------------------------------

  /** The part after the last header. */
  lemma {:induction false} TailRuns(c: Config, previous: Bytes, decoded: nat, chunks: nat, trailer: Option<Trailer>)
    requires trailer.None? <==> c.mode.Signed?
    requires trailer.Some? ==> ChecksumOk(c, trailer.value) && SignatureOk(c, previous, trailer.value)
    ensures var st := if c.mode.Signed? then AtFinal(previous, decoded, chunks)
            else AtTrailer(previous, decoded, chunks);
            Ends(Run(c, st, EncodeTrailer(trailer)), decoded, trailer)
  {
    hide Run, ChecksumOk, SignatureOk;
    if trailer.Some? {
      TrailerRuns(c, previous, decoded, chunks, trailer.value);
    } else {
      var st := AtFinal(previous, decoded, chunks);
      CrlfRuns(c, st, []);
      assert CRLF + [] == CRLF;
      RunNothing(c, st.(phase := Done));
    }
  }

  predicate Yields(r: Result<Ran, Error>, output: Bytes, decoded: nat, trailer: Option<Trailer>) {
    r.Ok? && r.value.output == output && Finished(r.value.st, decoded, trailer)
  }

  lemma {:induction false} LastRuns(c: Config, previous: Bytes, decoded: nat, chunks: nat, chunk: Bytes, s: Stream)
    requires WellFormed(c, previous, s) && s.frames == [] && chunks + 1 <= MAX_CHUNKS
    ensures Yields(Run(c, AtHeader(previous, decoded, chunks, chunk), Encode(s)), [], decoded, s.trailer)
  {
    hide Run, ParseSize, ParseExtension, ChecksumOk, SignatureOk, ActOnLine, FirstCrlf;
    var signature := SignatureOf(c, previous, s.last);
    HeaderIsOneLine(c, s.last);
    LineRuns(c, AtHeader(previous, decoded, chunks, chunk), s.last, EncodeTrailer(s.trailer));
    assert Encode(s) == s.last + CRLF + EncodeTrailer(s.trailer);
    HeaderOpens(c, previous, decoded, chunks, chunk, s.last);
    TailRuns(c, signature, decoded, chunks + 1, s.trailer);
  }

  lemma {:induction false} StreamRuns(c: Config, previous: Bytes, decoded: nat, chunks: nat, chunk: Bytes, s: Stream)
    requires WellFormed(c, previous, s)
    requires chunks + |s.frames| + 1 <= MAX_CHUNKS && decoded + |Bodies(s.frames)| <= c.expectedLength
    ensures Yields(Run(c, AtHeader(previous, decoded, chunks, chunk), Encode(s)),
                   Bodies(s.frames), decoded + |Bodies(s.frames)|, s.trailer)
    decreases |s.frames|
  {
    hide Run, Announces, ChecksumOk, SignatureOk, EncodeTrailer, SignatureOf;
    if s.frames == [] {
      LastRuns(c, previous, decoded, chunks, chunk, s);
    } else {
      var frame, tail := s.frames[0], s.(frames := s.frames[1..]);
      var next := SignatureOf(c, previous, frame.header);
      FrameRuns(c, previous, decoded, chunks, chunk, frame, Encode(tail));
      EncodeUnrolls(s);
      StreamRuns(c, next, decoded + |frame.body|, chunks + 1, frame.body, tail);
    }
  }

  lemma {:induction false} EncodeUnrolls(s: Stream)
    requires s.frames != []
    ensures Encode(s) == s.frames[0].header + CRLF + (s.frames[0].body + CRLF + Encode(s.(frames := s.frames[1..])))
  {
    hide EncodeTrailer;
    var end := s.last + CRLF + EncodeTrailer(s.trailer);
    var frame, rest := s.frames[0], EncodeFrames(s.frames[1..]);
    Regroup(frame.header + CRLF, frame.body + CRLF, rest, end);
  }

  lemma {:induction false} Regroup(a: Bytes, b: Bytes, c: Bytes, d: Bytes)
    ensures a + (b + c) + d == a + (b + (c + d))
  {
  }

  /** Every run to the final state has read a well-formed stream. */
  lemma {:induction false} StreamTaken(c: Config, previous: Bytes, decoded: nat, chunks: nat, chunk: Bytes,
      input: Bytes)
    returns (s: Stream)
    requires var r := Run(c, AtHeader(previous, decoded, chunks, chunk), input); r.Ok? && r.value.st.phase.Done?
    requires decoded <= c.expectedLength
    ensures WellFormed(c, previous, s) && input == Encode(s)
    ensures chunks + |s.frames| + 1 <= MAX_CHUNKS && decoded + |Bodies(s.frames)| <= c.expectedLength
    decreases |input|
  {
    hide Run, ParseSize, ParseExtension, ChecksumOk, SignatureOk, EncodeTrailer, ActOnLine, FirstCrlf, SignatureOf,
      Encode;
    var header, rest := LineTaken(c, AtHeader(previous, decoded, chunks, chunk), input);
    HeaderOpens(c, previous, decoded, chunks, chunk, header);
    var size := ParseSize(c, header).value;
    var signature := SignatureOf(c, previous, header);
    if size > 0 {
      var body, rest' := BodyTaken(c, previous, decoded, chunks, header, size, rest);
      var tail := StreamTaken(c, signature, decoded + size, chunks + 1, body, rest');
      s := Extend(c, previous, Frame(header, body), tail);
    } else {
      var trailer := TailTaken(c, signature, decoded, chunks + 1, rest);
      s := Stream([], header, trailer);
      EncodeLast(s);
    }
  }

  lemma {:induction false} EncodeLast(s: Stream)
    requires s.frames == []
    ensures Encode(s) == s.last + CRLF + EncodeTrailer(s.trailer)
  {
    hide EncodeTrailer;
    assert [] + (s.last + CRLF + EncodeTrailer(s.trailer)) == s.last + CRLF + EncodeTrailer(s.trailer);
  }

  lemma {:induction false} TailTaken(c: Config, previous: Bytes, decoded: nat, chunks: nat, input: Bytes)
      returns (trailer: Option<Trailer>)
    requires var st := if c.mode.Signed? then AtFinal(previous, decoded, chunks)
             else AtTrailer(previous, decoded, chunks);
             Run(c, st, input).Ok? && Run(c, st, input).value.st.phase.Done?
    ensures trailer.None? <==> c.mode.Signed?
    ensures trailer.Some? ==> ChecksumOk(c, trailer.value) && SignatureOk(c, previous, trailer.value)
    ensures input == EncodeTrailer(trailer)
  {
    hide Run, ChecksumOk, SignatureOk, ChecksumLine, EncodeSignature;
    if c.mode.Signed? {
      var st := AtFinal(previous, decoded, chunks);
      var rest := CrlfTaken(c, st, input);
      DoneTakesNothing(c, st.(phase := Done), rest);
      assert CRLF + [] == CRLF;
      trailer := None;
    } else {
      var t := TrailerTaken(c, previous, decoded, chunks, input);
      trailer := Some(t);
    }
  }

  lemma {:induction false} Extend(c: Config, previous: Bytes, frame: Frame, tail: Stream) returns (s: Stream)
    requires frame.body != [] && Announces(c, previous, frame.header, frame.body)
    requires WellFormed(c, SignatureOf(c, previous, frame.header), tail)
    ensures WellFormed(c, previous, s)
    ensures Encode(s) == frame.header + CRLF + (frame.body + CRLF + Encode(tail))
    ensures |s.frames| == |tail.frames| + 1 && |Bodies(s.frames)| == |frame.body| + |Bodies(tail.frames)|
  {
    hide Announces, ChecksumOk, SignatureOk, SignatureOf, Encode;
    s := tail.(frames := [frame] + tail.frames);
    assert s.frames[1..] == tail.frames;
    EncodeUnrolls(s);
    assert s.(frames := tail.frames) == tail;
  }

  predicate Accepted(c: Config, s: Stream) {
    WellFormed(c, c.seed, s) && |s.frames| + 1 <= MAX_CHUNKS && |Bodies(s.frames)| == c.expectedLength
  }

  /** Completeness: every well-formed stream of the declared length decodes to its bodies. */
  lemma {:induction false} AcceptedDecodes(c: Config, s: Stream)
    requires Accepted(c, s)
    ensures Decode(c, Encode(s)) == Ok(Bodies(s.frames))
  {
    hide Run, WellFormed, Encode, Bodies;
    StreamRuns(c, c.seed, 0, 0, [], s);
    assert Init(c) == AtHeader(c.seed, 0, 0, []);
  }

  /** Soundness: whatever decodes is such a stream, and the output is the concatenation of its bodies. */
  lemma {:induction false} DecodesAccepted(c: Config, input: Bytes) returns (s: Stream)
    requires Decode(c, input).Ok?
    ensures Accepted(c, s) && Encode(s) == input
    ensures Decode(c, input) == Ok(Bodies(s.frames))
  {
    hide Run, WellFormed, Encode, Bodies;
    assert Init(c) == AtHeader(c.seed, 0, 0, []);
    s := StreamTaken(c, c.seed, 0, 0, [], input);
    StreamRuns(c, c.seed, 0, 0, [], s);
  }

  /** Both directions: decoding succeeds exactly on the encodings of acceptable streams. */
  lemma {:induction false} DecodesExactly(c: Config, input: Bytes)
    ensures Decode(c, input).Ok? <==> exists s :: Accepted(c, s) && Encode(s) == input
  {
    hide Decode, Accepted, Encode;
    if Decode(c, input).Ok? {
      var s := DecodesAccepted(c, input);
    }
    if exists s :: Accepted(c, s) && Encode(s) == input {
      var s :| Accepted(c, s) && Encode(s) == input;
      AcceptedDecodes(c, s);
    }
  }
}
