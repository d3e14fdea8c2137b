/**
 The decoder object: it consumes whole lines, slices and line ends at a time, and is proved equal to the
 byte machine of `AwsChunked`. After an error the object is dropped by its owner, so its fields are then
 not described.
 */
module AwsChunkedDecoder {
  import opened Common
  import opened Streams
  import opened AwsChunked

  /** What holds between any two bytes. */
  predicate Sane(st: St) {
    && (st.phase.Data? ==> st.remaining > 0)
    && (st.phase.DataCrlf? || st.phase.FinalCrlf? ==> st.phase.matched < 2)
  }

  lemma {:induction false} TakeUnrolls(buffer: Bytes, input: Bytes, start: nat, limit: nat)
    requires start < |input|
    ensures var took := TakeByte(buffer, input[start], limit);
            Take(buffer, input[start..], limit) ==
            if took.Got? then Line(took.line, input[start + 1..])
            else if took.More? then Take(took.buffer, input[start + 1..], limit)
            else Long
  {
    hide TakeByte;
    assert input[start..][1..] == input[start + 1..];
  }

  lemma {:induction false} TakeNothing(buffer: Bytes, input: Bytes, limit: nat)
    requires |input| == 0
    ensures Take(buffer, input, limit) == Partial(buffer)
  {
  }

  class Decoder {
    const config: Config
    var phase: Phase
    var line: Bytes
    var remaining: nat
    var chunk: Bytes
    var expectedSignature: Option<Bytes>
    var previousSignature: Bytes
    var decoded: nat
    var chunks: nat
    var trailerBytes: nat
    var trailerCount: nat
    var checksumTrailer: Option<(Bytes, Bytes)>
    var trailerSignature: Option<Bytes>

    function View(): St
      reads this
    {
      St(phase, line, remaining, chunk, expectedSignature, previousSignature, decoded, chunks,
         trailerBytes, trailerCount, checksumTrailer, trailerSignature)
    }

    constructor (config: Config)
      ensures this.config == config
      ensures View() == Init(config) && Sane(View())
    {
      this.config := config;
      phase, line, remaining, chunk := Header, [], 0, [];
      expectedSignature, previousSignature := None, config.seed;
      decoded, chunks, trailerBytes, trailerCount := 0, 0, 0, 0;
      checksumTrailer, trailerSignature := None, None;
    }

    /** Moves bytes of `input` from `start` on into the line buffer. */
    method TakeLine(input: Bytes, start: nat, limit: nat) returns (r: Result<Option<Bytes>, Error>, next: nat)
      requires start < |input|
      modifies this`line
      ensures start < next <= |input|
      ensures var taken := Take(old(line), input[start..], limit);
              match taken
              case Line(text, rest) => r == Ok(Some(text)) && rest == input[next..] && line == []
              case Partial(buffer) => r == Ok(None) && next == |input| && line == buffer
              case Long => r == Err(Oversized)
    {
      hide Take, IndexOf;
      next := start;
      while next < |input|
        invariant start <= next <= |input|
        invariant Take(old(line), input[start..], limit) == Take(line, input[next..], limit)
      {
        ghost var before := line;
        TakeUnrolls(line, input, next, limit);
        var b := input[next];
        line := line + [b];
        next := next + 1;
        if EndsWithCrlf(line) {
          var text := line[..|line| - 2];
          line := [];
          assert TakeByte(before, b, limit) == Got(text);
          return Ok(Some(text)), next;
        }
        if |line| > limit && (|line| != limit + 1 || line[|line| - 1] != CR) {
          assert TakeByte(before, b, limit) == TooLong;
          return Err(Oversized), next;
        }
      }
      TakeNothing(line, input[next..], limit);
      r := Ok(None);
    }

    method VerifyChunkSignature() returns (r: Option<Error>)
      modifies this`previousSignature, this`expectedSignature
      ensures var was := VerifyChunk(config, old(View()));
              if was.Err? then r == Some(was.error) else r == None && View() == was.value
    {
      if expectedSignature.None? { return None; }
      var expected := expectedSignature.value;
      expectedSignature := None;
      if config.chunkSignature(previousSignature, chunk) != expected { return Some(SignatureMismatch); }
      previousSignature := expected;
      r := None;
    }

    method StartChunk(text: Bytes) returns (r: Option<Error>)
      modifies this
      ensures var was := AwsChunked.StartChunk(config, old(View()), text);
              if was.Err? then r == Some(was.error) else r == None && View() == was.value
    {
      hide ParseSize, ParseExtension, VerifyChunk;
      var size := ParseSize(config, text);
      if size.Err? { return Some(size.error); }
      chunks := chunks + 1;
      if chunks > MAX_CHUNKS { return Some(Oversized); }
      var signature := ParseExtension(config, text);
      if signature.Err? { return Some(signature.error); }
      if signature.value.Some? { expectedSignature := signature.value; }
      remaining := size.value;
      chunk := [];
      if size.value == 0 {
        r := VerifyChunkSignature();
        if r == None { phase := if config.mode.Signed? then FinalCrlf(0) else Trailers; }
      } else {
        if decoded + size.value > U64_MAX { return Some(DecodedLengthMismatch); }
        decoded := decoded + size.value;
        if decoded > config.expectedLength { return Some(DecodedLengthMismatch); }
        phase := Data;
        r := None;
      }
    }

    method ParseTrailer(text: Bytes) returns (r: Option<Error>)
      modifies this
      ensures var was := AwsChunked.ParseTrailer(config, old(View()), text);
              if was.Err? then r == Some(was.error) else r == None && View() == was.value
    {
      trailerCount := trailerCount + 1;
      if trailerCount > MAX_TRAILERS { return Some(Oversized); }
      if !config.utf8(text) { return Some(Framing("non-ASCII trailer")); }
      var cut := IndexOf(text, COLON);
      if cut == |text| { return Some(Framing("malformed trailer")); }
      var name, value := text[..cut], text[cut + 1..];
      if !IsTrailerName(name) || !config.trimmed(value) { return Some(Framing("non-canonical trailer")); }
      if name == TRAILER_SIGNATURE {
        if trailerSignature.Some? || checksumTrailer.None? { return Some(DuplicateTrailer(name)); }
        if !IsSha256(value) { return Some(InvalidPayloadHash); }
        trailerSignature := Some(Lowercase(value));
        return None;
      }
      if checksumTrailer.Some? { return Some(DuplicateTrailer(name)); }
      if config.declaredTrailer != Some(name) { return Some(ConflictingChecksum); }
      checksumTrailer := Some((name, value));
      r := None;
    }

    method ActOnTrailer(text: Bytes) returns (r: Option<Error>)
      modifies this
      ensures var was := TrailerLine(config, old(View()), text);
              if was.Err? then r == Some(was.error) else r == None && View() == was.value
    {
      trailerBytes := trailerBytes + |text| + 2;
      if trailerBytes > MAX_TRAILER_BYTES { return Some(Oversized); }
      if text == [] {
        r := VerifyTrailers(config, View());
        if r == None { phase := Done; }
      } else {
        r := ParseTrailer(text);
      }
    }

    /** Matches what is left of a line end. */
    method MatchCrlf(input: Bytes, start: nat) returns (r: Option<Error>, next: nat)
      requires start < |input|
      requires (phase.DataCrlf? || phase.FinalCrlf?) && phase.matched < 2
      modifies this`phase
      ensures start <= next <= |input|
      ensures r == None ==> start < next && Sane(old(View()).(phase := phase))
      ensures r == None ==> Run(config, old(View()), input[start..]) == Run(config, View(), input[next..])
      ensures r != None ==> Run(config, old(View()), input[start..]) == Err(r.value)
    {
      hide Run;
      var matched := phase.matched;
      next := start;
      ghost var st := View();
      assert st.(phase := EndOfLine(phase, matched)) == st;
      while next < |input| && matched < 2
        invariant start <= next <= |input| && next - start == matched - old(phase.matched)
        invariant matched <= 2 && phase == old(phase)
        invariant Run(config, st, input[start..]) == Run(config, st.(phase := EndOfLine(phase, matched)), input[next..])
      {
        ghost var at := st.(phase := EndOfLine(phase, matched));
        CrlfByte(config, at, input[next..]);
        assert input[next..][1..] == input[next + 1..];
        assert at.(phase := EndOfLine(at.phase, matched + 1)) == st.(phase := EndOfLine(phase, matched + 1));
        if input[next] != (if matched == 0 then CR else LF) { return Some(CrlfError(phase)), next; }
        matched := matched + 1;
        next := next + 1;
      }
      phase := EndOfLine(phase, matched);
      r := None;
    }

    /** Takes a line and acts on it, in the two states that read lines. */
    method PushLine(input: Bytes, start: nat) returns (r: Option<Error>, next: nat)
      requires start < |input| && (phase.Header? || phase.Trailers?)
      modifies this
      ensures start < next <= |input|
      ensures r == None ==>
              Sane(View()) && Run(config, old(View()), input[start..]) == Run(config, View(), input[next..])
      ensures r != None ==> Run(config, old(View()), input[start..]) == Err(r.value)
    {
      hide AwsChunked.StartChunk, TrailerLine, TakeByte, Step;
      ghost var st := View();
      RunTakes(config, st, input[start..]);
      var taken;
      taken, next := TakeLine(input, start, LineLimit(phase));
      if taken.Err? { return Some(taken.error), next; }
      if taken.value.None? {
        assert View() == st.(line := line);
        assert input[next..] == [];
        return None, next;
      }
      assert View() == st.(line := []);
      if phase.Header? {
        r := StartChunk(taken.value.value);
        StartIsSane(config, st.(line := []), taken.value.value);
      } else {
        r := ActOnTrailer(taken.value.value);
        TrailerIsSane(config, st.(line := []), taken.value.value);
      }
    }

    /** Passes a slice of the current chunk through. */
    method PushData(input: Bytes, start: nat) returns (r: Option<Error>, next: nat)
      requires start < |input| && phase.Data? && remaining > 0
      modifies this
      ensures start < next <= |input|
      ensures r == None ==> Sane(View())
      ensures r == None ==>
              Run(config, old(View()), input[start..]) == After(input[start..next], Run(config, View(), input[next..]))
      ensures r != None ==> Run(config, old(View()), input[start..]) == Err(r.value)
    {
      hide Step, VerifyChunk;
      ghost var st, rest := View(), input[start..];
      next := start + Min(remaining, |input| - start);
      var bytes := input[start..next];
      chunk := chunk + bytes;
      remaining := remaining - |bytes|;
      if remaining == 0 {
        assert rest == bytes + input[next..];
        RunBody(config, st, bytes, input[next..]);
        r := VerifyChunkSignature();
        if r != None { return; }
        phase := DataCrlf(0);
      } else {
        assert rest == bytes && input[next..] == [];
        RunPart(config, st, bytes);
        assert bytes + [] == bytes;
        r := None;
      }
    }

    /**
     Consumes all of `input`. The result is the byte machine's: its first error, or its state and output.
     */
    method Push(input: Bytes) returns (r: Result<seq<Bytes>, Error>)
      requires Sane(View())
      modifies this
      ensures match Run(config, old(View()), input)
              case Err(e) => r == Err(e)
              case Ok(ran) => r.Ok? && Flatten(r.value) == ran.output && View() == ran.st && Sane(View())
      ensures r.Ok? ==> forall piece :: piece in r.value ==> piece != []
    {
      hide Step, Take;
      ghost var st := View();
      if phase.Done? && input != [] {
        DoneRefuses(config, st, input);
        return Err(TrailingData);
      }
      var output, next := [], 0;
      assert input[next..] == input;
      AfterNothing(Run(config, st, input));
      while next < |input|
        invariant 0 <= next <= |input|
        invariant Sane(View())
        invariant Run(config, st, input) == After(Flatten(output), Run(config, View(), input[next..]))
        invariant forall piece :: piece in output ==> piece != []
        decreases |input| - next
      {
        var e, start := None, next;
        match phase {
          case Header => e, next := PushLine(input, start);
          case Trailers => e, next := PushLine(input, start);
          case DataCrlf(_) => e, next := MatchCrlf(input, start);
          case FinalCrlf(_) => e, next := MatchCrlf(input, start);
          case Done =>
            DoneRefuses(config, View(), input[next..]);
            e := Some(TrailingData);
          case Data =>
            e, next := PushData(input, start);
            if e == None {
              AfterTwice(Flatten(output), input[start..next], Run(config, View(), input[next..]));
              FlattenSnoc(output, input[start..next]);
              output := output + [input[start..next]];
            }
        }
        if e != None { return Err(e.value); }
      }
      assert input[next..] == [];
      assert Flatten(output) + [] == Flatten(output);
      r := Ok(output);
    }

    method Finish() returns (r: Option<Error>)
      ensures r == AwsChunked.Finish(config, View())
    {
      if !phase.Done? { return Some(Truncated); }
      if decoded != config.expectedLength { return Some(DecodedLengthMismatch); }
      r := None;
    }
  }

  lemma {:induction false} StartIsSane(c: Config, st: St, text: Bytes)
    ensures var next := AwsChunked.StartChunk(c, st, text); next.Ok? ==> Sane(next.value)
  {
  }

  lemma {:induction false} TrailerIsSane(c: Config, st: St, text: Bytes)
    requires st.phase.Trailers?
    ensures var next := TrailerLine(c, st, text); next.Ok? ==> Sane(next.value)
  {
  }

  lemma {:induction false} DoneRefuses(c: Config, st: St, input: Bytes)
    requires st.phase.Done? && input != []
    ensures Run(c, st, input) == Err(TrailingData)
  {
  }

  /** Pushing any pieces through a new decoder and finishing it: the verdict of the concatenation. */
  method DecodeAll(config: Config, pieces: seq<Bytes>) returns (r: Result<Bytes, Error>)
    ensures r == Decode(config, Flatten(pieces))
  {
    hide Step, Run;
    PartitionIndependent(config, Init(config), pieces);
    var decoder := new Decoder(config);
    var output: Bytes, i := [], 0;
    assert pieces[i..] == pieces;
    AfterNothing(RunAll(config, Init(config), pieces));
    while i < |pieces|
      invariant 0 <= i <= |pieces|
      invariant decoder.config == config && Sane(decoder.View())
      invariant RunAll(config, Init(config), pieces) == After(output, RunAll(config, decoder.View(), pieces[i..]))
    {
      ghost var st, rest := decoder.View(), pieces[i..];
      assert rest[0] == pieces[i] && rest[1..] == pieces[i + 1..];
      var pushed := decoder.Push(pieces[i]);
      if pushed.Err? { return Err(pushed.error); }
      var decoded := Flatten(pushed.value);
      AfterTwice(output, decoded, RunAll(config, decoder.View(), pieces[i + 1..]));
      output := output + decoded;
      i := i + 1;
    }
    assert pieces[i..] == [];
    assert output + [] == output;
    var e := decoder.Finish();
    if e != None { return Err(e.value); }
    r := Ok(output);
  }
}
