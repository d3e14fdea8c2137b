/** The trailer section: one checksum trailer, its signature in the signed mode, and an empty line. */
module AwsChunkedTrailers {
  import opened Common
  import opened AwsChunked
  import opened AwsChunkedStream

  /** After the checksum trailer. */
  function AtChecksum(t: Trailer, previous: Bytes, decoded: nat, chunks: nat): St {
    AtTrailer(previous, decoded, chunks).(
      trailerBytes := |ChecksumLine(t)| + 2, trailerCount := 1, checksumTrailer := Some((t.name, t.value)))
  }

  /** After the trailer signature. */
  function AtSignature(t: Trailer, signature: Bytes, previous: Bytes, decoded: nat, chunks: nat): St {
    AtChecksum(t, previous, decoded, chunks).(
      trailerBytes := |ChecksumLine(t)| + 2 + (|SignatureLine(signature)| + 2), trailerCount := 2,
      trailerSignature := Some(Lowercase(signature)))
  }

  lemma {:induction false} ColonFound(name: Bytes, value: Bytes)
    requires COLON !in name
    ensures var line := name + [COLON] + value;
            IndexOf(line, COLON) == |name| && line[..|name|] == name && line[|name| + 1..] == value
  {
    hide IndexOf;
    var line := name + [COLON] + value;
    assert line[|name|] == COLON;
    forall i | 0 <= i < |name| ensures line[i] != COLON { assert line[i] == name[i]; }
  }

  lemma {:induction false} SplitAt(line: Bytes, k: nat)
    requires k < |line|
    ensures line == line[..k] + [line[k]] + line[k + 1..]
  {
  }

  lemma {:induction false} ChecksumRuns(c: Config, previous: Bytes, decoded: nat, chunks: nat, t: Trailer)
    requires ChecksumOk(c, t)
    ensures ActOnLine(c, AtTrailer(previous, decoded, chunks), ChecksumLine(t)) ==
            Ok(AtChecksum(t, previous, decoded, chunks))
  {
    hide IndexOf, FirstCrlf;
    ColonFound(t.name, t.value);
  }

  lemma {:induction false} ChecksumTaken(c: Config, previous: Bytes, decoded: nat, chunks: nat, line: Bytes)
      returns (t: Trailer)
    requires OneLine(line, MAX_TRAILER_LINE_BYTES)
    requires ActOnLine(c, AtTrailer(previous, decoded, chunks), line).Ok?
    ensures line == ChecksumLine(t) && ChecksumOk(c, t) && t.signature == None
  {
    hide IndexOf, FirstCrlf;
    var cut := IndexOf(line, COLON);
    SplitAt(line, cut);
    t := Trailer(line[..cut], line[cut + 1..], None);
  }

  /** After the checksum trailer only the signature trailer or the end is accepted. */
  lemma {:induction false} SignatureRuns(c: Config, previous: Bytes, decoded: nat, chunks: nat, t: Trailer,
      signature: Bytes)
    requires |ChecksumLine(t)| <= MAX_TRAILER_LINE_BYTES && IsSha256(signature)
    requires c.trimmed(signature) && c.utf8(SignatureLine(signature))
    ensures ActOnLine(c, AtChecksum(t, previous, decoded, chunks), SignatureLine(signature)) ==
            Ok(AtSignature(t, signature, previous, decoded, chunks))
  {
    hide IndexOf, FirstCrlf, ChecksumLine, Lowercase;
    ColonFound(TRAILER_SIGNATURE, signature);
  }

  lemma {:induction false} SignatureTaken(c: Config, previous: Bytes, decoded: nat, chunks: nat, t: Trailer,
      line: Bytes) returns (signature: Bytes)
    requires line != [] && ActOnLine(c, AtChecksum(t, previous, decoded, chunks), line).Ok?
    ensures line == SignatureLine(signature) && IsSha256(signature)
    ensures c.trimmed(signature) && c.utf8(line)
  {
    hide IndexOf, FirstCrlf, ChecksumLine, Lowercase;
    var cut := IndexOf(line, COLON);
    SplitAt(line, cut);
    signature := line[cut + 1..];
  }

  lemma {:induction false} UnsignedEnds(c: Config, previous: Bytes, decoded: nat, chunks: nat, t: Trailer)
    requires |ChecksumLine(t)| <= MAX_TRAILER_LINE_BYTES
    ensures var st := AtChecksum(t, previous, decoded, chunks);
            var r := ActOnLine(c, st, []);
            && (r.Ok? <==> !c.mode.SignedTrailer?)
            && (r.Ok? ==> r.value == st.(trailerBytes := st.trailerBytes + 2, phase := Done))
  {
    hide IndexOf, ChecksumLine;
  }

  lemma {:induction false} SignedEnds(c: Config, previous: Bytes, decoded: nat, chunks: nat, t: Trailer,
      signature: Bytes, line: Bytes)
    requires |ChecksumLine(t)| <= MAX_TRAILER_LINE_BYTES && IsSha256(signature)
    ensures var st := AtSignature(t, signature, previous, decoded, chunks);
            var r := ActOnLine(c, st, line);
            && (r.Ok? <==>
                line == [] && c.mode.SignedTrailer?
                && Lowercase(signature) == c.trailerSignature(previous, t.name, t.value))
            && (r.Ok? ==> r.value == st.(trailerBytes := st.trailerBytes + 2, phase := Done))
  {
    hide IndexOf, ChecksumLine, Lowercase;
  }

  /** What the decoder holds when it has finished. */
  predicate Finished(st: St, decoded: nat, trailer: Option<Trailer>) {
    && st.phase.Done? && st.decoded == decoded
    && st.checksumTrailer == if trailer.None? then None else Some((trailer.value.name, trailer.value.value))
  }

  predicate Ends(r: Result<Ran, Error>, decoded: nat, trailer: Option<Trailer>) {
    r.Ok? && r.value.output == [] && Finished(r.value.st, decoded, trailer)
  }

  lemma {:induction false} SignatureIsOneLine(signature: Bytes)
    requires IsSha256(signature)
    ensures OneLine(SignatureLine(signature), MAX_TRAILER_LINE_BYTES)
  {
    hide FirstCrlf;
    HexHasNoCr(signature);
    NoCrIsOneLine(SignatureLine(signature));
  }

  lemma {:induction false} EmptyIsOneLine()
    ensures OneLine([], MAX_TRAILER_LINE_BYTES)
  {
  }

  /** An empty line, whatever follows the line that ends the section, ends the stream. */
  lemma {:induction false} EmptyLineRuns(c: Config, st: St, decoded: nat, trailer: Option<Trailer>)
    requires st.phase.Trailers? && st.line == []
    requires ActOnLine(c, st, []).Ok? && Finished(ActOnLine(c, st, []).value, decoded, trailer)
    ensures Ends(Run(c, st, CRLF), decoded, trailer)
  {
    hide ActOnLine;
    EmptyIsOneLine();
    LineRuns(c, st, [], []);
    assert [] + CRLF + [] == CRLF;
  }

  lemma {:induction false} TrailerRuns(c: Config, previous: Bytes, decoded: nat, chunks: nat, t: Trailer)
    requires ChecksumOk(c, t) && SignatureOk(c, previous, t)
    ensures Ends(Run(c, AtTrailer(previous, decoded, chunks), EncodeTrailer(Some(t))), decoded, Some(t))
  {
    hide Run, ActOnLine, ChecksumLine, SignatureLine, Lowercase;
    var st := AtTrailer(previous, decoded, chunks);
    LineRuns(c, st, ChecksumLine(t), EncodeSignature(t.signature));
    ChecksumRuns(c, previous, decoded, chunks, t);
    SignaturePartRuns(c, previous, decoded, chunks, t);
  }

  lemma {:induction false} SignaturePartRuns(c: Config, previous: Bytes, decoded: nat, chunks: nat, t: Trailer)
    requires ChecksumOk(c, t) && SignatureOk(c, previous, t)
    ensures Ends(Run(c, AtChecksum(t, previous, decoded, chunks), EncodeSignature(t.signature)), decoded, Some(t))
  {
    hide Run, ActOnLine, ChecksumLine, SignatureLine, Lowercase, ParseTrailer, FirstCrlf;
    var st := AtChecksum(t, previous, decoded, chunks);
    if t.signature.None? {
      UnsignedEnds(c, previous, decoded, chunks, t);
      EmptyLineRuns(c, st, decoded, Some(t));
    } else {
      var signature := t.signature.value;
      SignatureRuns(c, previous, decoded, chunks, t, signature);
      SignatureIsOneLine(signature);
      LineRuns(c, st, SignatureLine(signature), CRLF);
      SignedEnds(c, previous, decoded, chunks, t, signature, []);
      EmptyLineRuns(c, AtSignature(t, signature, previous, decoded, chunks), decoded, Some(t));
    }
  }

  lemma {:induction false} DoneTakesNothing(c: Config, st: St, input: Bytes)
    requires st.phase.Done? && Run(c, st, input).Ok?
    ensures input == [] && Run(c, st, input) == Ok(Ran(st, []))
  {
  }

  /** A run from the trailer section to the final state has read exactly one well-formed trailer. */
  lemma {:induction false} TrailerTaken(c: Config, previous: Bytes, decoded: nat, chunks: nat, input: Bytes)
      returns (t: Trailer)
    requires var r := Run(c, AtTrailer(previous, decoded, chunks), input); r.Ok? && r.value.st.phase.Done?
    ensures ChecksumOk(c, t) && SignatureOk(c, previous, t)
    ensures input == EncodeTrailer(Some(t))
  {
    hide Run, ActOnLine, ChecksumLine, SignatureLine, Lowercase, FirstCrlf, EncodeSignature, SignatureOk;
    var line, rest := LineTaken(c, AtTrailer(previous, decoded, chunks), input);
    var named := ChecksumTaken(c, previous, decoded, chunks, line);
    ChecksumRuns(c, previous, decoded, chunks, named);
    t := SignaturePartTaken(c, previous, decoded, chunks, named, rest);
    SameChecksum(c, named, t);
  }

  lemma {:induction false} SameChecksum(c: Config, t: Trailer, u: Trailer)
    requires ChecksumOk(c, t) && t.name == u.name && t.value == u.value
    ensures ChecksumOk(c, u) && ChecksumLine(t) == ChecksumLine(u)
  {
    hide FirstCrlf;
  }

  lemma {:induction false} SignaturePartTaken(c: Config, previous: Bytes, decoded: nat, chunks: nat, named: Trailer,
      input: Bytes) returns (t: Trailer)
    requires ChecksumOk(c, named)
    requires var r := Run(c, AtChecksum(named, previous, decoded, chunks), input); r.Ok? && r.value.st.phase.Done?
    ensures t.name == named.name && t.value == named.value
    ensures SignatureOk(c, previous, t) && input == EncodeSignature(t.signature)
  {
    hide Run, ActOnLine, ChecksumLine, SignatureLine, Lowercase, FirstCrlf;
    var st := AtChecksum(named, previous, decoded, chunks);
    var line, rest := LineTaken(c, st, input);
    if line == [] {
      UnsignedEnds(c, previous, decoded, chunks, named);
      t := named.(signature := None);
      DoneTakesNothing(c, ActOnLine(c, st, []).value, rest);
      assert [] + CRLF + [] == CRLF;
    } else {
      var signature := SignatureTaken(c, previous, decoded, chunks, named, line);
      SignatureRuns(c, previous, decoded, chunks, named, signature);
      t := named.(signature := Some(signature));
      var st' := AtSignature(named, signature, previous, decoded, chunks);
      var line', rest' := LineTaken(c, st', rest);
      SignedEnds(c, previous, decoded, chunks, named, signature, line');
      DoneTakesNothing(c, ActOnLine(c, st', []).value, rest');
      assert rest == CRLF;
    }
  }
}
