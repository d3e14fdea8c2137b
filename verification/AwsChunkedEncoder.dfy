/** The encoding a client produces in each mode, and the proof that it decodes to the client's data. */
module AwsChunkedEncoder {
  import opened Common
  import opened Streams
  import opened AwsChunked
  import opened AwsChunkedStream
  import opened AwsChunkedTheorems

  function HexByte(d: nat): (b: byte)
    requires d < 16
    ensures IsHex(b) && HexDigit(b) == d && b < 128
  {
    if d < 10 then (48 + d) as byte else (87 + d) as byte
  }

  /** A size in lower-case hexadecimal. */
  function Hex(n: nat): Bytes {
    if n < 16 then [HexByte(n)] else Hex(n / 16) + [HexByte(n % 16)]
  }

  function Pow16(k: nat): nat {
    if k == 0 then 1 else 16 * Pow16(k - 1)
  }

  lemma {:induction false} HexRoundTrip(n: nat)
    ensures AllHex(Hex(n)) && HexValue(Hex(n)) == n && Hex(n) != []
  {
    if n < 16 {
      assert HexValue(Hex(n)[..0]) == 0;
    } else {
      HexRoundTrip(n / 16);
      var digits := Hex(n);
      assert digits[..|digits| - 1] == Hex(n / 16);
    }
  }

  lemma {:induction false} HexLength(n: nat, k: nat)
    requires n < Pow16(k + 1)
    ensures |Hex(n)| <= k + 1
  {
    if n >= 16 {
      HexLength(n / 16, k - 1);
    }
  }

  lemma {:induction false} ChunkSizesAreShort(n: nat)
    requires n <= MAX_CHUNK_BYTES
    ensures |Hex(n)| <= 7
  {
    hide Hex;
    assert Pow16(2) == 256;
    assert Pow16(4) == 65_536;
    assert Pow16(6) == 16_777_216;
    assert Pow16(7) == 268_435_456;
    HexLength(n, 6);
  }

  /** The size, and the signature in the modes that sign chunks. */
  function HeaderFor(c: Config, size: nat, signature: Bytes): Bytes {
    if c.mode.UnsignedTrailer? then Hex(size) else Hex(size) + [SEMICOLON] + (SIGNATURE_PREFIX + signature)
  }

  /** The signers yield 64 lower-case hex digits. */
  ghost predicate SignsInHex(c: Config) {
    && (forall previous, body :: IsLowerHash(c.chunkSignature(previous, body)))
    && (forall previous, name, value :: IsLowerHash(c.trailerSignature(previous, name, value)))
  }

  predicate IsLowerHash(s: Bytes) {
    IsSha256(s) && Lowercase(s) == s
  }

  /** Every sequence of ASCII bytes is valid UTF-8, and trimming takes nothing from hex digits. */
  ghost predicate AcceptsAscii(c: Config) {
    && (forall s: Bytes :: (forall i :: 0 <= i < |s| ==> s[i] < 128) ==> c.utf8(s))
    && (forall s: Bytes :: AllHex(s) ==> c.trimmed(s))
  }

  /** The signature after a chunk; without chunk signatures the chain does not move. */
  function NextSignature(c: Config, previous: Bytes, body: Bytes): Bytes {
    if c.mode.UnsignedTrailer? then previous else c.chunkSignature(previous, body)
  }

  function Frames(c: Config, previous: Bytes, bodies: seq<Bytes>): seq<Frame>
    decreases |bodies|
  {
    if bodies == [] then []
    else
      var signature := NextSignature(c, previous, bodies[0]);
      [Frame(HeaderFor(c, |bodies[0]|, signature), bodies[0])] + Frames(c, signature, bodies[1..])
  }

  function ChainEnd(c: Config, previous: Bytes, bodies: seq<Bytes>): Bytes
    decreases |bodies|
  {
    if bodies == [] then previous else ChainEnd(c, NextSignature(c, previous, bodies[0]), bodies[1..])
  }

  /** The checksum trailer of the trailer modes, signed in the signed one. */
  function TrailerFor(c: Config, previous: Bytes, name: Bytes, value: Bytes): Option<Trailer> {
    if c.mode.Signed? then None
    else Some(Trailer(name, value, if c.mode.SignedTrailer? then Some(c.trailerSignature(previous, name, value))
      else None))
  }

  /** The frames of the bodies, then the empty chunk and the trailer. */
  function ClientStream(c: Config, bodies: seq<Bytes>, name: Bytes, value: Bytes): Stream {
    var end := NextSignature(c, ChainEnd(c, c.seed, bodies), []);
    Stream(Frames(c, c.seed, bodies), HeaderFor(c, 0, end), TrailerFor(c, end, name, value))
  }

  lemma {:induction false} HeaderParses(c: Config, previous: Bytes, body: Bytes)
    requires SignsInHex(c) && AcceptsAscii(c) && |body| <= MAX_CHUNK_BYTES
    ensures var header := HeaderFor(c, |body|, NextSignature(c, previous, body));
            Announces(c, previous, header, body) && SignatureOf(c, previous, header) == NextSignature(c, previous, body)
  {
    hide Hex, HexValue, Lowercase, ParseSize, ParseExtension, HeaderFor;
    if c.mode.UnsignedTrailer? {
      PlainHeaderParses(c, |body|, previous);
    } else {
      var signature := c.chunkSignature(previous, body);
      assert IsLowerHash(signature);
      SizeParses(c, |body|, signature);
      SignatureParses(c, |body|, signature);
    }
  }

  lemma {:induction false} AsciiIsUtf8(c: Config, s: Bytes)
    requires AcceptsAscii(c) && forall i :: 0 <= i < |s| ==> s[i] < 128
    ensures c.utf8(s)
  {
  }

  lemma {:induction false} HexIsUtf8(c: Config, s: Bytes)
    requires AcceptsAscii(c) && AllHex(s)
    ensures c.utf8(s) && c.trimmed(s)
  {
    hide AcceptsAscii;
    forall i | 0 <= i < |s| ensures s[i] < 128 { assert IsHex(s[i]); }
    AsciiIsUtf8(c, s);
    HexIsTrimmed(c, s);
  }

  lemma {:induction false} HexIsTrimmed(c: Config, s: Bytes)
    requires AcceptsAscii(c) && AllHex(s)
    ensures c.trimmed(s)
  {
  }

  lemma {:induction false} HexHasNoSemicolon(s: Bytes)
    requires AllHex(s)
    ensures IndexOf(s, SEMICOLON) == |s| && s[..|s|] == s
  {
    hide IndexOf;
    assert forall i :: 0 <= i < |s| ==> IsHex(s[i]);
  }

  lemma {:induction false} PlainHeaderParses(c: Config, size: nat, previous: Bytes)
    requires c.mode.UnsignedTrailer? && AcceptsAscii(c) && size <= MAX_CHUNK_BYTES
    ensures var header := HeaderFor(c, size, previous);
            ParseSize(c, header) == Ok(size) && ParseExtension(c, header) == Ok(None)
              && |header| <= MAX_CHUNK_HEADER_BYTES
  {
    hide Hex, HexValue, IndexOf, AcceptsAscii, AllHex;
    HexRoundTrip(size);
    ChunkSizesAreShort(size);
    HexHasNoSemicolon(Hex(size));
    HexIsUtf8(c, Hex(size));
  }

  lemma {:induction false} SizeParses(c: Config, size: nat, signature: Bytes)
    requires !c.mode.UnsignedTrailer? && AcceptsAscii(c) && size <= MAX_CHUNK_BYTES && IsSha256(signature)
    ensures ParseSize(c, HeaderFor(c, size, signature)) == Ok(size)
    ensures |HeaderFor(c, size, signature)| <= MAX_CHUNK_HEADER_BYTES
  {
    hide Hex, IndexOf, HexValue, AcceptsAscii;
    var header, digits := HeaderFor(c, size, signature), Hex(size);
    HexRoundTrip(size);
    ChunkSizesAreShort(size);
    SemicolonFound(digits, SIGNATURE_PREFIX + signature);
    forall i | 0 <= i < |header| ensures header[i] < 128 {
      HeaderIsAscii(digits, signature, i);
    }
    AsciiIsUtf8(c, header);
  }

  lemma {:induction false} SignatureParses(c: Config, size: nat, signature: Bytes)
    requires !c.mode.UnsignedTrailer? && IsSha256(signature)
    ensures ParseExtension(c, HeaderFor(c, size, signature)) == Ok(Some(Lowercase(signature)))
  {
    hide Hex, IndexOf, HexValue, Lowercase, ParseExtension;
    HexRoundTrip(size);
    var extension := SIGNATURE_PREFIX + signature;
    SemicolonFound(Hex(size), extension);
    ExtensionParses(c, HeaderFor(c, size, signature), signature);
  }

  lemma {:induction false} ExtensionParses(c: Config, line: Bytes, signature: Bytes)
    requires !c.mode.UnsignedTrailer? && IsSha256(signature)
    requires IndexOf(line, SEMICOLON) < |line| && line[IndexOf(line, SEMICOLON) + 1..] == SIGNATURE_PREFIX + signature
    ensures ParseExtension(c, line) == Ok(Some(Lowercase(signature)))
  {
    hide IndexOf, Lowercase;
    var extension := SIGNATURE_PREFIX + signature;
    assert extension[|SIGNATURE_PREFIX|..] == signature;
  }

  lemma {:induction false} HeaderIsAscii(digits: Bytes, signature: Bytes, i: nat)
    requires AllHex(digits) && AllHex(signature)
    requires i < |digits + [SEMICOLON] + (SIGNATURE_PREFIX + signature)|
    ensures (digits + [SEMICOLON] + (SIGNATURE_PREFIX + signature))[i] < 128
  {
    var header := digits + [SEMICOLON] + (SIGNATURE_PREFIX + signature);
    var start := |digits| + 1;
    if start <= i < start + |SIGNATURE_PREFIX| {
      assert header[i] == SIGNATURE_PREFIX[i - start];
    } else if i >= start {
      assert header[i] == signature[i - start - |SIGNATURE_PREFIX|];
    }
  }

  lemma {:induction false} SemicolonFound(digits: Bytes, extension: Bytes)
    requires AllHex(digits)
    ensures var line := digits + [SEMICOLON] + extension;
            IndexOf(line, SEMICOLON) == |digits| && line[..|digits|] == digits && line[|digits| + 1..] == extension
  {
    hide IndexOf;
    var line := digits + [SEMICOLON] + extension;
    assert line[|digits|] == SEMICOLON;
    forall i | 0 <= i < |digits| ensures line[i] != SEMICOLON { assert line[i] == digits[i]; }
  }

  lemma {:induction false} FramesChain(c: Config, previous: Bytes, bodies: seq<Bytes>)
    requires SignsInHex(c) && AcceptsAscii(c)
    requires forall i :: 0 <= i < |bodies| ==> 0 < |bodies[i]| <= MAX_CHUNK_BYTES
    ensures var frames := Frames(c, previous, bodies);
            && Chained(c, previous, frames) && Bodies(frames) == Flatten(bodies) && |frames| == |bodies|
            && LastSignature(c, previous, frames) == ChainEnd(c, previous, bodies)
    decreases |bodies|
  {
    hide Announces, HeaderFor, SignatureOf, SignsInHex, AcceptsAscii, NextSignature;
    if bodies != [] {
      var signature := NextSignature(c, previous, bodies[0]);
      HeaderParses(c, previous, bodies[0]);
      FramesChain(c, signature, bodies[1..]);
      assert Frames(c, previous, bodies)[1..] == Frames(c, signature, bodies[1..]);
    }
  }

  lemma {:induction false} SignatureLineIsAscii(signature: Bytes, i: nat)
    requires AllHex(signature) && i < |SignatureLine(signature)|
    ensures SignatureLine(signature)[i] < 128
  {
    var line := SignatureLine(signature);
    if i < |TRAILER_SIGNATURE| {
      assert line[i] == TRAILER_SIGNATURE[i];
    } else if i > |TRAILER_SIGNATURE| {
      assert line[i] == signature[i - |TRAILER_SIGNATURE| - 1];
    }
  }

  lemma {:induction false} TrailerSigned(c: Config, previous: Bytes, name: Bytes, value: Bytes)
    requires SignsInHex(c) && AcceptsAscii(c) && !c.mode.Signed?
    ensures SignatureOk(c, previous, TrailerFor(c, previous, name, value).value)
  {
    hide SignatureLine, Lowercase, AcceptsAscii;
    if c.mode.SignedTrailer? {
      var signature := c.trailerSignature(previous, name, value);
      assert IsLowerHash(signature);
      forall i | 0 <= i < |SignatureLine(signature)| ensures SignatureLine(signature)[i] < 128 {
        SignatureLineIsAscii(signature, i);
      }
      AsciiIsUtf8(c, SignatureLine(signature));
      HexIsTrimmed(c, signature);
    }
  }

  /**
   In every mode an encoding within the framing limits decodes to the data it was made from: chunk
   signatures chained from the seed, and in the trailer modes an admissible checksum trailer, signed with
   the end of the chain in the signed one.
   */
  lemma {:induction false} ClientRoundTrip(c: Config, bodies: seq<Bytes>, name: Bytes, value: Bytes)
    requires SignsInHex(c) && AcceptsAscii(c)
    requires forall i :: 0 <= i < |bodies| ==> 0 < |bodies[i]| <= MAX_CHUNK_BYTES
    requires |bodies| < MAX_CHUNKS && |Flatten(bodies)| == c.expectedLength
    requires !c.mode.Signed? ==> ChecksumOk(c, Trailer(name, value, None))
    ensures Decode(c, Encode(ClientStream(c, bodies, name, value))) == Ok(Flatten(bodies))
  {
    hide Announces, HeaderFor, SignatureOf, SignsInHex, AcceptsAscii, Decode, Encode, Chained, Flatten, SignatureOk,
      NextSignature;
    FramesChain(c, c.seed, bodies);
    var end := ChainEnd(c, c.seed, bodies);
    HeaderParses(c, end, []);
    if !c.mode.Signed? { TrailerSigned(c, NextSignature(c, end, []), name, value); }
    AcceptedDecodes(c, ClientStream(c, bodies, name, value));
  }
}
