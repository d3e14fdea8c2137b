/** What holds after every prefix of every stream: how much is decoded, and how much is buffered. */
module AwsChunkedBounds {
  import opened Common
  import opened AwsChunked

  predicate LineKept(st: St) {
    if st.phase.Header? || st.phase.Trailers? then Buffered(st.line, LineLimit(st.phase)) else st.line == []
  }

  /** `n` bytes have been put out. */
  predicate Reached(c: Config, st: St, n: nat) {
    && LineKept(st)
    && n + st.remaining == st.decoded <= c.expectedLength
    && (st.phase.Data? <==> st.remaining > 0)
    && st.chunks <= MAX_CHUNKS
  }

  lemma {:induction false} ActReaches(c: Config, st: St, line: Bytes, n: nat)
    requires Reached(c, st, n) && (st.phase.Header? || st.phase.Trailers?)
    ensures var r := ActOnLine(c, st, line); r.Ok? ==> Reached(c, r.value, n)
  {
    hide ParseSize, ParseExtension, FirstCrlf, IsTrailerName, IsSha256;
    NothingBuffered(MAX_CHUNK_HEADER_BYTES);
    NothingBuffered(MAX_TRAILER_LINE_BYTES);
  }

  lemma {:induction false} NothingBuffered(limit: nat)
    ensures Buffered([], limit)
  {
  }

  lemma {:induction false} StepReaches(c: Config, st: St, b: byte, n: nat)
    requires Reached(c, st, n)
    ensures var r := Step(c, st, b); r.Ok? ==> Reached(c, r.value.st, n + |r.value.output|)
  {
    hide ActOnLine, FirstCrlf, Buffered, TakeByte;
    if st.phase.Header? || st.phase.Trailers? {
      var took := TakeByte(st.line, b, LineLimit(st.phase));
      TakeByteExactly(st.line, b, LineLimit(st.phase));
      if took.Got? { ActReaches(c, st, took.line, n); }
    }
    NothingBuffered(MAX_CHUNK_HEADER_BYTES);
  }

  lemma {:induction false} RunReaches(c: Config, st: St, input: Bytes, n: nat)
    requires Reached(c, st, n)
    ensures var r := Run(c, st, input); r.Ok? ==> Reached(c, r.value.st, n + |r.value.output|)
    decreases |input|
  {
    hide Step, Reached;
    if input != [] {
      var step := Step(c, st, input[0]);
      StepReaches(c, st, input[0], n);
      if step.Ok? { RunReaches(c, step.value.st, input[1..], n + |step.value.output|); }
    }
  }

  /**
   At every point of every run: the output and what is still due of the current chunk make up the decoded
   length, which never exceeds the declared one, and no more than one line and a CR is buffered.
   */
  lemma {:induction false} NeverExceeds(c: Config, input: Bytes)
    requires Run(c, Init(c), input).Ok?
    ensures var ran := Run(c, Init(c), input).value;
            && |ran.output| + ran.st.remaining == ran.st.decoded <= c.expectedLength
            && |ran.st.line| <= LineLimit(ran.st.phase) + 1
            && FirstCrlf(ran.st.line) == |ran.st.line|
  {
    hide Run;
    NothingBuffered(MAX_CHUNK_HEADER_BYTES);
    RunReaches(c, Init(c), input, 0);
    var ran := Run(c, Init(c), input).value;
    assert LineKept(ran.st);
    NothingBuffered(LineLimit(ran.st.phase));
  }
}
