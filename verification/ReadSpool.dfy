/**
 The encrypted spool of transformed reads: plaintext of any write sizes goes to disk in fixed-size sealed
 frames, within a disk space reserved in advance, and is read back frame by frame. The cipher is an abstract
 pair of inverse functions and a frame's nonce a function of its number.
 */
module ReadSpool {
  import opened Common
  import opened Streams
  import opened BigEndian
  import SpoolQuota

  const NONCE_BYTES: nat := 12
  const TAG_BYTES: nat := 16
  const FRAME_BYTES: nat := 65_536
  const OVERHEAD: nat := 32

  datatype Error = CapacityExceeded | UnexpectedEof | OversizedFrame | AuthenticationFailed

  datatype Cipher = Cipher(
    nonce: nat -> Bytes,
    seal: (Bytes, nat, Bytes) -> Bytes,
    unseal: (Bytes, nat, Bytes) -> Option<Bytes>)

  /** Nonces have their length, sealing adds a tag, and unsealing inverts it. */
  ghost predicate Sound(c: Cipher) {
    && (forall k :: |c.nonce(k)| == NONCE_BYTES)
    && (forall nonce, k, plain :: |c.seal(nonce, k, plain)| == |plain| + TAG_BYTES)
    && (forall nonce, k, plain :: c.unseal(nonce, k, c.seal(nonce, k, plain)) == Some(plain))
  }

  // ---- frames ------------------------------------------------------------------------------------------

  /** The data in full frames, the last one shorter when it must be. */
  function Split(data: Bytes): (frames: seq<Bytes>)
    decreases |data|
  {
    if data == [] then []
    else if |data| <= FRAME_BYTES then [data]
    else [data[..FRAME_BYTES]] + Split(data[FRAME_BYTES..])
  }

  predicate AllFull(frames: seq<Bytes>) {
    forall i :: 0 <= i < |frames| ==> |frames[i]| == FRAME_BYTES
  }

  function FramesFor(n: nat): nat {
    (n + FRAME_BYTES - 1) / FRAME_BYTES
  }

  /** Every frame is full except possibly the last, none is empty, and together they are the data. */
  lemma {:induction false} SplitIs(data: Bytes)
    ensures var frames := Split(data);
            && Flatten(frames) == data && |frames| == FramesFor(|data|)
            && (forall i :: 0 <= i < |frames| ==> 0 < |frames[i]| <= FRAME_BYTES)
            && (frames != [] ==> AllFull(frames[..|frames| - 1]))
    decreases |data|
  {
    if |data| > FRAME_BYTES {
      var head, tail := data[..FRAME_BYTES], data[FRAME_BYTES..];
      SplitIs(tail);
      var frames, rest := Split(data), Split(tail);
      assert frames[1..] == rest && head + tail == data;
      assert rest != [];
      assert frames[..|frames| - 1] == [head] + rest[..|rest| - 1];
    } else if data != [] {
      assert Split(data)[1..] == [] && data + [] == data;
    }
  }

  /** The split is the only way to cut data like that. */
  lemma {:induction false} SplitUnique(frames: seq<Bytes>, last: Bytes)
    requires AllFull(frames) && |last| <= FRAME_BYTES
    ensures last != [] ==> Split(Flatten(frames) + last) == frames + [last]
    ensures Split(Flatten(frames)) == frames
    decreases |frames|
  {
    if frames == [] {
      assert Flatten(frames) + last == last;
    } else {
      var rest := frames[1..];
      SplitUnique(rest, last);
      var data := Flatten(frames) + last;
      assert data == frames[0] + (Flatten(rest) + last);
      FullFirst(frames[0], Flatten(rest) + last);
      FullFirst(frames[0], Flatten(rest));
      assert frames == [frames[0]] + rest;
      assert [frames[0]] + (rest + [last]) == frames + [last];
    }
  }

  lemma {:induction false} FullFirst(frame: Bytes, rest: Bytes)
    requires |frame| == FRAME_BYTES
    ensures Split(frame + rest) == [frame] + Split(rest)
  {
    var data := frame + rest;
    if rest == [] {
      assert data == frame;
    } else {
      assert data[..FRAME_BYTES] == frame && data[FRAME_BYTES..] == rest;
    }
  }

  // ---- the file ----------------------------------------------------------------------------------------

  function NextNumber(k: nat): nat {
    if k < U64_MAX then k + 1 else U64_MAX
  }

  /** Length prefix, nonce, ciphertext and tag. */
  function SealFrame(c: Cipher, k: nat, plain: Bytes): Bytes {
    Unsigned(|plain|, 4) + (c.nonce(k) + c.seal(c.nonce(k), k, plain))
  }

  function SealAll(c: Cipher, k: nat, frames: seq<Bytes>): Bytes
    decreases |frames|
  {
    if frames == [] then [] else SealFrame(c, k, frames[0]) + SealAll(c, NextNumber(k), frames[1..])
  }

  function NumberAfter(k: nat, n: nat): nat
    decreases n
  {
    if n == 0 then k else NumberAfter(NextNumber(k), n - 1)
  }

  lemma {:induction false} SealSnoc(c: Cipher, k: nat, frames: seq<Bytes>, plain: Bytes)
    ensures SealAll(c, k, frames + [plain]) == SealAll(c, k, frames) + SealFrame(c, NumberAfter(k, |frames|), plain)
    ensures NumberAfter(k, |frames| + 1) == NextNumber(NumberAfter(k, |frames|))
    decreases |frames|
  {
    hide SealFrame;
    if frames == [] {
      assert [] + [plain] == [plain] && [plain][1..] == [];
      assert SealAll(c, k, [plain]) == SealFrame(c, k, plain) + [];
      assert NumberAfter(k, 1) == NumberAfter(NextNumber(k), 0);
    } else {
      assert (frames + [plain])[0] == frames[0] && (frames + [plain])[1..] == frames[1..] + [plain];
      SealSnoc(c, NextNumber(k), frames[1..], plain);
    }
  }

  /** Each frame costs its plaintext and the fixed overhead. */
  lemma {:induction false} FileSize(c: Cipher, k: nat, frames: seq<Bytes>)
    requires Sound(c)
    ensures |SealAll(c, k, frames)| == |Flatten(frames)| + OVERHEAD * |frames|
    decreases |frames|
  {
    if frames != [] {
      FrameSize(c, k, frames[0]);
      FileSize(c, NextNumber(k), frames[1..]);
    }
  }

  lemma {:induction false} FrameSize(c: Cipher, k: nat, plain: Bytes)
    requires Sound(c)
    ensures |SealFrame(c, k, plain)| == |plain| + OVERHEAD
  {
    hide Unsigned;
    assert |Unsigned(|plain|, 4)| == 4;
  }

  /** `disk_reservation`: nothing when a machine word would overflow. */
  function Reservation(max: nat): Option<nat> {
    if max + (FRAME_BYTES - 1) > U64_MAX then None
    else
      var frames := (max + (FRAME_BYTES - 1)) / FRAME_BYTES;
      if frames * OVERHEAD > U64_MAX || max + frames * OVERHEAD > U64_MAX then None
      else Some(max + frames * OVERHEAD)
  }

  lemma {:induction false} ReservationIsPositive(max: nat)
    requires max > 0 && Reservation(max).Some?
    ensures Reservation(max).value > 0
  {
  }

  /** No data within the limit can need more than was reserved. */
  lemma {:induction false} ReservationSuffices(c: Cipher, max: nat, data: Bytes)
    requires Sound(c) && Reservation(max).Some? && |data| <= max
    ensures |SealAll(c, 0, Split(data))| == |data| + OVERHEAD * FramesFor(|data|) <= Reservation(max).value
  {
    SplitIs(data);
    FileSize(c, 0, Split(data));
    FramesGrow(|data|, max);
  }

  lemma {:induction false} FramesGrow(a: nat, b: nat)
    requires a <= b
    ensures FramesFor(a) <= FramesFor(b)
  {
  }

  // ---- reading back ------------------------------------------------------------------------------------

  /** What has been sent before the end of the file or the error. */
  datatype Streamed = Streamed(sent: seq<Bytes>, error: Option<Error>)

  function Sending(plain: Bytes, rest: Streamed): Streamed {
    rest.(sent := [plain] + rest.sent)
  }

  datatype FrameRead = FrameRead(plain: Bytes, rest: Bytes)

  /** One frame from the front of a file that is not empty. */
  function ReadFrame(c: Cipher, file: Bytes, k: nat): Result<FrameRead, Error> {
    if |file| < 4 then Err(UnexpectedEof)
    else
      var length := ValueOf(file[..4]);
      if length > FRAME_BYTES then Err(OversizedFrame)
      else if |file| < 4 + NONCE_BYTES + length + TAG_BYTES then Err(UnexpectedEof)
      else
        var nonce := file[4..4 + NONCE_BYTES];
        var end := 4 + NONCE_BYTES + length + TAG_BYTES;
        var plain := c.unseal(nonce, k, file[4 + NONCE_BYTES..end]);
        if plain.None? then Err(AuthenticationFailed) else Ok(FrameRead(plain.value, file[end..]))
  }

  function Stream(c: Cipher, file: Bytes, k: nat): Streamed
    decreases |file|
  {
    if file == [] then Streamed([], None)
    else
      match ReadFrame(c, file, k)
      case Err(e) => Streamed([], Some(e))
      case Ok(frame) => Sending(frame.plain, Stream(c, frame.rest, NextNumber(k)))
  }

  lemma {:induction false} LengthReads(n: nat)
    requires n <= FRAME_BYTES
    ensures ValueOf(Unsigned(n, 4)) == n
  {
    assert Pow256(2) == 65_536;
    assert Pow256(4) == 0x1_0000_0000;
    UnsignedRoundTrip(n, 4);
  }

  lemma {:induction false} FrameReads(c: Cipher, k: nat, plain: Bytes, rest: Bytes)
    requires Sound(c) && |plain| <= FRAME_BYTES
    ensures ReadFrame(c, SealFrame(c, k, plain) + rest, k) == Ok(FrameRead(plain, rest))
  {
    hide Unsigned, ValueOf;
    var file := SealFrame(c, k, plain) + rest;
    var nonce := c.nonce(k);
    var sealed := c.seal(nonce, k, plain);
    LengthReads(|plain|);
    FrameParts(Unsigned(|plain|, 4), nonce, sealed, rest);
    assert file == Unsigned(|plain|, 4) + (nonce + sealed) + rest;
  }

  lemma {:induction false} FrameParts(length: Bytes, nonce: Bytes, sealed: Bytes, rest: Bytes)
    requires |length| == 4 && |nonce| == NONCE_BYTES
    ensures var file := length + (nonce + sealed) + rest;
            var end := 4 + NONCE_BYTES + |sealed|;
            file[..4] == length && file[4..4 + NONCE_BYTES] == nonce && file[4 + NONCE_BYTES..end] == sealed
              && file[end..] == rest
  {
  }

  /** Reading a sealed file back yields its frames and no error. */
  lemma {:induction false} StreamRoundTrip(c: Cipher, k: nat, frames: seq<Bytes>)
    requires Sound(c) && forall i :: 0 <= i < |frames| ==> |frames[i]| <= FRAME_BYTES
    ensures Stream(c, SealAll(c, k, frames), k) == Streamed(frames, None)
    decreases |frames|
  {
    hide SealFrame, ReadFrame, Sound;
    if frames != [] {
      var rest := SealAll(c, NextNumber(k), frames[1..]);
      FrameReads(c, k, frames[0], rest);
      FrameSize(c, k, frames[0]);
      StreamRoundTrip(c, NextNumber(k), frames[1..]);
      assert frames == [frames[0]] + frames[1..];
    }
  }

  /** `stream_decrypted_file`: the loop over the file. */
  method StreamFile(c: Cipher, file: Bytes) returns (r: Streamed)
    ensures r == Stream(c, file, 0)
  {
    hide ReadFrame;
    var sent: seq<Bytes>, rest, k := [], file, 0;
    ghost var whole := Stream(c, file, 0);
    assert [] + whole.sent == whole.sent;
    while rest != []
      invariant whole == Streamed(sent + Stream(c, rest, k).sent, Stream(c, rest, k).error)
      decreases |rest|
    {
      FrameShrinks(c, rest, k);
      var frame := ReadFrame(c, rest, k);
      if frame.Err? {
        assert sent + [] == sent;
        return Streamed(sent, Some(frame.error));
      }
      ghost var later := Stream(c, frame.value.rest, NextNumber(k)).sent;
      assert sent + ([frame.value.plain] + later) == sent + [frame.value.plain] + later;
      sent := sent + [frame.value.plain];
      rest, k := frame.value.rest, NextNumber(k);
    }
    assert sent + [] == sent;
    r := Streamed(sent, None);
  }

  lemma {:induction false} FrameShrinks(c: Cipher, file: Bytes, k: nat)
    ensures var r := ReadFrame(c, file, k); r.Ok? ==> |r.value.rest| < |file|
  {
  }

  // ---- writing -----------------------------------------------------------------------------------------

  class Spool {
    const cipher: Cipher
    const maxObject: nat
    const reserved: nat
    var reservedBytes: nat
    var file: Bytes
    var bytes: nat
    var chunkNumber: nat
    var pending: Bytes
    /** All plaintext accepted so far, and the frames of it that are on disk. */
    ghost var written: Bytes
    ghost var frames: seq<Bytes>

    ghost predicate Valid()
      reads this
    {
      && Sound(cipher) && Reservation(maxObject) == Some(reserved)
      && (reservedBytes == reserved || reservedBytes == 0)
      && |pending| < FRAME_BYTES
      && AllFull(frames)
      && written == Flatten(frames) + pending
      && bytes == |written| <= maxObject
      && file == SealAll(cipher, 0, frames)
      && chunkNumber == NumberAfter(0, |frames|)
    }

    constructor (cipher: Cipher, maxObject: nat, reserved: nat)
      requires Sound(cipher) && Reservation(maxObject) == Some(reserved)
      ensures Valid() && this.cipher == cipher && this.maxObject == maxObject && this.reserved == reserved
      ensures written == [] && reservedBytes == reserved
    {
      this.cipher, this.maxObject, this.reserved := cipher, maxObject, reserved;
      reservedBytes := reserved;
      file, bytes, chunkNumber, pending := [], 0, 0, [];
      written, frames := [], [];
    }

    /** At every point the file is within the reservation. */
    lemma {:induction false} WithinReservation()
      requires Valid()
      ensures |file| == |Flatten(frames)| + OVERHEAD * |frames| <= reserved
    {
      SplitUnique(frames, []);
      ReservationSuffices(cipher, maxObject, Flatten(frames));
      FileSize(cipher, 0, frames);
    }

    method WriteFrame(plain: Bytes)
      requires file == SealAll(cipher, 0, frames) && chunkNumber == NumberAfter(0, |frames|)
      modifies this`file, this`chunkNumber, this`frames
      ensures frames == old(frames) + [plain]
      ensures file == SealAll(cipher, 0, frames) && chunkNumber == NumberAfter(0, |frames|)
    {
      hide Unsigned, SealAll, NumberAfter;
      SealSnoc(cipher, 0, frames, plain);
      var nonce := cipher.nonce(chunkNumber);
      var sealed := cipher.seal(nonce, chunkNumber, plain);
      ghost var before := file;
      file := file + Unsigned(|plain|, 4);
      file := file + nonce;
      file := file + sealed;
      FourPieces(before, Unsigned(|plain|, 4), nonce, sealed);
      chunkNumber := NextNumber(chunkNumber);
      frames := frames + [plain];
    }

    /** Takes more plaintext, writing every frame that becomes full; refuses what exceeds the object limit. */
    method Write(plaintext: Bytes) returns (r: Option<Error>)
      requires Valid()
      modifies this
      ensures Valid()
      ensures r == (if old(bytes) + |plaintext| > U64_MAX || old(bytes) + |plaintext| > maxObject then
              Some(CapacityExceeded) else None)
      ensures written == if r == None then old(written) + plaintext else old(written)
      ensures reservedBytes == old(reservedBytes)
    {
      hide SealAll, Flatten, NumberAfter, Sound;
      var next := bytes + |plaintext|;
      if next > U64_MAX || next > maxObject { return Some(CapacityExceeded); }
      bytes := next;
      var remaining := plaintext;
      ghost var goal := written + plaintext;
      if pending != [] {
        var take := Min(FRAME_BYTES - |pending|, |remaining|);
        Moved(Flatten(frames), pending, remaining, take);
        pending := pending + remaining[..take];
        remaining := remaining[take..];
        if |pending| == FRAME_BYTES {
          var full := pending;
          pending := [];
          FlattenSnoc(frames, full);
          WriteFrame(full);
          assert Flatten(frames) + [] == Flatten(frames);
        }
      }
      assert pending != [] ==> remaining == [];
      assert Flatten(frames) + pending + remaining == goal;
      while |remaining| >= FRAME_BYTES
        invariant AllFull(frames) && |pending| < FRAME_BYTES && bytes == next && reservedBytes == old(reservedBytes)
        invariant file == SealAll(cipher, 0, frames) && chunkNumber == NumberAfter(0, |frames|)
        invariant pending != [] ==> remaining == []
        invariant Flatten(frames) + pending + remaining == goal
        decreases |remaining|
      {
        var chunk := remaining[..FRAME_BYTES];
        FlattenSnoc(frames, chunk);
        MovedFrame(Flatten(frames), remaining);
        WriteFrame(chunk);
        remaining := remaining[FRAME_BYTES..];
      }
      Regroup(Flatten(frames), pending, remaining);
      pending := pending + remaining;
      written := goal;
      r := None;
    }

    /**
     The finished file: the frames of everything written, within the reservation, and it reads back whole. The
     reservation goes to the task that streams it.
     */
    method Finish() returns (data: Bytes, task: nat)
      requires Valid()
      modifies this
      ensures task == old(reservedBytes) && reservedBytes == 0
      ensures data == file == SealAll(cipher, 0, Split(old(written)))
      ensures |data| == |old(written)| + OVERHEAD * FramesFor(|old(written)|) <= reserved
      ensures Stream(cipher, data, 0) == Streamed(Split(old(written)), None)
      ensures Flatten(Split(old(written))) == old(written)
    {
      hide SealAll, Split, Stream, NumberAfter, Reservation, Sound, FramesFor;
      SplitUnique(frames, pending);
      SplitIs(written);
      ReservationSuffices(cipher, maxObject, written);
      StreamRoundTrip(cipher, 0, Split(written));
      assert pending == [] ==> Flatten(frames) + pending == Flatten(frames);
      if pending != [] {
        WriteFrame(pending);
        pending := [];
      }
      data := file;
      task := reservedBytes;
      reservedBytes := 0;
    }

    /** The reservation goes back to the quota; what the drop that follows finds is zero. */
    method Abort(quota: SpoolQuota.Quota)
      modifies this`reservedBytes, quota
      ensures reservedBytes == 0 && quota.reserved == SpoolQuota.Subtract(old(quota.reserved), old(reservedBytes))
    {
      quota.ReleaseBytes(reservedBytes);
      reservedBytes := 0;
    }

    /** A dropped spool releases what it still has: nothing once it was handed over or aborted. */
    method Drop(quota: SpoolQuota.Quota)
      modifies this`reservedBytes, quota
      ensures reservedBytes == 0
      ensures quota.reserved ==
              if old(reservedBytes) == 0 then old(quota.reserved)
              else SpoolQuota.Subtract(old(quota.reserved), old(reservedBytes))
    {
      if reservedBytes == 0 { return; }
      quota.ReleaseBytes(reservedBytes);
      reservedBytes := 0;
    }
  }

  lemma {:induction false} FourPieces(a: Bytes, b: Bytes, c: Bytes, d: Bytes)
    ensures a + b + c + d == a + (b + (c + d))
  {
  }

  lemma {:induction false} Regroup(a: Bytes, b: Bytes, c: Bytes)
    ensures a + b + c == a + (b + c)
  {
  }

  lemma {:induction false} Moved(front: Bytes, pending: Bytes, remaining: Bytes, take: nat)
    requires take <= |remaining|
    ensures front + pending + remaining == front + (pending + remaining[..take]) + remaining[take..]
  {
    assert remaining == remaining[..take] + remaining[take..];
  }

  lemma {:induction false} MovedFrame(front: Bytes, remaining: Bytes)
    requires |remaining| >= FRAME_BYTES
    ensures front + [] + remaining == front + remaining[..FRAME_BYTES] + [] + remaining[FRAME_BYTES..]
  {
    assert remaining == remaining[..FRAME_BYTES] + remaining[FRAME_BYTES..];
  }

  datatype BeginError = NoLimit | TooLarge | Quota(refusal: SpoolQuota.Refusal) | Disk

  /**
   Starting a spool: the limit is positive, its reservation fits a machine word and the quota grants it. When the
   file cannot be created (`created` is false) the reservation is given back, so a failure leaves the quota as it was.
   */
  method Begin(cipher: Cipher, maxObject: nat, quota: SpoolQuota.Quota, created: bool)
      returns (r: Result<Spool, BeginError>)
    requires Sound(cipher)
    modifies quota
    ensures r.Ok? <==>
            && maxObject > 0 && Reservation(maxObject).Some? && created
            && old(quota.reserved) + Reservation(maxObject).value <= quota.max
    ensures r.Ok? ==> quota.reserved == old(quota.reserved) + r.value.reserved
    ensures r.Err? ==> quota.reserved == old(quota.reserved)
    ensures r.Ok? ==> fresh(r.value) && r.value.Valid() && r.value.written == [] && r.value.maxObject == maxObject
  {
    hide Reservation, Sound;
    if maxObject == 0 { return Err(NoLimit); }
    var reservation := Reservation(maxObject);
    if reservation.None? { return Err(TooLarge); }
    ReservationIsPositive(maxObject);
    var refusal := quota.ReserveBytes(reservation.value);
    if refusal.Some? { return Err(Quota(refusal.value)); }
    if !created {
      quota.ReleaseBytes(reservation.value);
      return Err(Disk);
    }
    var spool := new Spool(cipher, maxObject, reservation.value);
    r := Ok(spool);
  }
}
