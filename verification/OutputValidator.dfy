/** Validation of a complete list of output records as one stream. */
module OutputValidator {
  import opened Common
  import opened Streams
  import opened RecordSpec
  import opened RecordTheorems
  import opened RecordMeaning
  import opened RecordFragile
  import opened RecordCuts
  import opened RecordChunks
  import opened RecordDecoder

  /** `bytes.chunks(n)`. */
  function Frames(bytes: Bytes, n: nat): (frames: seq<Bytes>)
    requires n > 0
    ensures Flatten(frames) == bytes
    ensures forall i :: 0 <= i < |frames| ==> 1 <= |frames[i]| <= n
    decreases |bytes|
  {
    if bytes == [] then []
    else if |bytes| <= n then assert Flatten([bytes][1..]) == []; [bytes]
    else
      var rest := Frames(bytes[n..], n);
      assert ([bytes[..n]] + rest)[1..] == rest;
      [bytes[..n]] + rest
  }

  /** The frames in which the validator feeds the records to its decoder. */
  function CutOf(records: seq<Record>, n: nat): seq<Bytes>
    requires n > 0
  {
    if records == [] then []
    else
      var last := records[|records| - 1];
      CutOf(records[..|records| - 1], n) + Frames(last.payload, n) + Frames(last.separator, n)
  }

  /** Whether a complete output stream is well formed; `jsonOk` is only asked for JSON Lines. */
  predicate ValidOutput(c: Config, jsonOk: Bytes -> bool, output: Bytes) {
    output == [] || Approved(Whole(c, output), jsonOk)
  }

  predicate Approved(o: Outcome, jsonOk: Bytes -> bool) {
    Accepted(o) && forall r :: r in o.records ==> jsonOk(r.payload)
  }

  /** The verdict on an output cut into these frames. */
  predicate Verdict(c: Config, jsonOk: Bytes -> bool, frames: seq<Bytes>) {
    Flatten(frames) == [] || Approved(RunAll(c, frames), jsonOk)
  }

  lemma {:induction false} JoinedSnoc(records: seq<Record>, r: Record)
    ensures Joined(records + [r]) == Joined(records) + r.payload + r.separator
  {
    hide Joined;
    JoinedNothing();
    if records == [] {
      assert [] + [r] == [r] + [];
      JoinedCons(r, []);
    } else {
      assert records + [r] == [records[0]] + (records[1..] + [r]);
      assert records == [records[0]] + records[1..];
      JoinedCons(records[0], records[1..] + [r]);
      JoinedCons(records[0], records[1..]);
      JoinedSnoc(records[1..], r);
    }
  }

  lemma {:induction false} CutJoins(records: seq<Record>, n: nat)
    requires n > 0
    ensures Flatten(CutOf(records, n)) == Joined(records)
    ensures forall i :: 0 <= i < |CutOf(records, n)| ==> 1 <= |CutOf(records, n)[i]| <= n
  {
    hide Joined, Flatten, Frames;
    if records == [] {
      JoinedNothing();
      FlattenNothing(CutOf(records, n));
    } else {
      var before, last := records[..|records| - 1], records[|records| - 1];
      CutJoins(before, n);
      FlattenTogether(CutOf(before, n), Frames(last.payload, n));
      FlattenTogether(CutOf(before, n) + Frames(last.payload, n), Frames(last.separator, n));
      assert records == before + [last];
      JoinedSnoc(before, last);
    }
  }

  /** What any cut approves is valid, and a valid output that holds no fragile record is approved in every cut. */
  lemma {:induction false} VerdictIsSound(c: Config, jsonOk: Bytes -> bool, frames: seq<Bytes>)
    ensures Verdict(c, jsonOk, frames) ==> ValidOutput(c, jsonOk, Flatten(frames))
    ensures !Fragile(c, Flatten(frames)) ==> (Verdict(c, jsonOk, frames) <==> ValidOutput(c, jsonOk, Flatten(frames)))
  {
    hide RunAll, Whole;
    RunAgreesOrFails(c, frames);
    if !Fragile(c, Flatten(frames)) { PartitionIndependent(c, frames); }
  }

  /** The limits a decoder can be made with. */
  predicate LimitsOk(c: Config, maxFrame: nat) {
    maxFrame > 0 && c.maxRecord > 0 && c.maxFields > 0
  }

  /**
   The validator feeds payloads and separators frame by frame to one decoder. What it accepts is valid as
   one stream, and on outputs without fragile records it accepts exactly the valid ones.
   */
  method ValidateOutputRecords(c: Config, maxFrame: nat, jsonOk: Bytes -> bool, records: seq<Record>) returns (ok: bool)
    ensures ok <==> LimitsOk(c, maxFrame) && Verdict(c, jsonOk, CutOf(records, maxFrame))
    ensures ok ==> ValidOutput(c, jsonOk, Joined(records))
    ensures LimitsOk(c, maxFrame) && !SomeFragile(c, Split(c, Joined(records))) ==>
            (ok <==> ValidOutput(c, jsonOk, Joined(records)))
  {
    hide Flatten, Joined, RunAll, Whole, Frames, ValidOutput, Fragile, Split, SomeFragile;
    if maxFrame == 0 || c.maxRecord == 0 || c.maxFields == 0 {
      return false;
    }
    var frames: seq<Bytes> := [];
    var inputSeen := false;
    var i := 0;
    FlattenNothing(frames);
    while i < |records|
      invariant 0 <= i <= |records|
      invariant frames == CutOf(records[..i], maxFrame)
      invariant inputSeen == (Flatten(frames) != [])
    {
      var payload, separator := Frames(records[i].payload, maxFrame), Frames(records[i].separator, maxFrame);
      FlattenTogether(frames, payload);
      FlattenTogether(frames + payload, separator);
      assert records[..i + 1][..i] == records[..i];
      frames := frames + payload + separator;
      inputSeen := inputSeen || records[i].payload != [] || records[i].separator != [];
      i := i + 1;
    }
    assert records[..i] == records;
    CutJoins(records, maxFrame);
    VerdictIsSound(c, jsonOk, frames);
    FragileExactly(c, Joined(records));
    if !inputSeen {
      return true;
    }
    var o := DecodeAll(c, maxFrame, frames);
    ok := o.error.None? && forall r :: r in o.records ==> jsonOk(r.payload);
  }

  // ---- when the verdict depends on the records' boundaries -------------------------------------

  /** Frames presented as records without separator. */
  function AsRecords(frames: seq<Bytes>): seq<Record> {
    if frames == [] then [] else AsRecords(frames[..|frames| - 1]) + [Record(frames[|frames| - 1], [])]
  }

  lemma {:induction false} CutOfAsRecords(frames: seq<Bytes>, n: nat)
    requires n > 0 && forall i :: 0 <= i < |frames| ==> 1 <= |frames[i]| <= n
    ensures CutOf(AsRecords(frames), n) == frames
  {
    if frames != [] {
      var before, last := frames[..|frames| - 1], frames[|frames| - 1];
      CutOfAsRecords(before, n);
      var records := AsRecords(before);
      assert (records + [Record(last, [])])[..|records|] == records;
      assert frames == before + [last];
    }
  }

  /** There is only one way to cut into single bytes. */
  lemma {:induction false} SinglesUnique(frames: seq<Bytes>)
    requires forall i :: 0 <= i < |frames| ==> |frames[i]| == 1
    ensures frames == Singles(Flatten(frames))
  {
    if frames != [] {
      SinglesUnique(frames[1..]);
      assert Flatten(frames) == frames[0] + Flatten(frames[1..]);
      assert Flatten(frames)[1..] == Flatten(frames[1..]) && frames[0] == [Flatten(frames)[0]];
      assert frames == [frames[0]] + frames[1..];
    }
  }

  /** A cut that approves does not leave the buffer full. */
  lemma {:induction false} ApprovedIsNotFull(c: Config, frames: seq<Bytes>)
    requires Accepted(RunAll(c, frames))
    ensures Drain(c, Flatten(frames), false).rest.Ok? && !Full(c, Flatten(frames))
  {
    hide Feed, Drain, Next, Full, Close;
    EmptyWaits(c);
    assert [] + Flatten(frames) == Flatten(frames);
    FedDrained(c, [], frames);
  }

  /** `accepted` and `refused` are the same bytes; only the boundaries between their records differ. */
  ghost predicate Differ(c: Config, maxFrame: nat, jsonOk: Bytes -> bool, output: Bytes, accepted: seq<Record>,
      refused: seq<Record>)
    requires maxFrame > 0
  {
    && Joined(accepted) == output && Joined(refused) == output
    && Verdict(c, jsonOk, CutOf(accepted, maxFrame)) && !Verdict(c, jsonOk, CutOf(refused, maxFrame))
  }

  /** The outputs on which the verdict is not one on the bytes alone. */
  predicate CutMatters(c: Config, maxFrame: nat, jsonOk: Bytes -> bool, output: Bytes) {
    && maxFrame >= 2
    && ValidOutput(c, jsonOk, output)
    && SomeFragile(c, Split(c, output))
    && !EndsInFullCr(c, Split(c, output))
  }

  lemma {:induction false} DifferMatters(c: Config, maxFrame: nat, jsonOk: Bytes -> bool, output: Bytes,
      accepted: seq<Record>, refused: seq<Record>)
    requires LimitsOk(c, maxFrame) && Differ(c, maxFrame, jsonOk, output, accepted, refused)
    ensures CutMatters(c, maxFrame, jsonOk, output)
  {
    hide Joined, RunAll, Fragile, Split, SomeFragile, Full, EndsInFullCr;
    var a, b := CutOf(accepted, maxFrame), CutOf(refused, maxFrame);
    CutJoins(accepted, maxFrame);
    CutJoins(refused, maxFrame);
    VerdictIsSound(c, jsonOk, a);
    VerdictIsSound(c, jsonOk, b);
    FragileExactly(c, output);
    ApprovedIsNotFull(c, a);
    FullExactly(c, output, output != [], false);
    if maxFrame == 1 {
      SinglesUnique(a);
      SinglesUnique(b);
    }
  }

  lemma {:induction false} MattersDiffer(c: Config, maxFrame: nat, jsonOk: Bytes -> bool, output: Bytes)
    requires LimitsOk(c, maxFrame) && CutMatters(c, maxFrame, jsonOk, output)
    ensures Differ(c, maxFrame, jsonOk, output, AsRecords(Pairs(c, output, 0)), AsRecords(Singles(output)))
  {
    hide Joined, RunAll, Split, SomeFragile, Full, EndsInFullCr, Pairs, Singles, AsRecords, CutOf, Flatten;
    assert output != [] by { NothingFragile(c); }
    FullExactly(c, output, output != [], false);
    PairsAgree(c, output);
    SinglesFail(c, output);
    FlattenSingles(output);
    SinglesShort(output);
    CutOfAsRecords(Pairs(c, output, 0), maxFrame);
    CutOfAsRecords(Singles(output), maxFrame);
    CutJoins(AsRecords(Pairs(c, output, 0)), maxFrame);
    CutJoins(AsRecords(Singles(output)), maxFrame);
  }

  /**
   Two record lists of the same bytes get different verdicts exactly when frames hold two bytes, the output
   is valid and holds a fragile record, and its last record is not a maximal one before a final CR (such an
   output is refused in every cut).
   */
  lemma {:induction false} VerdictDependsExactly(c: Config, maxFrame: nat, jsonOk: Bytes -> bool, output: Bytes)
    requires LimitsOk(c, maxFrame)
    ensures (exists accepted, refused :: Differ(c, maxFrame, jsonOk, output, accepted, refused)) <==>
            CutMatters(c, maxFrame, jsonOk, output)
  {
    hide Differ, CutMatters;
    if accepted, refused :| Differ(c, maxFrame, jsonOk, output, accepted, refused) {
      DifferMatters(c, maxFrame, jsonOk, output, accepted, refused);
    }
    if CutMatters(c, maxFrame, jsonOk, output) {
      MattersDiffer(c, maxFrame, jsonOk, output);
    }
  }

  /** A valid output that ends in a maximal CSV record and CR is refused however it is cut. */
  lemma {:induction false} FullCrIsRefused(c: Config, maxFrame: nat, jsonOk: Bytes -> bool, records: seq<Record>)
    requires LimitsOk(c, maxFrame) && Joined(records) != [] && Accepted(Whole(c, Joined(records)))
    requires EndsInFullCr(c, Split(c, Joined(records)))
    ensures !Verdict(c, jsonOk, CutOf(records, maxFrame))
  {
    hide Joined, RunAll, Split, Full, EndsInFullCr;
    CutJoins(records, maxFrame);
    FullExactly(c, Joined(records), true, false);
    if Verdict(c, jsonOk, CutOf(records, maxFrame)) { ApprovedIsNotFull(c, CutOf(records, maxFrame)); }
  }

  // ---- two outputs -----------------------------------------------------------------------------

  /** One line of one byte under a limit of one: CR in the payload is refused, CR in the separator is not. */
  lemma {:induction false} LineCutExample()
    ensures var c := Config(Line, 1, 1, _ => true, _ => None);
            var accepted, refused := [Record([97], [CR, LF])], [Record([97, CR], [LF])];
            Joined(accepted) == Joined(refused) == [97, CR, LF]
              && Differ(c, 2, _ => true, [97, CR, LF], accepted, refused)
  {
    var c := Config(Line, 1, 1, _ => true, _ => None);
    var accepted, refused := [Record([97], [CR, LF])], [Record([97, CR], [LF])];
    CutOfOne(accepted[0], 2);
    CutOfOne(refused[0], 2);
    JoinedNothing();
    JoinedCons(accepted[0], []);
    JoinedCons(refused[0], []);
    assert accepted == [accepted[0]] + [] && refused == [refused[0]] + [];
    LineExampleRuns(c);
    CutJoins(accepted, 2);
    CutJoins(refused, 2);
  }

  lemma {:induction false} CutOfOne(r: Record, n: nat)
    requires n > 0 && 1 <= |r.payload| <= n && 1 <= |r.separator| <= n
    ensures CutOf([r], n) == [r.payload, r.separator]
  {
    assert [r][..0] == [];
    assert CutOf([], n) == [];
  }

  lemma {:induction false} LineExampleRuns(c: Config)
    requires c.format.Line? && c.maxRecord == 1 && c.utf8([97])
    ensures Accepted(RunAll(c, [[97], [CR, LF]])) && RunAll(c, [[97, CR], [LF]]).error == Some(TooLarge)
  {
    var a: seq<Bytes>, b: seq<Bytes> := [[97], [CR, LF]], [[97, CR], [LF]];
    FeedCons(c, [], [97], [[CR, LF]]);
    FeedCons(c, [97], [CR, LF], []);
    FeedCons(c, [], [97, CR], [[LF]]);
    assert a == [[97]] + [[CR, LF]] && b == [[97, CR]] + [[LF]] && [[CR, LF]] == [[CR, LF]] + [];
    var first, all := [97], [97, CR, LF];
    assert [] + [97] == first && first + [CR, LF] == all && [] + [97, CR] == [97, CR];
    assert FirstLf(first) == 1 && FirstLf([97, CR]) == 2;
    FirstLfIsFirst(all, 2);
    assert LineRecord(all, 2) == Record([97], [CR, LF]);
    assert all[3..] == [];
    assert Next(c, all, false) == Emit(Record([97], [CR, LF]), 3);
    EmptyWaits(c);
    assert Drain(c, [], true) == Fed([], Ok([]));
    assert Drain(c, all, true).rest == Ok([]);
    assert Flatten(a) != [] by { assert a[0] != []; }
  }

  /** A CSV output of one maximal record and CR: valid and fragile, and yet every cut is refused. */
  lemma {:induction false} CsvRefusedExample(maxFrame: nat, records: seq<Record>)
    requires maxFrame > 0 && Joined(records) == [97, CR]
    ensures var c := Config(Csv, 1, 1, _ => true, _ => None);
            && ValidOutput(c, _ => true, Joined(records)) && SomeFragile(c, Split(c, Joined(records)))
            && !Verdict(c, _ => true, CutOf(records, maxFrame))
  {
    hide Joined, Verdict, CutOf, SplitCsv, SomeFragile, FirstBreak, JudgeCsv, Whole;
    var c := Config(Csv, 1, 1, _ => true, _ => None);
    var output, r := [97, CR], Record([97], [CR]);
    OneByteAndCr(c);
    WholeJudgesCsv(c, output);
    JudgeCsvCons(c, r, [], false);
    NoCsv(c, true);
    SomeFragileCons(c, r, []);
    FullCrIsRefused(c, maxFrame, _ => true, records);
  }
}
