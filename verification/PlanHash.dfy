/**
 The bytes a reduction plan's hash is taken over. Every part is framed by its length, and the framing is
 injective: different plans never feed the hash the same bytes.
 */
module PlanHash {
  import opened BigEndian
  import opened Common
  import opened BinaryIr
  import opened Paths

  function U64Bytes(n: nat): (b: Bytes)
    ensures |b| == 8
  {
    Unsigned(Min(n, U64_MAX), 8)
  }

  function Part(b: Bytes): Bytes {
    U64Bytes(|b|) + b
  }

  /** `field`, `array-element`, `map-value`, `logical-value` */
  const FIELD: Bytes := [102, 105, 101, 108, 100]
  const ARRAY_ELEMENT: Bytes := [97, 114, 114, 97, 121, 45, 101, 108, 101, 109, 101, 110, 116]
  const MAP_VALUE: Bytes := [109, 97, 112, 45, 118, 97, 108, 117, 101]
  const LOGICAL_VALUE: Bytes := [108, 111, 103, 105, 99, 97, 108, 45, 118, 97, 108, 117, 101]
  /** `s4.binary-reductor.plan.v1` */
  const PLAN_DOMAIN: Bytes :=
    [115, 52, 46, 98, 105, 110, 97, 114, 121, 45, 114, 101, 100, 117, 99, 116, 111, 114, 46, 112, 108, 97, 110, 46, 118,
      49]

  datatype Plan = Plan(
    owner: string, source: Bytes, reduced: Bytes, claims: seq<Claim>, coverage: seq<Claim>, opaquePlan: Bytes)

  type Utf8 = string -> Bytes

  function SegmentBytes(u: Utf8, s: Step): Bytes {
    match s
    case InField(name) => Part(FIELD) + Part(u(name))
    case Element => Part(ARRAY_ELEMENT)
    case MapValue => Part(MAP_VALUE)
    case Logical => Part(LOGICAL_VALUE)
  }

  function SegmentsBytes(u: Utf8, path: Path): Bytes {
    if path == [] then [] else SegmentBytes(u, path[0]) + SegmentsBytes(u, path[1..])
  }

  function ClaimBytes(u: Utf8, c: Claim): Bytes {
    Part(u(c.typeId)) + (Part(U64Bytes(|c.path|)) + SegmentsBytes(u, c.path))
  }

  function EachClaim(u: Utf8, cs: seq<Claim>): Bytes {
    if cs == [] then [] else ClaimBytes(u, cs[0]) + EachClaim(u, cs[1..])
  }

  function ClaimsBytes(u: Utf8, cs: seq<Claim>): Bytes {
    Part(U64Bytes(|cs|)) + EachClaim(u, cs)
  }

  function PlanBytes(u: Utf8, p: Plan): Bytes {
    Part(PLAN_DOMAIN) + (Part(u(p.owner)) + (Part(p.source) + (Part(p.reduced) +
      (ClaimsBytes(u, p.claims) + (ClaimsBytes(u, p.coverage) + Part(p.opaquePlan))))))
  }

  // ---- cancellation --------------------------------------------------------------------------------

  /** Different strings have different encodings. */
  ghost predicate Encodes(u: Utf8) {
    forall a, b :: u(a) == u(b) ==> a == b
  }

  predicate Short(b: Bytes) {
    |b| <= U64_MAX
  }

  predicate ClaimFits(u: Utf8, c: Claim) {
    && Short(u(c.typeId)) && |c.path| <= U64_MAX
    && forall i :: 0 <= i < |c.path| && c.path[i].InField? ==> Short(u(c.path[i].name))
  }

  predicate ClaimsFit(u: Utf8, cs: seq<Claim>) {
    |cs| <= U64_MAX && forall i :: 0 <= i < |cs| ==> ClaimFits(u, cs[i])
  }

  /** Every length is a machine word. */
  predicate Fits(u: Utf8, p: Plan) {
    && Short(u(p.owner)) && Short(p.source) && Short(p.reduced) && Short(p.opaquePlan)
    && ClaimsFit(u, p.claims) && ClaimsFit(u, p.coverage)
  }

  lemma {:induction false} Cancel(a: Bytes, x: Bytes, b: Bytes, y: Bytes)
    requires a + x == b + y && |a| == |b|
    ensures a == b && x == y
  {
    assert (a + x)[..|a|] == a && (b + y)[..|b|] == b;
    assert (a + x)[|a|..] == x && (b + y)[|b|..] == y;
  }

  lemma {:induction false} PartCancels(a: Bytes, x: Bytes, b: Bytes, y: Bytes)
    requires Part(a) + x == Part(b) + y && Short(a) && Short(b)
    ensures a == b && x == y
  {
    hide Unsigned;
    assert Part(a) + x == U64Bytes(|a|) + (a + x);
    assert Part(b) + y == U64Bytes(|b|) + (b + y);
    Cancel(U64Bytes(|a|), a + x, U64Bytes(|b|), b + y);
    EightBytesHoldU64(|a|);
    EightBytesHoldU64(|b|);
    Cancel(a, x, b, y);
  }

  function Tag(s: Step): Bytes {
    match s
    case InField(_) => FIELD
    case Element => ARRAY_ELEMENT
    case MapValue => MAP_VALUE
    case Logical => LOGICAL_VALUE
  }

  lemma {:induction false} TagsDiffer(a: Step, b: Step)
    requires Tag(a) == Tag(b)
    ensures (a.InField? && b.InField?) || a == b
  {
    assert |FIELD| == 5 && |ARRAY_ELEMENT| == 13 && |MAP_VALUE| == 9 && |LOGICAL_VALUE| == 13;
    assert ARRAY_ELEMENT[0] == 97 && LOGICAL_VALUE[0] == 108;
  }

  lemma {:induction false} TagFirst(u: Utf8, s: Step, x: Bytes)
    ensures SegmentBytes(u, s) + x == Part(Tag(s)) + ((if s.InField? then Part(u(s.name)) else []) + x)
  {
    hide Part;
    if s.InField? {
      assert Part(FIELD) + Part(u(s.name)) + x == Part(FIELD) + (Part(u(s.name)) + x);
    } else {
      assert [] + x == x;
    }
  }

  lemma {:induction false} SegmentCancels(u: Utf8, a: Step, x: Bytes, b: Step, y: Bytes)
    requires Encodes(u) && SegmentBytes(u, a) + x == SegmentBytes(u, b) + y
    requires (a.InField? ==> Short(u(a.name))) && (b.InField? ==> Short(u(b.name)))
    ensures a == b && x == y
  {
    hide Part, SegmentBytes;
    TagFirst(u, a, x);
    TagFirst(u, b, y);
    var x' := (if a.InField? then Part(u(a.name)) else []) + x;
    var y' := (if b.InField? then Part(u(b.name)) else []) + y;
    PartCancels(Tag(a), x', Tag(b), y');
    TagsDiffer(a, b);
    if a.InField? {
      PartCancels(u(a.name), x, u(b.name), y);
    } else {
      assert x' == x && y' == y;
    }
  }

  lemma {:induction false} SegmentsCancel(u: Utf8, a: Path, x: Bytes, b: Path, y: Bytes)
    requires Encodes(u) && |a| == |b| && SegmentsBytes(u, a) + x == SegmentsBytes(u, b) + y
    requires forall i :: 0 <= i < |a| && a[i].InField? ==> Short(u(a[i].name))
    requires forall i :: 0 <= i < |b| && b[i].InField? ==> Short(u(b[i].name))
    ensures a == b && x == y
    decreases |a|
  {
    hide SegmentBytes, Encodes;
    if a == [] {
      assert [] + x == x && [] + y == y;
    } else {
      Regroup(SegmentBytes(u, a[0]), SegmentsBytes(u, a[1..]), x);
      Regroup(SegmentBytes(u, b[0]), SegmentsBytes(u, b[1..]), y);
      SegmentCancels(u, a[0], SegmentsBytes(u, a[1..]) + x, b[0], SegmentsBytes(u, b[1..]) + y);
      SegmentsCancel(u, a[1..], x, b[1..], y);
      assert a == [a[0]] + a[1..] && b == [b[0]] + b[1..];
    }
  }

  lemma {:induction false} Regroup(a: Bytes, b: Bytes, c: Bytes)
    ensures a + b + c == a + (b + c)
  {
  }

  lemma {:induction false} LengthCancels(n: nat, x: Bytes, m: nat, y: Bytes)
    requires Part(U64Bytes(n)) + x == Part(U64Bytes(m)) + y && n <= U64_MAX && m <= U64_MAX
    ensures n == m && x == y
  {
    hide Part, Unsigned;
    PartCancels(U64Bytes(n), x, U64Bytes(m), y);
    EightBytesHoldU64(n);
    EightBytesHoldU64(m);
  }

  lemma {:induction false} ClaimCancels(u: Utf8, a: Claim, x: Bytes, b: Claim, y: Bytes)
    requires Encodes(u) && ClaimFits(u, a) && ClaimFits(u, b) && ClaimBytes(u, a) + x == ClaimBytes(u, b) + y
    ensures a == b && x == y
  {
    hide Part, SegmentsBytes, U64Bytes, Encodes;
    var p, q := Part(U64Bytes(|a.path|)), Part(U64Bytes(|b.path|));
    Regroup(Part(u(a.typeId)), p + SegmentsBytes(u, a.path), x);
    Regroup(Part(u(b.typeId)), q + SegmentsBytes(u, b.path), y);
    PartCancels(u(a.typeId), p + SegmentsBytes(u, a.path) + x, u(b.typeId), q + SegmentsBytes(u, b.path) + y);
    SameText(u, a.typeId, b.typeId);
    Regroup(p, SegmentsBytes(u, a.path), x);
    Regroup(q, SegmentsBytes(u, b.path), y);
    LengthCancels(|a.path|, SegmentsBytes(u, a.path) + x, |b.path|, SegmentsBytes(u, b.path) + y);
    SegmentsCancel(u, a.path, x, b.path, y);
  }

  lemma {:induction false} SameText(u: Utf8, a: string, b: string)
    requires Encodes(u) && u(a) == u(b)
    ensures a == b
  {
  }

  lemma {:induction false} EachCancels(u: Utf8, a: seq<Claim>, x: Bytes, b: seq<Claim>, y: Bytes)
    requires Encodes(u) && |a| == |b| && EachClaim(u, a) + x == EachClaim(u, b) + y
    requires (forall i :: 0 <= i < |a| ==> ClaimFits(u, a[i])) && (forall i :: 0 <= i < |b| ==> ClaimFits(u, b[i]))
    ensures a == b && x == y
    decreases |a|
  {
    hide ClaimBytes, Encodes, ClaimFits;
    if a == [] {
      assert [] + x == x && [] + y == y;
    } else {
      Regroup(ClaimBytes(u, a[0]), EachClaim(u, a[1..]), x);
      Regroup(ClaimBytes(u, b[0]), EachClaim(u, b[1..]), y);
      ClaimCancels(u, a[0], EachClaim(u, a[1..]) + x, b[0], EachClaim(u, b[1..]) + y);
      EachCancels(u, a[1..], x, b[1..], y);
      assert a == [a[0]] + a[1..] && b == [b[0]] + b[1..];
    }
  }

  lemma {:induction false} ClaimsCancel(u: Utf8, a: seq<Claim>, x: Bytes, b: seq<Claim>, y: Bytes)
    requires Encodes(u) && ClaimsFit(u, a) && ClaimsFit(u, b) && ClaimsBytes(u, a) + x == ClaimsBytes(u, b) + y
    ensures a == b && x == y
  {
    hide Part, EachClaim, U64Bytes, Encodes;
    Regroup(Part(U64Bytes(|a|)), EachClaim(u, a), x);
    Regroup(Part(U64Bytes(|b|)), EachClaim(u, b), y);
    LengthCancels(|a|, EachClaim(u, a) + x, |b|, EachClaim(u, b) + y);
    EachCancels(u, a, x, b, y);
  }

  /** Plans that feed the hash the same bytes are the same plan. */
  lemma {:induction false} PlanBytesInjective(u: Utf8, p: Plan, q: Plan)
    requires Encodes(u) && Fits(u, p) && Fits(u, q) && PlanBytes(u, p) == PlanBytes(u, q)
    ensures p == q
  {
    hide Part, ClaimsBytes, Encodes, ClaimsFit;
    var p5, q5 := ClaimsBytes(u, p.coverage) + Part(p.opaquePlan), ClaimsBytes(u, q.coverage) + Part(q.opaquePlan);
    var p4, q4 := ClaimsBytes(u, p.claims) + p5, ClaimsBytes(u, q.claims) + q5;
    var p3, q3 := Part(p.reduced) + p4, Part(q.reduced) + q4;
    var p2, q2 := Part(p.source) + p3, Part(q.source) + q3;
    PartCancels(PLAN_DOMAIN, Part(u(p.owner)) + p2, PLAN_DOMAIN, Part(u(q.owner)) + q2);
    PartCancels(u(p.owner), p2, u(q.owner), q2);
    SameText(u, p.owner, q.owner);
    PartCancels(p.source, p3, q.source, q3);
    PartCancels(p.reduced, p4, q.reduced, q4);
    ClaimsCancel(u, p.claims, p5, q.claims, q5);
    ClaimsCancel(u, p.coverage, Part(p.opaquePlan), q.coverage, Part(q.opaquePlan));
    assert Part(p.opaquePlan) + [] == Part(p.opaquePlan) && Part(q.opaquePlan) + [] == Part(q.opaquePlan);
    PartCancels(p.opaquePlan, [], q.opaquePlan, []);
  }

  // ---- the hasher ----------------------------------------------------------------------------------

  /** An incremental hash: what matters is the sequence of bytes it has been fed. */
  class Hasher {
    var fed: Bytes

    constructor ()
      ensures fed == []
    {
      fed := [];
    }

    method HashPart(b: Bytes)
      modifies this
      ensures fed == old(fed) + Part(b)
    {
      fed := fed + U64Bytes(|b|);
      fed := fed + b;
    }

    method HashSegments(u: Utf8, path: Path)
      modifies this
      ensures fed == old(fed) + SegmentsBytes(u, path)
    {
      hide Part;
      ghost var start := fed;
      assert path[0..] == path;
      for i := 0 to |path|
        invariant start + SegmentsBytes(u, path) == fed + SegmentsBytes(u, path[i..])
      {
        assert path[i..][0] == path[i] && path[i..][1..] == path[i + 1..];
        ghost var before := fed;
        match path[i] {
          case InField(name) =>
            HashPart(FIELD);
            HashPart(u(name));
            Regroup(before, Part(FIELD), Part(u(name)));
          case Element => HashPart(ARRAY_ELEMENT);
          case MapValue => HashPart(MAP_VALUE);
          case Logical => HashPart(LOGICAL_VALUE);
        }
        assert fed == before + SegmentBytes(u, path[i]);
        Regroup(before, SegmentBytes(u, path[i]), SegmentsBytes(u, path[i + 1..]));
      }
      assert fed + [] == fed;
    }

    method HashClaims(u: Utf8, cs: seq<Claim>)
      modifies this
      ensures fed == old(fed) + ClaimsBytes(u, cs)
    {
      hide Part, SegmentsBytes, U64Bytes;
      ghost var start := fed;
      HashPart(U64Bytes(|cs|));
      Regroup(start, Part(U64Bytes(|cs|)), EachClaim(u, cs));
      assert cs[0..] == cs;
      for i := 0 to |cs|
        invariant start + ClaimsBytes(u, cs) == fed + EachClaim(u, cs[i..])
      {
        assert cs[i..][0] == cs[i] && cs[i..][1..] == cs[i + 1..];
        ghost var before := fed;
        HashPart(u(cs[i].typeId));
        HashPart(U64Bytes(|cs[i].path|));
        HashSegments(u, cs[i].path);
        FourGroups(before, Part(u(cs[i].typeId)), Part(U64Bytes(|cs[i].path|)), SegmentsBytes(u, cs[i].path));
        assert fed == before + ClaimBytes(u, cs[i]);
        Regroup(before, ClaimBytes(u, cs[i]), EachClaim(u, cs[i + 1..]));
      }
      assert fed + [] == fed;
    }
  }

  lemma {:induction false} FourGroups(a: Bytes, b: Bytes, c: Bytes, d: Bytes)
    ensures a + b + c + d == a + (b + (c + d))
  {
  }

  /** `hash_reduction_plan` up to the hash itself. */
  method HashPlan(u: Utf8, p: Plan) returns (bytes: Bytes)
    ensures bytes == PlanBytes(u, p)
  {
    hide Part, ClaimsBytes;
    var hasher := new Hasher();
    hasher.HashPart(PLAN_DOMAIN);
    hasher.HashPart(u(p.owner));
    hasher.HashPart(p.source);
    hasher.HashPart(p.reduced);
    hasher.HashClaims(u, p.claims);
    hasher.HashClaims(u, p.coverage);
    hasher.HashPart(p.opaquePlan);
    bytes := hasher.fed;
    SevenGroups(Part(PLAN_DOMAIN), Part(u(p.owner)), Part(p.source), Part(p.reduced),
                ClaimsBytes(u, p.claims), ClaimsBytes(u, p.coverage), Part(p.opaquePlan));
  }

  lemma {:induction false} SevenGroups(a: Bytes, b: Bytes, c: Bytes, d: Bytes, e: Bytes, f: Bytes, g: Bytes)
    ensures [] + a + b + c + d + e + f + g == a + (b + (c + (d + (e + (f + g)))))
  {
    assert [] + a == a;
    Regroup(a + b + c + d + e, f, g);
    Regroup(a + b + c + d, e, f + g);
    FourGroups(a, b, c, d + (e + (f + g)));
    Regroup(a + b + c, d, e + (f + g));
  }
}
