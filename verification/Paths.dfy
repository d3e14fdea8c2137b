/** Sorted schema paths: checking neighbours for prefixes is checking all pairs. */
module Paths {
  import opened Common
  import opened BinaryIr

  function Rank(s: Step): nat {
    match s
    case InField(_) => 0
    case Element => 1
    case MapValue => 2
    case Logical => 3
  }

  predicate StepBefore(a: Step, b: Step) {
    Rank(a) < Rank(b) || (a.InField? && b.InField? && Before(a.name, b.name))
  }

  /** `compare_paths` is Less. */
  predicate PathBefore(a: Path, b: Path) {
    b != [] && (a == [] || StepBefore(a[0], b[0]) || (a[0] == b[0] && PathBefore(a[1..], b[1..])))
  }

  lemma {:induction false} StepTotal(a: Step, b: Step)
    ensures StepBefore(a, b) || a == b || StepBefore(b, a)
  {
    hide Before;
    if a.InField? && b.InField? { BeforeTotal(a.name, b.name); }
  }

  lemma {:induction false} StepAsymmetric(a: Step, b: Step)
    requires StepBefore(a, b)
    ensures !StepBefore(b, a) && a != b
  {
    hide Before;
    if a.InField? && b.InField? { BeforeAsymmetric(a.name, b.name); }
  }

  lemma {:induction false} StepTransitive(a: Step, b: Step, c: Step)
    requires StepBefore(a, b) && StepBefore(b, c)
    ensures StepBefore(a, c)
  {
    hide Before;
    if a.InField? && b.InField? && c.InField? { BeforeTransitive(a.name, b.name, c.name); }
  }

  lemma {:induction false} PathTotal(a: Path, b: Path)
    ensures PathBefore(a, b) || a == b || PathBefore(b, a)
    decreases |a|
  {
    hide StepBefore;
    if a != [] && b != [] {
      StepTotal(a[0], b[0]);
      if a[0] == b[0] {
        PathTotal(a[1..], b[1..]);
        assert a == [a[0]] + a[1..] && b == [b[0]] + b[1..];
      }
    }
  }

  lemma {:induction false} PathAsymmetric(a: Path, b: Path)
    requires PathBefore(a, b)
    ensures !PathBefore(b, a) && a != b
    decreases |a|
  {
    hide StepBefore;
    if a != [] {
      if a[0] == b[0] {
        if StepBefore(a[0], b[0]) { StepAsymmetric(a[0], b[0]); }
        PathAsymmetric(a[1..], b[1..]);
      } else {
        StepAsymmetric(a[0], b[0]);
      }
    }
  }

  lemma {:induction false} PathTransitive(a: Path, b: Path, c: Path)
    requires PathBefore(a, b) && PathBefore(b, c)
    ensures PathBefore(a, c)
    decreases |a|
  {
    hide StepBefore;
    if a != [] {
      if a[0] == b[0] && b[0] == c[0] {
        if StepBefore(a[0], b[0]) { StepAsymmetric(a[0], b[0]); }
        PathTransitive(a[1..], b[1..], c[1..]);
      } else if StepBefore(a[0], b[0]) && StepBefore(b[0], c[0]) {
        StepTransitive(a[0], b[0], c[0]);
      }
    }
  }

  predicate Sorted(ps: seq<Path>) {
    forall i, j :: 0 <= i < j < |ps| ==> !PathBefore(ps[j], ps[i])
  }

  /** No path is a prefix of another. */
  predicate PrefixFree(ps: seq<Path>) {
    forall i, j :: 0 <= i < |ps| && 0 <= j < |ps| && i != j ==> !(ps[i] <= ps[j])
  }

  predicate NeighboursFree(ps: seq<Path>) {
    forall i :: 0 < i < |ps| ==> !(ps[i - 1] <= ps[i])
  }

  /** What lies between a path and an extension of it extends the path too. */
  lemma {:induction false} Between(a: Path, b: Path, c: Path)
    requires !PathBefore(b, a) && !PathBefore(c, b) && a <= c
    ensures a <= b
    decreases |a|
  {
    hide StepBefore;
    if a != [] {
      assert a[0] == c[0];
      if b != [] {
        StepTotal(a[0], b[0]);
        assert !StepBefore(b[0], a[0]) && !StepBefore(c[0], b[0]);
        assert a[0] == b[0];
        Between(a[1..], b[1..], c[1..]);
        assert a == [a[0]] + a[1..] && b == [b[0]] + b[1..];
      }
    }
  }

  /** An extension is not before its prefix, and equal paths are the only prefixes both ways. */
  lemma {:induction false} PrefixNotAfter(a: Path, b: Path)
    requires a <= b
    ensures a == b || PathBefore(a, b)
    decreases |a|
  {
    if a != [] {
      assert a[0] == b[0];
      PrefixNotAfter(a[1..], b[1..]);
      assert a == [a[0]] + a[1..] && b == [b[0]] + b[1..];
    }
  }

  /** In sorted paths, testing only neighbours tests every pair. */
  lemma {:induction false} NeighboursSuffice(ps: seq<Path>)
    requires Sorted(ps)
    ensures NeighboursFree(ps) <==> PrefixFree(ps)
  {
    hide PathBefore;
    if NeighboursFree(ps) {
      forall i, j | 0 <= i < |ps| && 0 <= j < |ps| && i != j ensures !(ps[i] <= ps[j]) {
        if i < j { LaterFree(ps, i, j); } else { LaterFree(ps, j, i); }
      }
    }
    if PrefixFree(ps) {
      assert forall i :: 0 < i < |ps| ==> !(ps[i - 1] <= ps[i]);
    }
  }

  lemma {:induction false} LaterFree(ps: seq<Path>, i: nat, j: nat)
    requires Sorted(ps) && NeighboursFree(ps) && i < j < |ps|
    ensures !(ps[i] <= ps[j]) && !(ps[j] <= ps[i])
  {
    hide PathBefore;
    assert !(ps[i + 1 - 1] <= ps[i + 1]);
    if ps[j] <= ps[i] { PrefixNotAfter(ps[j], ps[i]); }
    if ps[i] <= ps[j] { Neighbour(ps, i, j); }
  }

  lemma {:induction false} Neighbour(ps: seq<Path>, i: nat, j: nat)
    requires Sorted(ps) && i < j < |ps| && ps[i] <= ps[j]
    ensures ps[i] <= ps[i + 1]
  {
    hide PathBefore;
    if i + 1 < j { Between(ps[i], ps[i + 1], ps[j]); }
  }

  // ---- sorting -------------------------------------------------------------------------------------

  function Insert(p: Path, ps: seq<Path>): seq<Path> {
    if ps == [] then [p] else if PathBefore(ps[0], p) then [ps[0]] + Insert(p, ps[1..]) else [p] + ps
  }

  /** The stable sort by `compare_paths`. */
  function Sort(ps: seq<Path>): seq<Path> {
    if ps == [] then [] else Insert(ps[0], Sort(ps[1..]))
  }

  lemma {:induction false} InsertSorts(p: Path, ps: seq<Path>)
    requires Sorted(ps)
    ensures Sorted(Insert(p, ps)) && multiset(Insert(p, ps)) == multiset(ps) + multiset{p}
    decreases |ps|
  {
    hide PathBefore;
    if ps == [] {
      assert multiset([p]) == multiset{p};
    } else if PathBefore(ps[0], p) {
      InsertSorts(p, ps[1..]);
      assert ps == [ps[0]] + ps[1..];
      PathAsymmetric(ps[0], p);
      InsertMembers(p, ps[1..]);
      SortedCons(ps[0], Insert(p, ps[1..]));
    } else {
      forall j | 0 <= j < |ps| ensures !PathBefore(ps[j], p) {
        if j > 0 && PathBefore(ps[j], p) { Chain(ps[0], ps[j], p); }
      }
      SortedCons(p, ps);
    }
  }

  lemma {:induction false} InsertMembers(p: Path, ps: seq<Path>)
    ensures forall q :: q in Insert(p, ps) <==> q == p || q in ps
    decreases |ps|
  {
    hide PathBefore;
    if ps != [] { InsertMembers(p, ps[1..]); }
  }

  lemma {:induction false} SortedCons(p: Path, ps: seq<Path>)
    requires Sorted(ps) && forall q :: q in ps ==> !PathBefore(q, p)
    ensures Sorted([p] + ps)
  {
    hide PathBefore;
  }

  lemma {:induction false} Chain(a: Path, b: Path, c: Path)
    requires !PathBefore(b, a) && PathBefore(b, c)
    ensures PathBefore(a, c)
  {
    hide PathBefore;
    PathTotal(a, b);
    if a != b { PathTransitive(a, b, c); }
  }

  lemma {:induction false} SortSorts(ps: seq<Path>)
    ensures Sorted(Sort(ps)) && multiset(Sort(ps)) == multiset(ps)
    decreases |ps|
  {
    if ps != [] {
      SortSorts(ps[1..]);
      InsertSorts(ps[0], Sort(ps[1..]));
      assert ps == [ps[0]] + ps[1..];
    }
  }

  /** Being prefix-free does not depend on the order. */
  lemma {:induction false} PrefixFreeOfMultiset(a: seq<Path>, b: seq<Path>)
    requires multiset(a) == multiset(b) && PrefixFree(a)
    ensures PrefixFree(b)
  {
    forall i, j | 0 <= i < |b| && 0 <= j < |b| && i != j ensures !(b[i] <= b[j]) {
      if b[i] == b[j] {
        TwiceIn(b, i, j);
        NeverTwice(a, b[i]);
      } else {
        assert b[i] in multiset(a) && b[j] in multiset(a);
        var x, y :| 0 <= x < |a| && 0 <= y < |a| && a[x] == b[i] && a[y] == b[j];
        assert !(a[x] <= a[y]);
      }
    }
  }

  lemma {:induction false} NeverTwice(s: seq<Path>, p: Path)
    requires PrefixFree(s)
    ensures multiset(s)[p] < 2
  {
    if multiset(s)[p] >= 2 {
      var x, y := TwicePlaces(s, p);
    }
  }

  lemma {:induction false} TwiceIn(s: seq<Path>, i: nat, j: nat)
    requires i < |s| && j < |s| && i != j && s[i] == s[j]
    ensures multiset(s)[s[i]] >= 2
  {
    var lo, hi := if i < j then i else j, if i < j then j else i;
    assert s == s[..hi] + s[hi..];
    assert s[..hi][lo] == s[i] && s[hi..][0] == s[i];
    assert s[i] in multiset(s[..hi]) && s[i] in multiset(s[hi..]);
  }

  lemma {:induction false} TwicePlaces(s: seq<Path>, p: Path) returns (x: nat, y: nat)
    requires multiset(s)[p] >= 2
    ensures x < |s| && y < |s| && x != y && s[x] == p && s[y] == p && s[x] <= s[y]
    decreases |s|
  {
    assert s == [s[0]] + s[1..];
    if s[0] == p {
      assert p in multiset(s[1..]);
      var k :| 0 <= k < |s| - 1 && s[1..][k] == p;
      x, y := 0, k + 1;
    } else {
      var x', y' := TwicePlaces(s[1..], p);
      x, y := x' + 1, y' + 1;
    }
  }

  /**
   `canonicalize_targets`: the sorted paths, exactly when no target is a prefix of another.
   */
  method Canonicalize(targets: seq<Path>) returns (r: Option<seq<Path>>)
    ensures r.Some? <==> PrefixFree(targets)
    ensures r.Some? ==> Sorted(r.value) && multiset(r.value) == multiset(targets) && PrefixFree(r.value)
  {
    var sorted := Sort(targets);
    SortSorts(targets);
    NeighboursSuffice(sorted);
    if PrefixFree(targets) { PrefixFreeOfMultiset(targets, sorted); }
    if PrefixFree(sorted) { PrefixFreeOfMultiset(sorted, targets); }
    var i := 1;
    while i < |sorted|
      invariant 1 <= i
      invariant forall k :: 0 < k < i && k < |sorted| ==> !(sorted[k - 1] <= sorted[k])
    {
      if sorted[i - 1] <= sorted[i] { return None; }
      i := i + 1;
    }
    r := Some(sorted);
  }

  // ---- claims --------------------------------------------------------------------------------------

  datatype Claim = Claim(path: Path, typeId: string)

  /** `compare_claims` is Less: by path, then by type. */
  predicate ClaimBefore(a: Claim, b: Claim) {
    PathBefore(a.path, b.path) || (a.path == b.path && Before(a.typeId, b.typeId))
  }

  predicate ClaimsSorted(cs: seq<Claim>) {
    forall i, j :: 0 <= i < j < |cs| ==> !ClaimBefore(cs[j], cs[i])
  }

  function PathsOf(cs: seq<Claim>): (ps: seq<Path>)
    ensures |ps| == |cs| && forall i :: 0 <= i < |cs| ==> ps[i] == cs[i].path
  {
    seq(|cs|, i requires 0 <= i < |cs| => cs[i].path)
  }

  /** Where a claim goes in the stable sort by `compare_claims`. */
  function InsertClaim(claim: Claim, cs: seq<Claim>): seq<Claim> {
    if cs == [] then [claim] else if ClaimBefore(cs[0], claim) then [cs[0]] + InsertClaim(claim, cs[1..])
      else [claim] + cs
  }

  function SortClaims(cs: seq<Claim>): seq<Claim> {
    if cs == [] then [] else InsertClaim(cs[0], SortClaims(cs[1..]))
  }

  lemma {:induction false} ClaimAsymmetric(a: Claim, b: Claim)
    requires ClaimBefore(a, b)
    ensures !ClaimBefore(b, a)
  {
    hide PathBefore, Before;
    if PathBefore(a.path, b.path) { PathAsymmetric(a.path, b.path); }
    if Before(a.typeId, b.typeId) { BeforeAsymmetric(a.typeId, b.typeId); }
    if a.path == b.path && PathBefore(a.path, b.path) { PathAsymmetric(a.path, b.path); }
  }

  /** A claim not after one before `c` is before `c`. */
  lemma {:induction false} ClaimChain(a: Claim, b: Claim, c: Claim)
    requires !ClaimBefore(b, a) && ClaimBefore(b, c)
    ensures ClaimBefore(a, c)
  {
    hide PathBefore, Before;
    PathTotal(a.path, b.path);
    BeforeTotal(a.typeId, b.typeId);
    if a.path != b.path {
      if PathBefore(b.path, c.path) { PathTransitive(a.path, b.path, c.path); }
    } else if b.path == c.path && a.typeId != b.typeId {
      BeforeTransitive(a.typeId, b.typeId, c.typeId);
    }
  }

  lemma {:induction false} InsertClaimMembers(claim: Claim, cs: seq<Claim>)
    ensures multiset(InsertClaim(claim, cs)) == multiset(cs) + multiset{claim}
    ensures forall c :: c in InsertClaim(claim, cs) <==> c == claim || c in cs
    decreases |cs|
  {
    hide ClaimBefore;
    if cs == [] {
      assert multiset([claim]) == multiset{claim};
    } else {
      InsertClaimMembers(claim, cs[1..]);
      assert cs == [cs[0]] + cs[1..];
    }
  }

  lemma {:induction false} ClaimsSortedCons(claim: Claim, cs: seq<Claim>)
    requires ClaimsSorted(cs) && forall c :: c in cs ==> !ClaimBefore(c, claim)
    ensures ClaimsSorted([claim] + cs)
  {
    hide ClaimBefore;
  }

  lemma {:induction false} InsertClaimSorts(claim: Claim, cs: seq<Claim>)
    requires ClaimsSorted(cs)
    ensures ClaimsSorted(InsertClaim(claim, cs))
    decreases |cs|
  {
    hide ClaimBefore;
    if cs != [] {
      if ClaimBefore(cs[0], claim) {
        InsertClaimSorts(claim, cs[1..]);
        InsertClaimMembers(claim, cs[1..]);
        ClaimAsymmetric(cs[0], claim);
        ClaimsSortedCons(cs[0], InsertClaim(claim, cs[1..]));
      } else {
        forall j | 0 <= j < |cs| ensures !ClaimBefore(cs[j], claim) {
          if j > 0 && ClaimBefore(cs[j], claim) { ClaimChain(cs[0], cs[j], claim); }
        }
        ClaimsSortedCons(claim, cs);
      }
    }
  }

  lemma {:induction false} SortClaimsSorts(cs: seq<Claim>)
    ensures ClaimsSorted(SortClaims(cs)) && multiset(SortClaims(cs)) == multiset(cs)
    decreases |cs|
  {
    hide ClaimBefore;
    if cs != [] {
      SortClaimsSorts(cs[1..]);
      InsertClaimSorts(cs[0], SortClaims(cs[1..]));
      InsertClaimMembers(cs[0], SortClaims(cs[1..]));
      assert cs == [cs[0]] + cs[1..];
    }
  }

  /** Inserting puts a claim's path among the paths. */
  lemma {:induction false} PathsOfInsert(claim: Claim, cs: seq<Claim>)
    ensures multiset(PathsOf(InsertClaim(claim, cs))) == multiset(PathsOf(cs)) + multiset{claim.path}
    decreases |cs|
  {
    hide ClaimBefore;
    if cs == [] {
      assert PathsOf([claim]) == [claim.path];
    } else if ClaimBefore(cs[0], claim) {
      PathsOfInsert(claim, cs[1..]);
      PathsOfCons(cs[0], cs[1..]);
      PathsOfCons(cs[0], InsertClaim(claim, cs[1..]));
      assert cs == [cs[0]] + cs[1..];
    } else {
      PathsOfCons(claim, cs);
    }
  }

  lemma {:induction false} PathsOfCons(claim: Claim, cs: seq<Claim>)
    ensures multiset(PathsOf([claim] + cs)) == multiset{claim.path} + multiset(PathsOf(cs))
  {
    assert PathsOf([claim] + cs) == [claim.path] + PathsOf(cs);
  }

  lemma {:induction false} PathsOfSorted(cs: seq<Claim>)
    ensures multiset(PathsOf(SortClaims(cs))) == multiset(PathsOf(cs))
    decreases |cs|
  {
    if cs == [] {
      assert SortClaims(cs) == cs;
    } else {
      PathsOfSorted(cs[1..]);
      PathsOfInsert(cs[0], SortClaims(cs[1..]));
      PathsOfCons(cs[0], cs[1..]);
      assert cs == [cs[0]] + cs[1..];
    }
  }

  lemma {:induction false} SortedPaths(cs: seq<Claim>)
    requires ClaimsSorted(cs)
    ensures Sorted(PathsOf(cs))
  {
    hide PathBefore, Before;
    var ps := PathsOf(cs);
    forall i, j | 0 <= i < j < |ps| ensures !PathBefore(ps[j], ps[i]) {
      assert !ClaimBefore(cs[j], cs[i]);
    }
  }

  /** `canonicalize_claims`: the sorted claims, exactly when no claimed path is a prefix of another. */
  method CanonicalizeClaims(claims: seq<Claim>) returns (r: Option<seq<Claim>>)
    ensures r.Some? <==> PrefixFree(PathsOf(claims))
    ensures r.Some? ==> ClaimsSorted(r.value) && multiset(r.value) == multiset(claims) && PrefixFree(PathsOf(r.value))
  {
    hide PathBefore, ClaimBefore, PrefixFree, Sorted;
    var cs := SortClaims(claims);
    ghost var ps := PathsOf(cs);
    SortClaimsSorts(claims);
    PathsOfSorted(claims);
    SortedPaths(cs);
    NeighboursSuffice(ps);
    if PrefixFree(PathsOf(claims)) { PrefixFreeOfMultiset(PathsOf(claims), ps); }
    if PrefixFree(ps) { PrefixFreeOfMultiset(ps, PathsOf(claims)); }
    var i := 1;
    while i < |cs|
      invariant 1 <= i
      invariant forall k :: 0 < k < i && k < |ps| ==> !(ps[k - 1] <= ps[k])
    {
      if cs[i - 1].path == cs[i].path || cs[i - 1].path <= cs[i].path {
        assert ps[i - 1] <= ps[i];
        return None;
      }
      i := i + 1;
    }
    r := Some(cs);
  }
}
