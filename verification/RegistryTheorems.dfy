/** What every registry state holds, and what eviction takes away. */
module RegistryTheorems {
  import opened Common
  import opened Sequences
  import opened Registry

  ghost function Weights<E>(engines: map<Hash, Entry<E>>): map<Hash, nat> {
    map h | h in engines :: engines[h].weight
  }

  /** The recency list holds each cached hash once. */
  ghost predicate Listed<E>(st: State<E>) {
    NoDup(st.recency) && forall h :: h in st.recency <==> h in st.engines
  }

  ghost predicate Weighed<E>(st: State<E>) {
    st.weight == Sum(Weights(st.engines))
  }

  /** Every catalog plugin's component is cached: the same engine, the same capabilities. */
  ghost predicate Backed<E>(st: State<E>) {
    forall id :: id in st.plugins ==>
      && st.plugins[id].hash in st.engines
      && st.engines[st.plugins[id].hash].capabilities == st.plugins[id].capabilities
      && st.engines[st.plugins[id].hash].engine == st.plugins[id].engine
  }

  ghost predicate Ordered<E>(st: State<E>) {
    NoDup(st.order) && forall id :: id in st.order <==> id in st.plugins
  }

  ghost predicate Trimmed<E>(st: State<E>) {
    st.weight <= st.maxWeight || forall h :: h in st.engines ==> h in Pinned(st.plugins)
  }

  /** The total never exceeds what is cached, even after it has saturated. */
  ghost predicate NotOver<E>(st: State<E>) {
    st.weight <= Sum(Weights(st.engines))
  }

  /** What holds whether or not a total has ever saturated. */
  ghost predicate Sound<E>(st: State<E>) {
    Listed(st) && NotOver(st) && Backed(st) && Ordered(st) && Trimmed(st)
  }

  ghost predicate Inv<E>(st: State<E>) {
    Sound(st) && Weighed(st)
  }

  // ---- eviction --------------------------------------------------------------------------------

  function WeightOf<E>(engines: map<Hash, Entry<E>>, hs: seq<Hash>): nat
    requires forall h :: h in hs ==> h in engines
  {
    if hs == [] then 0 else engines[hs[0]].weight + WeightOf(engines, hs[1..])
  }

  /** How many of `hs`, taken in order, must go for `weight` to come within `limit`; all, if none suffices. */
  function Shortest<E>(engines: map<Hash, Entry<E>>, hs: seq<Hash>, weight: nat, limit: nat): (k: nat)
    requires forall h :: h in hs ==> h in engines
    ensures k <= |hs|
  {
    if hs == [] || weight <= limit then 0
    else 1 + Shortest(engines, hs[1..], SaturatingSub(weight, engines[hs[0]].weight), limit)
  }

  /** It is the least number that suffices. */
  lemma {:induction false} ShortestIsLeast<E>(engines: map<Hash, Entry<E>>, hs: seq<Hash>, weight: nat, limit: nat)
    requires forall h :: h in hs ==> h in engines
    requires WeightOf(engines, hs) <= weight
    ensures var k := Shortest(engines, hs, weight, limit);
            && (forall j :: 0 <= j < k ==>
                WeightOf(engines, hs[..j]) <= weight && weight - WeightOf(engines, hs[..j]) > limit)
            && WeightOf(engines, hs[..k]) <= weight
            && (k == |hs| || weight - WeightOf(engines, hs[..k]) <= limit)
    decreases |hs|
  {
    var k := Shortest(engines, hs, weight, limit);
    if k > 0 {
      var rest, less := hs[1..], weight - engines[hs[0]].weight;
      ShortestIsLeast(engines, rest, less, limit);
      forall j | 0 < j <= k ensures WeightOf(engines, hs[..j]) ==
        engines[hs[0]].weight + WeightOf(engines, rest[..j - 1]) {
        assert hs[..j][0] == hs[0] && hs[..j][1..] == rest[..j - 1];
      }
    }
  }

  /** `st` without the entries `gone`, everything else in place. */
  ghost predicate Dropped<E>(st: State<E>, gone: seq<Hash>, end: State<E>)
    requires forall h :: h in gone ==> h in st.engines
  {
    && end.plugins == st.plugins && end.order == st.order && end.maxWeight == st.maxWeight
    && end.engines == st.engines - ToSet(gone)
    && end.recency == Minus(st.recency, ToSet(gone))
    && end.weight == st.weight - WeightOf(st.engines, gone)
  }

  /** The entries the catalog does not refer to, least recent first. */
  function Candidates<E>(st: State<E>): seq<Hash> {
    Minus(st.recency, Pinned(st.plugins))
  }

  lemma {:induction false} DropOne<E>(st: State<E>, i: nat)
    requires Listed(st) && Weighed(st) && i < |st.recency|
    ensures var h := st.recency[i];
            var next := DropEntry(st, i);
            && h in st.engines && st.engines[h].weight <= st.weight
            && next == st.(recency := Minus(st.recency, {h}), engines := st.engines - {h}, weight := next.weight)
            && next.weight == st.weight - st.engines[h].weight
            && |next.recency| < |st.recency| && Listed(next) && Weighed(next)
  {
    hide Minus, NoDup, Sum;
    var h := st.recency[i];
    var next := DropEntry(st, i);
    MinusOne(st.recency, i);
    MinusNoDup(st.recency, {h});
    WeightWithout(st.engines, h);
  }

  lemma {:induction false} WeightWithout<E>(engines: map<Hash, Entry<E>>, h: Hash)
    requires h in engines
    ensures Sum(Weights(engines)) == engines[h].weight + Sum(Weights(engines - {h}))
  {
    hide Sum;
    SumRemove(Weights(engines), h);
    assert Weights(engines - {h}) == Weights(engines) - {h};
  }

  /** The victim is the first candidate. */
  lemma {:induction false} VictimIsFirst<E>(st: State<E>)
    requires Listed(st)
    ensures var i := Victim(st.recency, Pinned(st.plugins), st.engines);
            if i == |st.recency| then Candidates(st) == []
            else
              && Candidates(st) != [] && Candidates(st)[0] == st.recency[i]
              && Minus(Candidates(st), {st.recency[i]}) == Candidates(st)[1..]
  {
    hide Minus, Victim, Pinned, NoDup;
    var pinned := Pinned(st.plugins);
    var i := Victim(st.recency, pinned, st.engines);
    AllPinned(st.recency[..i], pinned);
    if i < |st.recency| {
      var h, tail := st.recency[i], st.recency[i + 1..];
      assert st.recency == st.recency[..i] + ([h] + tail);
      MinusJoins(st.recency[..i], [h] + tail, pinned);
      MinusJoins([h], tail, pinned);
      var rest := Minus(tail, pinned);
      MinusNothing([h], pinned);
      assert Candidates(st) == [h] + rest;
      MinusJoins([h], rest, {h});
      AllPinned([h], {h});
      NotLater(st.recency, i);
      MinusNothing(rest, {h});
    } else {
      assert st.recency[..i] == st.recency;
    }
  }

  lemma {:induction false} NotLater(s: seq<Hash>, i: nat)
    requires NoDup(s) && i < |s|
    ensures s[i] !in s[i + 1..]
  {
  }

  lemma {:induction false} AllPinned(s: seq<Hash>, pinned: set<Hash>)
    requires forall h :: h in s ==> h in pinned
    ensures Minus(s, pinned) == []
  {
    if s != [] { AllPinned(s[1..], pinned); }
  }

  lemma {:induction false} CandidatesAfter<E>(st: State<E>, i: nat)
    requires Listed(st) && Weighed(st)
    requires i == Victim(st.recency, Pinned(st.plugins), st.engines) < |st.recency|
    ensures Candidates(st) != [] && Candidates(DropEntry(st, i)) == Candidates(st)[1..]
    ensures Candidates(st)[0] == st.recency[i]
  {
    hide Minus, Victim, Listed, Weighed, Pinned, NoDup;
    var pinned, h := Pinned(st.plugins), st.recency[i];
    VictimIsFirst(st);
    DropOne(st, i);
    MinusTwice(st.recency, {h}, pinned);
    MinusTwice(st.recency, pinned, {h});
    assert {h} + pinned == pinned + {h};
  }

  /**
   Eviction drops exactly the shortest run of least recent unpinned entries whose removal brings the
   weight within the budget, or all of them when no run does.
   */
  lemma {:induction false} EvictExactly<E>(st: State<E>)
    requires Listed(st) && Weighed(st)
    ensures forall h :: h in Candidates(st) ==> h in st.engines
    ensures var k := Shortest(st.engines, Candidates(st), st.weight, st.maxWeight);
            Dropped(st, Candidates(st)[..k], Evict(st))
    decreases |st.recency|
  {
    hide Minus, Victim, Weighed, Pinned, NoDup, Dropped, DropEntry, ToSet, WeightOf, Shortest;
    var i := Victim(st.recency, Pinned(st.plugins), st.engines);
    var all := Candidates(st);
    var k := Shortest(st.engines, all, st.weight, st.maxWeight);
    VictimIsFirst(st);
    if st.weight <= st.maxWeight || i == |st.recency| {
      NothingDropped(st, all);
    } else {
      var next := DropEntry(st, i);
      DropOne(st, i);
      CandidatesAfter(st, i);
      EvictExactly(next);
      ShortestUnrolls(st, next, all);
      DroppedCons(st, next, all[0], all[1..][..k - 1], Evict(next));
      assert all[..k] == [all[0]] + all[1..][..k - 1];
    }
  }

  lemma {:induction false} NothingDropped<E>(st: State<E>, all: seq<Hash>)
    requires forall h :: h in all ==> h in st.engines
    requires st.weight <= st.maxWeight || all == []
    ensures var k := Shortest(st.engines, all, st.weight, st.maxWeight); Dropped(st, all[..k], st)
  {
    assert all[..0] == [];
    MinusNothing(st.recency, {});
    assert ToSet<Hash>([]) == {};
    assert st.engines - {} == st.engines;
  }

  lemma {:induction false} ShortestSame<E>(a: map<Hash, Entry<E>>, b: map<Hash, Entry<E>>, hs: seq<Hash>, weight: nat,
      limit: nat)
    requires forall h :: h in hs ==> h in a && h in b && a[h] == b[h]
    ensures Shortest(a, hs, weight, limit) == Shortest(b, hs, weight, limit)
    decreases |hs|
  {
    if hs != [] && weight > limit {
      ShortestSame(a, b, hs[1..], SaturatingSub(weight, a[hs[0]].weight), limit);
    }
  }

  lemma {:induction false} ShortestUnrolls<E>(st: State<E>, next: State<E>, all: seq<Hash>)
    requires all != [] && st.weight > st.maxWeight && next.maxWeight == st.maxWeight
    requires forall h :: h in all ==> h in st.engines
    requires forall h :: h in all[1..] ==> h in next.engines
    requires next.engines == st.engines - {all[0]} && next.weight == SaturatingSub(st.weight, st.engines[all[0]].weight)
    ensures Shortest(st.engines, all, st.weight, st.maxWeight) ==
            1 + Shortest(next.engines, all[1..], next.weight, next.maxWeight)
  {
    ShortestSame(st.engines, next.engines, all[1..], next.weight, st.maxWeight);
  }

  lemma {:induction false} WeightSame<E>(a: map<Hash, Entry<E>>, b: map<Hash, Entry<E>>, hs: seq<Hash>)
    requires forall h :: h in hs ==> h in a && h in b && a[h] == b[h]
    ensures WeightOf(a, hs) == WeightOf(b, hs)
    decreases |hs|
  {
    if hs != [] { WeightSame(a, b, hs[1..]); }
  }

  lemma {:induction false} DroppedCons<E>(st: State<E>, next: State<E>, h: Hash, gone: seq<Hash>, end: State<E>)
    requires h in st.engines && (forall x :: x in gone ==> x in next.engines)
    requires next == st.(recency := Minus(st.recency, {h}), engines := st.engines - {h}, weight := next.weight)
    requires next.weight == st.weight - st.engines[h].weight
    requires Dropped(next, gone, end)
    ensures Dropped(st, [h] + gone, end)
  {
    assert ToSet([h] + gone) == {h} + ToSet(gone);
    MinusTwice(st.recency, {h}, ToSet(gone));
    assert st.engines - {h} - ToSet(gone) == st.engines - ({h} + ToSet(gone));
    WeightSame(st.engines, next.engines, gone);
    assert ([h] + gone)[1..] == gone;
  }

  lemma {:induction false} WeightWithinSum<E>(engines: map<Hash, Entry<E>>, hs: seq<Hash>)
    requires NoDup(hs) && forall h :: h in hs ==> h in engines
    ensures WeightOf(engines, hs) <= Sum(Weights(engines))
    decreases |hs|
  {
    hide Sum;
    if hs != [] {
      var rest := engines - {hs[0]};
      assert forall h :: h in hs[1..] ==> h != hs[0];
      WeightWithinSum(rest, hs[1..]);
      WeightSame(engines, rest, hs[1..]);
      WeightWithout(engines, hs[0]);
    }
  }

  /** The same said without a recursive count: no shorter run would have sufficed. */
  lemma {:induction false} EvictIsLeast<E>(st: State<E>) returns (gone: seq<Hash>)
    requires Listed(st) && Weighed(st)
    ensures gone <= Candidates(st) && (forall h :: h in gone ==> h in st.engines)
    ensures Dropped(st, gone, Evict(st))
    ensures gone == Candidates(st) || Evict(st).weight <= st.maxWeight
    ensures forall j :: 0 <= j < |gone| ==> st.weight - WeightOf(st.engines, gone[..j]) > st.maxWeight
  {
    hide Evict, Sum, Minus, Weights;
    EvictExactly(st);
    var all := Candidates(st);
    var k := Shortest(st.engines, all, st.weight, st.maxWeight);
    gone := all[..k];
    MinusNoDup(st.recency, Pinned(st.plugins));
    WeightWithinSum(st.engines, all);
    ShortestIsLeast(st.engines, all, st.weight, st.maxWeight);
    assert forall j :: 0 <= j < k ==> gone[..j] == all[..j];
  }

  // ---- every operation keeps the invariant -------------------------------------------------------

  lemma {:induction false} DropOneSound<E>(st: State<E>, i: nat)
    requires Listed(st) && NotOver(st) && i < |st.recency|
    ensures var h := st.recency[i];
            var next := DropEntry(st, i);
            && h in st.engines
            && next == st.(recency := Minus(st.recency, {h}), engines := st.engines - {h}, weight := next.weight)
            && |next.recency| < |st.recency| && Listed(next) && NotOver(next) && (Weighed(st) ==> Weighed(next))
  {
    hide Minus, NoDup, Sum;
    MinusOne(st.recency, i);
    MinusNoDup(st.recency, {st.recency[i]});
    WeightWithout(st.engines, st.recency[i]);
  }

  lemma {:induction false} EvictKeeps<E>(st: State<E>)
    requires Listed(st) && NotOver(st) && Backed(st) && Ordered(st)
    ensures Sound(Evict(st)) && (Weighed(st) ==> Weighed(Evict(st)))
    ensures Evict(st).plugins == st.plugins && Evict(st).order == st.order
    decreases |st.recency|
  {
    hide Minus, Sum, Weights, NoDup, Weighed;
    var i := Victim(st.recency, Pinned(st.plugins), st.engines);
    if st.weight > st.maxWeight && i < |st.recency| {
      DropOneSound(st, i);
      EvictKeeps(DropEntry(st, i));
    }
  }

  lemma {:induction false} TouchIs(recency: seq<Hash>, h: Hash)
    requires NoDup(recency)
    ensures Touch(recency, h) == Minus(recency, {h}) + [h] && NoDup(Touch(recency, h))
    ensures forall x :: x in Touch(recency, h) <==> x in recency || x == h
  {
    hide Minus, Position;
    var i := Position(recency, h);
    if i < |recency| { MinusOne(recency, i); } else { MinusNothing(recency, {h}); }
    MinusNoDup(recency, {h});
  }

  /** Whether the saturating total can hold one more entry. */
  predicate Fits<E>(st: State<E>, h: Hash, weight: nat) {
    h in st.engines || st.weight + weight <= U64_MAX
  }

  /** The total stays the sum of the weights exactly when the addition does not saturate. */
  lemma {:induction false} CacheWeighs<E>(st: State<E>, h: Hash, entry: Entry<E>)
    requires Weighed(st)
    ensures Weighed(Cache(st, h, entry)) <==> Fits(st, h, entry.weight)
  {
    hide Sum, Touch;
    if h !in st.engines {
      SumUpdate(Weights(st.engines), h, entry.weight);
      assert Weights(st.engines[h := entry]) == Weights(st.engines)[h := entry.weight];
    }
  }

  lemma {:induction false} CacheNotOver<E>(st: State<E>, h: Hash, entry: Entry<E>)
    requires NotOver(st)
    ensures NotOver(Cache(st, h, entry))
  {
    hide Sum, Touch;
    if h !in st.engines {
      SumUpdate(Weights(st.engines), h, entry.weight);
      assert Weights(st.engines[h := entry]) == Weights(st.engines)[h := entry.weight];
    }
  }

  lemma {:induction false} CacheKeeps<E>(st: State<E>, h: Hash, entry: Entry<E>)
    requires Sound(st)
    ensures var next := Cache(st, h, entry);
            && Listed(next) && NotOver(next) && Backed(next) && Ordered(next)
            && (Weighed(st) && Fits(st, h, entry.weight) ==> Weighed(next))
  {
    hide Touch, Listed, NoDup, NotOver, Weighed, Fits;
    if Weighed(st) { CacheWeighs(st, h, entry); }
    CacheNotOver(st, h, entry);
    CacheListed(st, h, entry);
  }

  lemma {:induction false} CacheListed<E>(st: State<E>, h: Hash, entry: Entry<E>)
    requires Listed(st)
    ensures Listed(Cache(st, h, entry))
  {
    hide Touch, NoDup;
    TouchIs(st.recency, h);
  }

  lemma {:induction false} LookupListed<E>(st: State<E>, h: Hash)
    requires Listed(st)
    ensures Listed(Lookup(st, h).0)
  {
    hide Touch, NoDup;
    TouchIs(st.recency, h);
  }

  lemma {:induction false} ImportKeeps<E>(st: State<E>, id: Id, name: string, h: Hash, entry: Entry<E>)
    requires Sound(st) && id !in st.plugins
    ensures var r := Import(st, id, name, h, entry);
            r.Ok? ==>
              && Sound(r.value) && (Weighed(st) && Fits(st, h, entry.weight) ==> Weighed(r.value))
              && r.value.order == st.order + [id]
              && r.value.plugins.Keys == st.plugins.Keys + {id} && r.value.plugins[id].hash == h
  {
    hide Sum, Touch, Weights, Evict, Minus, Cache, Fits;
    var r := Import(st, id, name, h, entry);
    if r.Ok? {
      CacheKeeps(st, h, entry);
      CacheShape(st, h, entry);
      var cached := Cache(st, h, entry);
      var plugin := Plugin(name, true, h, entry.capabilities, cached.engines[h].engine);
      EvictKeeps(cached.(plugins := st.plugins[id := plugin], order := st.order + [id]));
    }
  }

  lemma {:induction false} CacheShape<E>(st: State<E>, h: Hash, entry: Entry<E>)
    ensures var next := Cache(st, h, entry);
            && h in next.engines && next.plugins == st.plugins && next.order == st.order
               && next.maxWeight == st.maxWeight
            && (h in st.engines ==> next.engines == st.engines && next.weight == st.weight)
            && (h !in st.engines ==> next.engines == st.engines[h := entry])
  {
    hide Touch;
  }

  lemma {:induction false} InsertKeeps<E>(st: State<E>, h: Hash, entry: Entry<E>)
    requires Sound(st)
    ensures var r := Insert(st, h, entry);
            r.Ok? ==>
              && Sound(r.value.0) && (Weighed(st) && Fits(st, h, entry.weight) ==> Weighed(r.value.0))
              && r.value.0.plugins == st.plugins && r.value.0.order == st.order
  {
    hide Sum, Touch, Weights, Evict, Minus, Cache, Fits;
    CacheKeeps(st, h, entry);
    CacheShape(st, h, entry);
    if h !in st.engines { EvictKeeps(Cache(st, h, entry)); }
  }

  lemma {:induction false} LookupKeeps<E>(st: State<E>, h: Hash)
    requires Sound(st)
    ensures Sound(Lookup(st, h).0) && Lookup(st, h).0.engines == st.engines && Lookup(st, h).0.weight == st.weight
  {
    hide Sum, Touch, Weights, NoDup, Listed;
    LookupListed(st, h);
  }

  lemma {:induction false} RemoveKeeps<E>(st: State<E>, id: Id)
    requires Sound(st)
    ensures Sound(Remove(st, id).0) && (Weighed(st) ==> Weighed(Remove(st, id).0))
    ensures Remove(st, id).0.plugins == st.plugins - {id} && Remove(st, id).0.order == Minus(st.order, {id})
  {
    hide Sum, Weights, Evict, Minus;
    var next := st.(order := Minus(st.order, {id}), plugins := st.plugins - {id});
    MinusNoDup(st.order, {id});
    if id in st.plugins {
      EvictKeeps(next);
    } else {
      assert st.plugins - {id} == st.plugins;
    }
  }

  lemma {:induction false} ChosenIs<E>(plugins: map<Id, Plugin<E>>, ids: seq<Id>)
    ensures NoDup(Chosen(plugins, ids))
    ensures forall id :: id in Chosen(plugins, ids) <==> id in ids && id in plugins
    decreases |ids|
  {
    if ids != [] {
      ChosenIs(plugins, ids[..|ids| - 1]);
      assert ids == ids[..|ids| - 1] + [ids[|ids| - 1]];
    }
  }

  lemma {:induction false} CompletedIs(acc: seq<Id>, rest: seq<Id>)
    requires NoDup(rest)
    ensures Completed(acc, rest) == acc + Minus(rest, ToSet(acc))
    decreases |rest|
  {
    hide Minus;
    if rest == [] {
      MinusNothing(rest, ToSet(acc));
    } else {
      assert rest[0] !in rest[1..];
      MinusHead(rest, ToSet(acc));
      if rest[0] in acc {
        CompletedIs(acc, rest[1..]);
      } else {
        var more := acc + [rest[0]];
        CompletedIs(more, rest[1..]);
        MinusAgrees(rest[1..], ToSet(acc), ToSet(more));
        Regrouped(acc, [rest[0]], Minus(rest[1..], ToSet(acc)));
      }
    }
  }

  lemma {:induction false} MinusHead(s: seq<Id>, gone: set<Id>)
    requires s != []
    ensures Minus(s, gone) == if s[0] in gone then Minus(s[1..], gone) else [s[0]] + Minus(s[1..], gone)
  {
  }

  lemma {:induction false} Regrouped(a: seq<Id>, b: seq<Id>, c: seq<Id>)
    ensures a + b + c == a + (b + c)
  {
  }

  /** Reordering is a permutation: the chosen ids first, and the others in their old relative order. */
  lemma {:induction false} ReorderPermutes<E>(st: State<E>, ids: seq<Id>)
    requires Sound(st)
    ensures var next := Reorder(st, ids);
            && Sound(next) && next.engines == st.engines && next.weight == st.weight
               && multiset(next.order) == multiset(st.order)
            && Chosen(st.plugins, ids) <= next.order
            && next.order[|Chosen(st.plugins, ids)|..] == Minus(st.order, ToSet(ids))
  {
    hide Sum, Weights, Minus, Chosen, Completed;
    var chosen := Chosen(st.plugins, ids);
    ChosenIs(st.plugins, ids);
    MinusNoDup(st.order, ToSet(chosen));
    var rest := Minus(st.order, ToSet(chosen));
    var next := Reorder(st, ids);
    CompletedIs(chosen, st.order);
    assert NoDup(next.order) by { Concatenated(chosen, rest); }
    SameMembers(next.order, st.order);
    MinusAgrees(st.order, ToSet(chosen), ToSet(ids));
  }

  lemma {:induction false} Concatenated(a: seq<Id>, b: seq<Id>)
    requires NoDup(a) && NoDup(b) && forall x :: x in a ==> x !in b
    ensures NoDup(a + b)
  {
    forall i, j | 0 <= i < j < |a + b| ensures (a + b)[i] != (a + b)[j] {
      if i < |a| <= j { assert a[i] in a && b[j - |a|] in b; }
    }
  }

  lemma {:induction false} MinusAgrees(s: seq<Id>, a: set<Id>, b: set<Id>)
    requires forall x :: x in s ==> (x in a <==> x in b)
    ensures Minus(s, a) == Minus(s, b)
    decreases |s|
  {
    if s != [] { MinusAgrees(s[1..], a, b); }
  }

  // ---- runs ---------------------------------------------------------------------------------------

  datatype Event<E> =
    | Looked(hash: Hash)
    | Imported(id: Id, name: string, hash: Hash, entry: Entry<E>)
    | Inserted(hash: Hash, entry: Entry<E>)
    | Removed(id: Id)
    | Reordered(ids: seq<Id>)
    | Switched(id: Id, enabled: bool)

  /** One locked section; a refused one changes nothing. */
  function Apply<E>(st: State<E>, e: Event<E>): State<E> {
    match e
    case Looked(h) => Lookup(st, h).0
    case Imported(id, name, h, entry) =>
      if Import(st, id, name, h, entry).Ok? then Import(st, id, name, h, entry).value else st
    case Inserted(h, entry) => if Insert(st, h, entry).Ok? then Insert(st, h, entry).value.0 else st
    case Removed(id) => Remove(st, id).0
    case Reordered(ids) => Reorder(st, ids)
    case Switched(id, enabled) => SetEnabled(st, id, enabled)
  }

  /** New plugins get new ids. */
  predicate Fresh<E>(st: State<E>, e: Event<E>) {
    e.Imported? ==> e.id !in st.plugins
  }

  /** No weight total leaves the machine word. */
  predicate Unsaturated<E>(st: State<E>, e: Event<E>) {
    match e
    case Imported(_, _, h, entry) => Fits(st, h, entry.weight)
    case Inserted(h, entry) => Fits(st, h, entry.weight)
    case _ => true
  }

  function Exec<E>(maxWeight: nat, run: seq<Event<E>>): State<E> {
    if run == [] then New(maxWeight) else Apply(Exec(maxWeight, run[..|run| - 1]), run[|run| - 1])
  }

  predicate FreshRun<E>(maxWeight: nat, run: seq<Event<E>>) {
    run == [] ||
    (FreshRun(maxWeight, run[..|run| - 1]) && Fresh(Exec(maxWeight, run[..|run| - 1]), run[|run| - 1]))
  }

  predicate UnsaturatedRun<E>(maxWeight: nat, run: seq<Event<E>>) {
    run == [] ||
    (UnsaturatedRun(maxWeight, run[..|run| - 1]) && Unsaturated(Exec(maxWeight, run[..|run| - 1]), run[|run| - 1]))
  }

  lemma {:induction false} ApplyKeeps<E>(st: State<E>, e: Event<E>)
    requires Sound(st) && Fresh(st, e)
    ensures Sound(Apply(st, e)) && (Weighed(st) && Unsaturated(st, e) ==> Weighed(Apply(st, e)))
  {
    hide Sound, Lookup, Import, Insert, Remove, Reorder, SetEnabled, Fits;
    match e {
      case Looked(h) => LookupKeeps(st, h);
      case Imported(id, name, h, entry) => ImportKeeps(st, id, name, h, entry);
      case Inserted(h, entry) => InsertKeeps(st, h, entry);
      case Removed(id) => RemoveKeeps(st, id);
      case Reordered(ids) => ReorderPermutes(st, ids);
      case Switched(id, enabled) => SwitchKeeps(st, id, enabled);
    }
  }

  lemma {:induction false} SwitchKeeps<E>(st: State<E>, id: Id, enabled: bool)
    requires Sound(st)
    ensures Sound(SetEnabled(st, id, enabled))
    ensures SetEnabled(st, id, enabled).engines == st.engines && SetEnabled(st, id, enabled).weight == st.weight
  {
    hide Sum, Weights, NoDup;
    var next := SetEnabled(st, id, enabled);
    if id in st.plugins {
      forall h | h in Pinned(st.plugins) ensures h in Pinned(next.plugins) {
        var x :| x in st.plugins && st.plugins[x].hash == h;
        assert next.plugins[x].hash == h;
      }
    }
  }

  /**
   In every reachable state, whatever the interleaving: each cached component is listed once, every plugin
   is backed, the order is that of the catalog, the cache is within budget or fully pinned, and the total
   never exceeds what is cached. It is exactly that as long as no addition has saturated.
   */
  lemma {:induction false} EveryStateHolds<E>(maxWeight: nat, run: seq<Event<E>>)
    requires FreshRun(maxWeight, run)
    ensures Sound(Exec(maxWeight, run))
    ensures UnsaturatedRun(maxWeight, run) ==> Weighed(Exec(maxWeight, run))
    decreases |run|
  {
    hide Apply, Fresh, Unsaturated, Sound, Weighed;
    if run == [] {
      NewHolds<E>(maxWeight);
    } else {
      EveryStateHolds(maxWeight, run[..|run| - 1]);
      ApplyKeeps(Exec(maxWeight, run[..|run| - 1]), run[|run| - 1]);
    }
  }

  /** A saturated total: one entry of maximal weight and one of weight one in a cache without budget limit. */
  lemma {:induction false} SaturatedTotal<E>(engine: E)
    ensures var c := Capabilities(true);
            var run: seq<Event<E>> := [Inserted("a", Entry(engine, c, U64_MAX)), Inserted("b", Entry(engine, c, 1))];
            FreshRun(U64_MAX, run) && Exec(U64_MAX, run).weight == U64_MAX && !Weighed(Exec(U64_MAX, run))
  {
    hide Sum, Touch;
    var c := Capabilities(true);
    var a, b := Entry(engine, c, U64_MAX), Entry(engine, c, 1);
    var run: seq<Event<E>> := [Inserted("a", a), Inserted("b", b)];
    var none: State<E> := New(U64_MAX);
    NewHolds<E>(U64_MAX);
    assert run[..1] == [Inserted("a", a)] && run[..1][..0] == [] && "a" != "b";
    var one := Cache(none, "a", a);
    CacheWeighs(none, "a", a);
    assert Evict(one) == one;
    assert Exec(U64_MAX, run[..0]) == none && run[..1][..0] == run[..0];
    assert Exec(U64_MAX, run[..1]) == one;
    var two := Cache(one, "b", b);
    assert "b" !in one.engines;
    CacheWeighs(one, "b", b);
    assert Evict(two) == two;
    assert Exec(U64_MAX, run) == two;
    assert FreshRun(U64_MAX, run[..0]);
    assert FreshRun(U64_MAX, run[..1]);
  }

  lemma {:induction false} NewHolds<E>(maxWeight: nat)
    ensures Inv(New<E>(maxWeight))
  {
    SumZero(Weights<E>(map[]));
  }
}
