/** The registry object: each method is one locked section, proved equal to its function on states. */
module RegistryCache {
  import opened Common
  import opened Sequences
  import opened Registry
  import opened RegistryTheorems

  class PluginRegistry<E> {
    var plugins: map<Id, Plugin<E>>
    var order: seq<Id>
    var engines: map<Hash, Entry<E>>
    var recency: seq<Hash>
    var weight: nat
    const maxWeight: nat

    function View(): State<E>
      reads this
    {
      State(plugins, order, engines, recency, weight, maxWeight)
    }

    constructor (maxWeight: nat)
      ensures View() == New(maxWeight) && Inv(View())
    {
      plugins, order, engines, recency, weight := map[], [], map[], [], 0;
      this.maxWeight := maxWeight;
      new;
      NewHolds<E>(maxWeight);
    }

    method FindHash(h: Hash) returns (i: nat)
      ensures i == Position(recency, h)
    {
      i := 0;
      while i < |recency| && recency[i] != h
        invariant i <= |recency|
        invariant forall j :: 0 <= j < i ==> recency[j] != h
      {
        i := i + 1;
      }
    }

    method TouchEntry(h: Hash)
      modifies this`recency
      ensures recency == Touch(old(recency), h)
    {
      var i := FindHash(h);
      if i < |recency| { recency := recency[..i] + recency[i + 1..]; }
      recency := recency + [h];
    }

    method FindVictim(pinned: set<Hash>) returns (i: nat)
      ensures i == Victim(recency, pinned, engines)
    {
      i := 0;
      while i < |recency| && (recency[i] in pinned || recency[i] !in engines)
        invariant i <= |recency|
        invariant forall j :: 0 <= j < i ==> recency[j] in pinned || recency[j] !in engines
      {
        i := i + 1;
      }
    }

    method EvictUnreferenced()
      modifies this`recency, this`engines, this`weight
      ensures View() == Evict(old(View()))
    {
      ghost var end := Evict(View());
      while weight > maxWeight
        invariant Evict(View()) == end
        decreases |recency|
      {
        var i := FindVictim(Pinned(plugins));
        if i == |recency| { break; }
        var victim := recency[i];
        assert View() == State(plugins, order, engines, recency, weight, maxWeight);
        ghost var next := DropEntry(View(), i);
        recency := recency[..i] + recency[i + 1..];
        weight := SaturatingSub(weight, engines[victim].weight);
        engines := engines - {victim};
        assert View() == next;
      }
    }

    method CachedEngine(h: Hash) returns (r: Option<Entry<E>>)
      modifies this`recency
      ensures (View(), r) == Lookup(old(View()), h)
      ensures old(Sound(View())) ==> Sound(View())
      ensures old(Inv(View())) ==> Inv(View())
    {
      ghost var was := View();
      if old(Sound(View())) { LookupKeeps(was, h); }
      if h !in engines { return None; }
      r := Some(engines[h]);
      var i := FindHash(h);
      if i < |recency| {
        recency := recency[..i] + recency[i + 1..];
        recency := recency + [h];
      }
    }

    method ImportPlugin(id: Id, name: string, h: Hash, candidate: Entry<E>) returns (ok: bool)
      modifies this`plugins, this`order, this`recency, this`engines, this`weight
      ensures var was := Import(old(View()), id, name, h, candidate);
              ok == was.Ok? && View() == if ok then was.value else old(View())
      ensures old(Sound(View()) && id !in plugins) ==> Sound(View())
      ensures old(Inv(View()) && id !in plugins && Fits(View(), h, candidate.weight)) ==> Inv(View())
    {
      hide Evict, Touch, Sound, Weighed;
      if old(Sound(View()) && id !in plugins) {
        ImportKeeps(View(), id, name, h, candidate);
      }
      if h in engines {
        if engines[h].capabilities != candidate.capabilities { return false; }
      } else {
        weight := SaturatingAdd(weight, candidate.weight);
        engines := engines[h := candidate];
      }
      TouchEntry(h);
      plugins := plugins[id := Plugin(name, true, h, candidate.capabilities, engines[h].engine)];
      order := order + [id];
      EvictUnreferenced();
      ok := true;
    }

    method InsertEngine(h: Hash, candidate: Entry<E>) returns (r: Option<E>)
      modifies this`recency, this`engines, this`weight
      ensures var was := Insert(old(View()), h, candidate);
              if was.Err? then r == None && View() == old(View())
              else r == Some(was.value.1) && View() == was.value.0
      ensures old(Sound(View())) ==> Sound(View())
      ensures old(Inv(View()) && Fits(View(), h, candidate.weight)) ==> Inv(View())
    {
      hide Evict, Touch, Sound, Weighed;
      if old(Sound(View())) { InsertKeeps(View(), h, candidate); }
      if h in engines {
        if engines[h].capabilities != candidate.capabilities { return None; }
        var authoritative := engines[h].engine;
        TouchEntry(h);
        return Some(authoritative);
      }
      weight := SaturatingAdd(weight, candidate.weight);
      engines := engines[h := candidate];
      TouchEntry(h);
      EvictUnreferenced();
      r := Some(candidate.engine);
    }

    method RemovePlugin(id: Id) returns (removed: bool)
      modifies this`plugins, this`order, this`recency, this`engines, this`weight
      ensures (View(), removed) == Remove(old(View()), id)
      ensures old(Sound(View())) ==> Sound(View())
      ensures old(Inv(View())) ==> Inv(View())
    {
      hide Evict, Minus, Sound, Weighed;
      if old(Sound(View())) { RemoveKeeps(View(), id); }
      order := Retain(order, id);
      removed := id in plugins;
      plugins := plugins - {id};
      if removed { EvictUnreferenced(); }
    }

    /** Plugins omitted from `ids` keep their relative order at the end. */
    method ReorderPlugins(ids: seq<Id>)
      modifies this`order
      ensures View() == Reorder(old(View()), ids)
      ensures old(Sound(View())) ==> Sound(View()) && multiset(order) == multiset(old(order))
      ensures old(Inv(View())) ==> Inv(View())
    {
      if Sound(View()) { ReorderPermutes(View(), ids); }
      var newOrder: seq<Id> := [];
      for i := 0 to |ids|
        invariant newOrder == Chosen(plugins, ids[..i])
      {
        assert ids[..i + 1][..i] == ids[..i];
        if ids[i] in plugins && ids[i] !in newOrder { newOrder := newOrder + [ids[i]]; }
      }
      assert ids[..|ids|] == ids;
      ghost var end := Completed(newOrder, order);
      assert order[0..] == order;
      for i := 0 to |order|
        invariant Completed(newOrder, order[i..]) == end
        invariant order == old(order)
      {
        assert order[i..][1..] == order[i + 1..];
        if order[i] !in newOrder { newOrder := newOrder + [order[i]]; }
      }
      order := newOrder;
    }
  }

  method Retain(s: seq<Id>, gone: Id) returns (r: seq<Id>)
    ensures r == Minus(s, {gone})
  {
    r := [];
    assert s[..0] == [];
    for i := 0 to |s|
      invariant r == Minus(s[..i], {gone})
    {
      assert s[..i + 1] == s[..i] + [s[i]];
      MinusJoins(s[..i], [s[i]], {gone});
      if s[i] != gone { r := r + [s[i]]; }
    }
    assert s[..|s|] == s;
  }
}
