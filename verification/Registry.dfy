/** The plugin catalog and the compile cache it pins, as a value, and each locked section as a function of it. */
module Registry {
  import opened Common
  import opened Sequences

  type Id = string
  type Hash = string

  datatype Capabilities = Capabilities(prefixSafeForRead: bool)

  datatype Plugin<E> = Plugin(name: string, enabled: bool, hash: Hash, capabilities: Capabilities, engine: E)

  datatype Entry<E> = Entry(engine: E, capabilities: Capabilities, weight: nat)

  datatype State<E> = State(
    plugins: map<Id, Plugin<E>>,
    order: seq<Id>,
    engines: map<Hash, Entry<E>>,
    recency: seq<Hash>,
    weight: nat,
    maxWeight: nat)

  function New<E>(maxWeight: nat): State<E> {
    State(map[], [], map[], [], 0, maxWeight)
  }

  /** The components the catalog refers to. */
  function Pinned<E>(plugins: map<Id, Plugin<E>>): set<Hash> {
    set id | id in plugins :: plugins[id].hash
  }

  /** The position of the first `h`, or the length. */
  function Position(s: seq<Hash>, h: Hash): (i: nat)
    ensures i <= |s|
    ensures i < |s| ==> s[i] == h
    ensures forall j :: 0 <= j < i ==> s[j] != h
    ensures i == |s| ==> h !in s
  {
    if s == [] then 0 else if s[0] == h then 0 else 1 + Position(s[1..], h)
  }

  function TakeOut(s: seq<Hash>, i: nat): seq<Hash> {
    if i < |s| then s[..i] + s[i + 1..] else s
  }

  /** Moves `h` to the most recent end. */
  function Touch(recency: seq<Hash>, h: Hash): seq<Hash> {
    TakeOut(recency, Position(recency, h)) + [h]
  }

  /** The position of the least recent entry the catalog does not refer to, or the length. */
  function Victim<E>(recency: seq<Hash>, pinned: set<Hash>, engines: map<Hash, Entry<E>>): (i: nat)
    ensures i <= |recency|
    ensures i < |recency| ==> recency[i] !in pinned && recency[i] in engines
    ensures forall j :: 0 <= j < i ==> recency[j] in pinned || recency[j] !in engines
  {
    if recency == [] then 0
    else if recency[0] !in pinned && recency[0] in engines then 0
    else 1 + Victim(recency[1..], pinned, engines)
  }

  function DropEntry<E>(st: State<E>, i: nat): State<E>
    requires i < |st.recency| && st.recency[i] in st.engines
  {
    var h := st.recency[i];
    st.(recency := TakeOut(st.recency, i), engines := st.engines - {h},
        weight := SaturatingSub(st.weight, st.engines[h].weight))
  }

  /** Drops least recent unpinned entries while the cache is over its budget. */
  function Evict<E>(st: State<E>): State<E>
    decreases |st.recency|
  {
    var i := Victim(st.recency, Pinned(st.plugins), st.engines);
    if st.weight <= st.maxWeight || i == |st.recency| then st else Evict(DropEntry(st, i))
  }

  /** The entry under `h` and the recency update that goes with reading it. */
  function Lookup<E>(st: State<E>, h: Hash): (State<E>, Option<Entry<E>>) {
    if h !in st.engines then (st, None)
    else if h in st.recency then (st.(recency := Touch(st.recency, h)), Some(st.engines[h]))
    else (st, Some(st.engines[h]))
  }

  /** `entry` in the cache under `h`, most recent, unless there is one already. */
  function Cache<E>(st: State<E>, h: Hash, entry: Entry<E>): State<E> {
    var st' := if h in st.engines then st
               else st.(weight := SaturatingAdd(st.weight, entry.weight), engines := st.engines[h := entry]);
    st'.(recency := Touch(st'.recency, h))
  }

  /** The transaction that adds a plugin: cache, pin, order, evict. */
  function Import<E>(st: State<E>, id: Id, name: string, h: Hash, entry: Entry<E>): Result<State<E>, ()> {
    if h in st.engines && st.engines[h].capabilities != entry.capabilities then Err(())
    else
      var cached := Cache(st, h, entry);
      var plugin := Plugin(name, true, h, entry.capabilities, cached.engines[h].engine);
      Ok(Evict(cached.(plugins := st.plugins[id := plugin], order := st.order + [id])))
  }

  /** Caches a compiled engine; the engine to use is the one already cached, if any. */
  function Insert<E>(st: State<E>, h: Hash, entry: Entry<E>): Result<(State<E>, E), ()> {
    if h in st.engines then
      if st.engines[h].capabilities != entry.capabilities then Err(())
      else Ok((Cache(st, h, entry), st.engines[h].engine))
    else Ok((Evict(Cache(st, h, entry)), entry.engine))
  }

  function Remove<E>(st: State<E>, id: Id): (State<E>, bool) {
    var st' := st.(order := Minus(st.order, {id}), plugins := st.plugins - {id});
    if id in st.plugins then (Evict(st'), true) else (st', false)
  }

  /** The catalog ids in `ids`, each where it first occurs. */
  function Chosen<E>(plugins: map<Id, Plugin<E>>, ids: seq<Id>): seq<Id> {
    if ids == [] then []
    else
      var before, id := Chosen(plugins, ids[..|ids| - 1]), ids[|ids| - 1];
      if id in plugins && id !in before then before + [id] else before
  }

  /** `acc` with the ids of `rest` it does not hold yet. */
  function Completed(acc: seq<Id>, rest: seq<Id>): seq<Id>
    decreases |rest|
  {
    if rest == [] then acc else Completed(if rest[0] in acc then acc else acc + [rest[0]], rest[1..])
  }

  function Reorder<E>(st: State<E>, ids: seq<Id>): State<E> {
    st.(order := Completed(Chosen(st.plugins, ids), st.order))
  }

  function SetEnabled<E>(st: State<E>, id: Id, enabled: bool): State<E> {
    if id in st.plugins then st.(plugins := st.plugins[id := st.plugins[id].(enabled := enabled)]) else st
  }
}
