/** Guest localStorage: areas hydrated from the persistence seed on first touch,
    the dump that walks opened and unopened origins, and why neither is visible. */
module Storage {
  import opened Basics

  type Items = map<string, string>

  /** An opaque origin has an identity but no name of its own. */
  datatype Origin = Opaque(id: nat) | Tuple(name: string)

  /** SecurityOriginData::toString. */
  function Key(o: Origin): string {
    match o
    case Opaque(_) => "null"
    case Tuple(name) => name
  }

  predicate Restorable(key: string) { key != "" && key != "null" }

  // ----- one area under its quota ---------------------------------------------------

  function Bytes(s: string): nat { 2 * |s| }

  function Cost(key: string, value: string): nat { Bytes(key) + Bytes(value) }

  /** The bytes an area holds. */
  ghost function Size(m: Items): nat {
    if m == map[] then 0
    else
      var k :| k in m;
      Cost(k, m[k]) + Size(m - {k})
  }

  /** A write that would exceed the quota leaves the area as it was. */
  ghost function Put(m: Items, key: string, value: string, quota: nat): Items {
    if Size(m[key := value]) <= quota then m[key := value] else m
  }

  /** The seed items imported one by one, in the order they are listed. */
  ghost function Imported(order: seq<(string, string)>, quota: nat): Items
    decreases |order|
  {
    if order == [] then map[]
    else
      var last := order[|order| - 1];
      Put(Imported(order[..|order| - 1], quota), last.0, last.1, quota)
  }

  /** order lists the items of m, each key once. */
  ghost predicate Lists(order: seq<(string, string)>, m: Items) {
    && (forall i :: 0 <= i < |order| ==> order[i].0 in m && m[order[i].0] == order[i].1)
    && (forall i, j :: 0 <= i < j < |order| ==> order[i].0 != order[j].0)
    && (forall k :: k in m ==> exists i :: 0 <= i < |order| && order[i].0 == k)
  }

  /** The bytes held do not depend on the order they are counted in. */
  lemma {:induction false} SizeWithout(m: Items, key: string)
    requires key in m
    ensures Size(m) == Cost(key, m[key]) + Size(m - {key})
    decreases |m|
  {
    var k :| k in m && Size(m) == Cost(k, m[k]) + Size(m - {k});
    if k != key {
      SizeWithout(m - {k}, key);
      SizeWithout(m - {key}, k);
      assert m - {k} - {key} == m - {key} - {k};
    }
  }

  lemma SizeWith(m: Items, key: string, value: string)
    ensures Size(m[key := value]) == Size(m - {key}) + Cost(key, value)
  {
    SizeWithout(m[key := value], key);
    assert m[key := value] - {key} == m - {key};
  }

  lemma {:induction false} SizeOfPart(part: Items, m: Items)
    requires forall k :: k in part ==> k in m && part[k] == m[k]
    ensures Size(part) <= Size(m)
    decreases |part|
  {
    if part != map[] {
      var k :| k in part;
      SizeWithout(part, k);
      SizeWithout(m, k);
      SizeOfPart(part - {k}, m - {k});
    }
  }

  lemma {:induction false} ImportedFits(order: seq<(string, string)>, quota: nat)
    ensures Size(Imported(order, quota)) <= quota
    decreases |order|
  {
    if order != [] {
      ImportedFits(order[..|order| - 1], quota);
    }
  }

  /** Importing a prefix of a seed that fits loses nothing of the prefix. */
  lemma {:induction false} ImportedPrefix(order: seq<(string, string)>, seed: Items, quota: nat)
    requires Size(seed) <= quota
    requires forall i :: 0 <= i < |order| ==> order[i].0 in seed && seed[order[i].0] == order[i].1
    ensures var m := Imported(order, quota);
            && (forall k :: k in m ==> k in seed && m[k] == seed[k])
            && (forall i :: 0 <= i < |order| ==> order[i].0 in m)
    decreases |order|
  {
    if order != [] {
      var before, last := order[..|order| - 1], order[|order| - 1];
      ImportedPrefix(before, seed, quota);
      SizeOfPart(Imported(before, quota)[last.0 := last.1], seed);
      forall i | 0 <= i < |order| ensures order[i].0 in Imported(order, quota) {
        if i < |before| { assert before[i] == order[i]; }
      }
    }
  }

  /** Hydration restores an origin's seed whole, in whatever order its items come,
      exactly when the seed is within the quota. */
  lemma {:induction false} HydrationIsWhole(order: seq<(string, string)>, seed: Items, quota: nat)
    requires Lists(order, seed)
    ensures Imported(order, quota) == seed <==> Size(seed) <= quota
  {
    var m := Imported(order, quota);
    ImportedFits(order, quota);
    if Size(seed) <= quota {
      ImportedPrefix(order, seed, quota);
      forall k | k in seed ensures k in m {
        var i :| 0 <= i < |order| && order[i].0 == k;
      }
    }
  }

  // ----- a session, hydrated lazily ------------------------------------------------------

  /** The areas opened so far, and the seed of the origins not opened yet. */
  datatype Session = Session(areas: map<Origin, Items>, pending: map<string, Items>)

  datatype Event =
    | Open(o: Origin, order: seq<(string, string)>)   // storageArea; order is the hash map's
    | Set(o: Origin, key: string, value: string)
    | Remove(o: Origin, key: string)
    | Clear(o: Origin)

  function Get<K>(m: map<K, Items>, k: K): Items { if k in m then m[k] else map[] }

  /** One change to one area. */
  ghost function Changed(m: Items, e: Event, quota: nat): Items {
    match e
    case Open(_, _) => m
    case Set(_, key, value) => Put(m, key, value, quota)
    case Remove(_, key) => m - {key}
    case Clear(_) => map[]
  }

  /** The first touch of an origin walks its whole pending import; the others act
      on an area already open. */
  ghost predicate Enabled(s: Session, e: Event) {
    match e
    case Open(o, order) => o !in s.areas && Restorable(Key(o)) ==> Lists(order, Get(s.pending, Key(o)))
    case _ => e.o in s.areas
  }

  ghost function Opened(s: Session, o: Origin, order: seq<(string, string)>, quota: nat): Session {
    if o in s.areas then s
    else if Restorable(Key(o)) then
      Session(s.areas[o := Imported(order, quota)], s.pending - {Key(o)})
    else Session(s.areas[o := map[]], s.pending)
  }

  ghost function Step(s: Session, e: Event, quota: nat): Session
    requires Enabled(s, e)
  {
    if e.Open? then Opened(s, e.o, e.order, quota)
    else Session(s.areas[e.o := Changed(s.areas[e.o], e, quota)], s.pending)
  }

  function Start(seed: map<string, Items>): Session { Session(map[], seed) }

  ghost predicate Runs(seed: map<string, Items>, es: seq<Event>, quota: nat)
    decreases |es|, 0
  {
    es == [] || (Runs(seed, es[..|es| - 1], quota) && Enabled(Run(seed, es[..|es| - 1], quota), es[|es| - 1]))
  }

  ghost function Run(seed: map<string, Items>, es: seq<Event>, quota: nat): Session
    requires Runs(seed, es, quota)
    decreases |es|, 1
  {
    if es == [] then Start(seed) else Step(Run(seed, es[..|es| - 1], quota), es[|es| - 1], quota)
  }

  /** bibLocalAreaRegistry: the restorable origins opened. */
  predicate Registered(s: Session, key: string) {
    Restorable(key) && Tuple(key) in s.areas
  }

  /** bibBuildPersistJSON: opened areas, then the imports still pending. */
  ghost function Dump(s: Session): map<string, Items> {
    map key | key in (set o | o in s.areas && Restorable(Key(o)) && o.Tuple? :: Key(o)) + s.pending.Keys ::
      if Registered(s, key) then s.areas[Tuple(key)] else s.pending[key]
  }

  // ----- the eager store it stands for -----------------------------------------------------

  /** Restorable origins live in the persistent store under their key; the others
      have a store of their own that starts empty. */
  datatype Slot = Shared(key: string) | Private(o: Origin)

  function SlotOf(o: Origin): Slot { if Restorable(Key(o)) then Shared(Key(o)) else Private(o) }

  ghost function EagerStart(seed: map<string, Items>): map<Slot, Items> {
    map slot | slot in (set key | key in seed :: Shared(key)) :: seed[slot.key]
  }

  ghost function EagerStep(store: map<Slot, Items>, e: Event, quota: nat): map<Slot, Items> {
    store[SlotOf(e.o) := Changed(Get(store, SlotOf(e.o)), e, quota)]
  }

  ghost function EagerRun(store: map<Slot, Items>, es: seq<Event>, quota: nat): map<Slot, Items>
    decreases |es|
  {
    if es == [] then store else EagerStep(EagerRun(store, es[..|es| - 1], quota), es[|es| - 1], quota)
  }

  ghost predicate AllFit(seed: map<string, Items>, quota: nat) {
    forall key :: key in seed ==> Size(seed[key]) <= quota
  }

  /** Nothing is both open and pending; an open area is the eager one, and an
      origin not open yet is still its seed. */
  ghost predicate Matches(s: Session, store: map<Slot, Items>) {
    && (forall o :: o in s.areas ==> s.areas[o] == Get(store, SlotOf(o)))
    && (forall key :: Registered(s, key) ==> key !in s.pending)
    && (forall key :: !Registered(s, key) ==> Get(s.pending, key) == Get(store, Shared(key)))
    && (forall o :: o !in s.areas && SlotOf(o).Private? ==> Get(store, SlotOf(o)) == map[])
  }

  lemma SlotsApart(o: Origin, o': Origin)
    ensures SlotOf(o) == SlotOf(o') <==> o == o'
  {
  }

  lemma OpenedMatches(s: Session, store: map<Slot, Items>, o: Origin, order: seq<(string, string)>, quota: nat)
    requires Matches(s, store) && Enabled(s, Open(o, order)) && AllFit(s.pending, quota)
    ensures Matches(Opened(s, o, order, quota), store)
  {
    var key := Key(o);
    if o in s.areas {
    } else if Restorable(key) {
      HydrationIsWhole(order, Get(s.pending, key), quota);
      assert o == Tuple(key) && Imported(order, quota) == Get(s.pending, key);
      HydratedMatches(s, store, key);
    } else {
      PrivateMatches(s, store, o);
    }
  }

  lemma OpenMatches(s: Session, store: map<Slot, Items>, e: Event, quota: nat)
    requires Matches(s, store) && e.Open? && Enabled(s, e) && AllFit(s.pending, quota)
    ensures Matches(Step(s, e, quota), EagerStep(store, e, quota))
  {
    OpenedMatches(s, store, e.o, e.order, quota);
    MatchesSame(Opened(s, e.o, e.order, quota), store, EagerStep(store, e, quota));
  }

  lemma PrivateMatches(s: Session, store: map<Slot, Items>, o: Origin)
    requires Matches(s, store) && !Restorable(Key(o)) && o !in s.areas
    ensures Matches(Session(s.areas[o := map[]], s.pending), store)
  {
  }

  lemma MatchesSame(s: Session, store: map<Slot, Items>, store': map<Slot, Items>)
    requires Matches(s, store) && forall slot :: Get(store', slot) == Get(store, slot)
    ensures Matches(s, store')
  {
  }

  /** An origin's seed moves from the pending imports to its area. */
  lemma HydratedMatches(s: Session, store: map<Slot, Items>, key: string)
    requires Matches(s, store) && Restorable(key) && Tuple(key) !in s.areas
    ensures Matches(Session(s.areas[Tuple(key) := Get(s.pending, key)], s.pending - {key}), store)
  {
    assert !Registered(s, key);
  }

  lemma ChangeMatches(s: Session, store: map<Slot, Items>, e: Event, quota: nat)
    requires Matches(s, store) && !e.Open? && Enabled(s, e)
    ensures Matches(Step(s, e, quota), EagerStep(store, e, quota))
  {
    var s', store' := Step(s, e, quota), EagerStep(store, e, quota);
    forall o | o in s'.areas ensures s'.areas[o] == Get(store', SlotOf(o)) {
      SlotsApart(o, e.o);
    }
    forall key | !Registered(s', key) ensures Get(s'.pending, key) == Get(store', Shared(key)) {
      assert !Registered(s, key);
    }
  }

  lemma {:induction false} RunMatches(seed: map<string, Items>, es: seq<Event>, quota: nat)
    requires AllFit(seed, quota) && Runs(seed, es, quota)
    ensures Matches(Run(seed, es, quota), EagerRun(EagerStart(seed), es, quota))
    ensures AllFit(Run(seed, es, quota).pending, quota)
    decreases |es|
  {
    if es != [] {
      var before, e := es[..|es| - 1], es[|es| - 1];
      RunMatches(seed, before, quota);
      if e.Open? {
        OpenMatches(Run(seed, before, quota), EagerRun(EagerStart(seed), before, quota), e, quota);
      } else {
        ChangeMatches(Run(seed, before, quota), EagerRun(EagerStart(seed), before, quota), e, quota);
      }
    }
  }

  lemma DumpHolds(s: Session, store: map<Slot, Items>)
    requires Matches(s, store)
    ensures forall key :: Get(Dump(s), key) == Get(store, Shared(key))
    ensures forall key :: key in s.pending ==> key in Dump(s)
  {
    forall key ensures Get(Dump(s), key) == Get(store, Shared(key)) {
      if Registered(s, key) {
        assert Key(Tuple(key)) == key && key in Dump(s);
        assert SlotOf(Tuple(key)) == Shared(key);
      }
    }
  }

  /** Lazy hydration cannot be told from an eager store: for a seed within quota and
      any run of first touches and writes, every open area holds what the eager
      store holds, and the dump holds the eager store of every restorable origin,
      visited or not. */
  lemma {:induction false} LazyIsEager(seed: map<string, Items>, es: seq<Event>, quota: nat)
    requires AllFit(seed, quota) && Runs(seed, es, quota)
    ensures var s, store := Run(seed, es, quota), EagerRun(EagerStart(seed), es, quota);
            && (forall o :: o in s.areas ==> s.areas[o] == Get(store, SlotOf(o)))
            && (forall key :: Get(Dump(s), key) == Get(store, Shared(key)))
  {
    RunMatches(seed, es, quota);
    DumpHolds(Run(seed, es, quota), EagerRun(EagerStart(seed), es, quota));
  }

  lemma PutFits(m: Items, e: Event, quota: nat)
    requires Size(m) <= quota
    ensures Size(Changed(m, e, quota)) <= quota
  {
    if e.Remove? {
      SizeOfPart(m - {e.key}, m);
    }
  }

  lemma {:induction false} EagerFits(store: map<Slot, Items>, es: seq<Event>, quota: nat)
    requires forall slot :: slot in store ==> Size(store[slot]) <= quota
    ensures forall slot :: slot in EagerRun(store, es, quota) ==> Size(EagerRun(store, es, quota)[slot]) <= quota
    decreases |es|
  {
    if es != [] {
      var before, e := es[..|es| - 1], es[|es| - 1];
      EagerFits(store, before, quota);
      PutFits(Get(EagerRun(store, before, quota), SlotOf(e.o)), e, quota);
    }
  }

  /** A dump is always a seed within quota for the next session. */
  lemma {:induction false} DumpFits(seed: map<string, Items>, es: seq<Event>, quota: nat)
    requires AllFit(seed, quota) && Runs(seed, es, quota)
    ensures AllFit(Dump(Run(seed, es, quota)), quota)
  {
    var store := EagerRun(EagerStart(seed), es, quota);
    LazyIsEager(seed, es, quota);
    EagerFits(EagerStart(seed), es, quota);
    var dump := Dump(Run(seed, es, quota));
    forall key | key in dump ensures Size(dump[key]) <= quota {
      assert dump[key] == Get(dump, key) == Get(store, Shared(key));
    }
  }

  // ----- across sessions -----------------------------------------------------------------

  /** The dump after several sessions, each seeded with the dump before it. */
  ghost predicate SessionsRun(seed: map<string, Items>, sessions: seq<seq<Event>>, quota: nat)
    decreases |sessions|, 0
  {
    sessions == [] ||
    (SessionsRun(seed, sessions[..|sessions| - 1], quota) &&
     Runs(DumpAfter(seed, sessions[..|sessions| - 1], quota), sessions[|sessions| - 1], quota))
  }

  ghost function DumpAfter(seed: map<string, Items>, sessions: seq<seq<Event>>, quota: nat): map<string, Items>
    requires SessionsRun(seed, sessions, quota)
    decreases |sessions|, 1
  {
    if sessions == [] then seed
    else Dump(Run(DumpAfter(seed, sessions[..|sessions| - 1], quota), sessions[|sessions| - 1], quota))
  }

  /** The eager store run through all of them in one go. */
  ghost function EagerSessions(store: map<Slot, Items>, sessions: seq<seq<Event>>, quota: nat): map<Slot, Items>
    decreases |sessions|
  {
    if sessions == [] then store
    else EagerRun(EagerSessions(store, sessions[..|sessions| - 1], quota), sessions[|sessions| - 1], quota)
  }

  /** Two stores that persist the same contents, an absent origin and an empty one
      alike. */
  ghost predicate SameShared(a: map<Slot, Items>, b: map<Slot, Items>) {
    forall key :: Get(a, Shared(key)) == Get(b, Shared(key))
  }

  lemma {:induction false} EagerRespects(a: map<Slot, Items>, b: map<Slot, Items>, es: seq<Event>, quota: nat)
    requires SameShared(a, b)
    ensures SameShared(EagerRun(a, es, quota), EagerRun(b, es, quota))
    decreases |es|
  {
    if es != [] {
      EagerRespects(a, b, es[..|es| - 1], quota);
    }
  }

  lemma StartHolds(seed: map<string, Items>)
    ensures forall key :: Get(EagerStart(seed), Shared(key)) == Get(seed, key)
  {
  }

  /** One more session after stores that agree. */
  lemma SessionContinues(seed: map<string, Items>, store: map<Slot, Items>, es: seq<Event>, quota: nat)
    requires AllFit(seed, quota) && Runs(seed, es, quota) && SameShared(EagerStart(seed), store)
    ensures SameShared(EagerStart(Dump(Run(seed, es, quota))), EagerRun(store, es, quota))
  {
    LazyIsEager(seed, es, quota);
    StartHolds(Dump(Run(seed, es, quota)));
    EagerRespects(EagerStart(seed), store, es, quota);
  }

  /** Restarting any number of times loses and changes nothing: the last dump is the
      eager store run through all the sessions' events in one go, whichever origins
      each session visited. */
  lemma {:induction false} SessionsAreOne(seed: map<string, Items>, sessions: seq<seq<Event>>, quota: nat)
    requires AllFit(seed, quota) && SessionsRun(seed, sessions, quota)
    ensures AllFit(DumpAfter(seed, sessions, quota), quota)
    ensures SameShared(EagerStart(DumpAfter(seed, sessions, quota)), EagerSessions(EagerStart(seed), sessions, quota))
    decreases |sessions|
  {
    if sessions != [] {
      var before, es := sessions[..|sessions| - 1], sessions[|sessions| - 1];
      SessionsAreOne(seed, before, quota);
      DumpFits(DumpAfter(seed, before, quota), es, quota);
      SessionContinues(DumpAfter(seed, before, quota), EagerSessions(EagerStart(seed), before, quota), es, quota);
    }
  }

  // ----- the objects ------------------------------------------------------------------------

  /** BibStorageArea over WebCore's quota-enforcing map. */
  class StorageArea {
    const quota: nat
    var items: Items
    var used: nat

    ghost predicate Valid()
      reads this
    {
      used == Size(items) <= quota
    }

    constructor (quota: nat)
      ensures Valid() && items == map[] && this.quota == quota
    {
      this.quota := quota;
      items, used := map[], 0;
    }

    /** setItem and importItem; over quota nothing changes. */
    method SetItem(key: string, value: string) returns (quotaException: bool)
      requires Valid()
      modifies this
      ensures Valid() && items == Put(old(items), key, value, quota)
      ensures quotaException <==> Size(old(items)[key := value]) > quota
      ensures items == if quotaException then old(items) else old(items)[key := value]
    {
      SizeWith(items, key, value);
      var without := used;
      if key in items {
        SizeWithout(items, key);
        without := used - Cost(key, items[key]);
      } else {
        assert items - {key} == items;
      }
      var newSize := without + Cost(key, value);
      quotaException := newSize > quota;
      if !quotaException {
        items, used := items[key := value], newSize;
      }
    }

    /** First touch: every item of the seed, in whatever order the map lists them. */
    method Import(seed: Items) returns (ghost order: seq<(string, string)>)
      requires Valid() && items == map[]
      modifies this
      ensures Valid() && Lists(order, seed) && items == Imported(order, quota)
    {
      order := [];
      var rest := seed;
      while rest != map[]
        invariant Valid() && items == Imported(order, quota)
        invariant forall k :: k in rest ==> k in seed && rest[k] == seed[k]
        invariant forall i :: 0 <= i < |order| ==> order[i].0 !in rest
        invariant Lists(order, seed - rest.Keys)
        decreases |rest|
      {
        var k :| k in rest;
        Another(order, seed, rest, k);
        LastApart(order + [(k, rest[k])]);
        var _ := SetItem(k, rest[k]);
        order := order + [(k, rest[k])];
        rest := rest - {k};
      }
      assert seed - rest.Keys == seed;
    }

    method RemoveItem(key: string)
      requires Valid()
      modifies this
      ensures Valid() && items == old(items) - {key}
    {
      if key in items {
        SizeWithout(items, key);
        items, used := items - {key}, used - Cost(key, items[key]);
      } else {
        assert items - {key} == items;
      }
    }

    method ClearAll()
      requires Valid()
      modifies this
      ensures Valid() && items == map[]
    {
      items, used := map[], 0;
    }
  }

  /** No two origins share an area. */
  ghost predicate Distinct(areas: map<Origin, StorageArea>) {
    forall o, o' :: o in areas && o' in areas && o != o' ==> areas[o] != areas[o']
  }

  /** The registry names the very areas of the restorable origins opened. */
  ghost predicate IsRegistry(registry: map<string, StorageArea>, areas: map<Origin, StorageArea>) {
    forall key :: (key in registry <==> Restorable(key) && Tuple(key) in areas) &&
                  (key in registry ==> registry[key] == areas[Tuple(key)])
  }

  ghost function Contents(areas: map<Origin, StorageArea>): map<Origin, Items>
    reads areas.Values
  {
    map o | o in areas :: areas[o].items
  }

  lemma ContentsGrow(areas: map<Origin, StorageArea>, o: Origin, area: StorageArea)
    ensures Contents(areas[o := area]) == Contents(areas)[o := area.items]
  {
  }

  lemma DistinctGrows(areas: map<Origin, StorageArea>, o: Origin, area: StorageArea)
    requires Distinct(areas) && area !in areas.Values
    ensures Distinct(areas[o := area])
  {
  }

  lemma RegistryGrows(registry: map<string, StorageArea>, areas: map<Origin, StorageArea>, o: Origin, area: StorageArea)
    requires IsRegistry(registry, areas)
    ensures IsRegistry(if Restorable(Key(o)) then registry[Key(o) := area] else registry, areas[o := area])
  {
    assert Restorable(Key(o)) ==> o == Tuple(Key(o));
  }

  /** The one local-storage namespace with the two persistence registries. */
  class LocalStorage {
    const quota: nat
    var areas: map<Origin, StorageArea>
    var registry: map<string, StorageArea>
    var pending: map<string, Items>

    ghost predicate Valid()
      reads this, areas.Values
    {
      && (forall o :: o in areas ==> areas[o].Valid() && areas[o].quota == quota)
      && Distinct(areas)
      && IsRegistry(registry, areas)
    }

    ghost function View(): Session
      reads this, areas.Values
    {
      Session(Contents(areas), pending)
    }

    constructor (quota: nat, seed: map<string, Items>)
      ensures Valid() && this.quota == quota && View() == Start(seed)
    {
      this.quota := quota;
      areas, registry, pending := map[], map[], seed;
    }

    /** storageArea: the first touch of a restorable origin takes its import out of
        the pending map, replays it and registers the area. */
    method Area(o: Origin) returns (area: StorageArea, ghost order: seq<(string, string)>)
      requires Valid()
      modifies this
      ensures Valid() && Enabled(old(View()), Open(o, order))
      ensures View() == Step(old(View()), Open(o, order), quota)
      ensures o in areas && area == areas[o]
      ensures forall o' :: o' in old(areas) ==> o' in areas && areas[o'] == old(areas[o'])
      ensures o !in old(areas) ==> fresh(area)
    {
      order := [];
      if o in areas {
        area := areas[o];
      } else {
        area, order := NewArea(o);
      }
    }

    /** A write goes to the origin's own area alone. */
    method SetItem(o: Origin, key: string, value: string) returns (quotaException: bool)
      requires Valid() && o in areas
      modifies areas[o]
      ensures Valid() && View() == Step(old(View()), Set(o, key, value), quota)
      ensures quotaException <==> Size(old(areas[o].items)[key := value]) > quota
      ensures areas[o].items == if quotaException then old(areas[o].items) else old(areas[o].items)[key := value]
    {
      ghost var was := View();
      quotaException := areas[o].SetItem(key, value);
      assert View().areas == was.areas[o := areas[o].items];
    }

    method RemoveItem(o: Origin, key: string)
      requires Valid() && o in areas
      modifies areas[o]
      ensures Valid() && View() == Step(old(View()), Remove(o, key), quota)
      ensures areas[o].items == old(areas[o].items) - {key}
    {
      ghost var was := View();
      areas[o].RemoveItem(key);
      assert View().areas == was.areas[o := areas[o].items];
    }

    method Clear(o: Origin)
      requires Valid() && o in areas
      modifies areas[o]
      ensures Valid() && View() == Step(old(View()), Event.Clear(o), quota)
      ensures areas[o].items == map[]
    {
      ghost var was := View();
      areas[o].ClearAll();
      assert View().areas == was.areas[o := areas[o].items];
    }

    method NewArea(o: Origin) returns (area: StorageArea, ghost order: seq<(string, string)>)
      requires Valid() && o !in areas
      modifies this
      ensures Valid() && fresh(area) && areas == old(areas)[o := area]
      ensures Contents(areas) == old(Contents(areas))[o := area.items]
      ensures area.items == if Restorable(Key(o)) then Imported(order, quota) else map[]
      ensures pending == if Restorable(Key(o)) then old(pending) - {Key(o)} else old(pending)
      ensures Restorable(Key(o)) ==> Lists(order, Get(old(pending), Key(o)))
    {
      ghost var was := areas;
      var key := Key(o);
      area, order := Hydrated(key);
      DistinctGrows(areas, o, area);
      RegistryGrows(registry, areas, o, area);
      if Restorable(key) {
        pending := pending - {key};
        registry := registry[key := area];
      }
      areas := areas[o := area];
      assert forall o' :: o' in areas ==> areas[o'].Valid() && areas[o'].quota == quota;
      ContentsGrow(was, o, area);
    }

    method Hydrated(key: string) returns (area: StorageArea, ghost order: seq<(string, string)>)
      ensures fresh(area) && area.Valid() && area.quota == quota
      ensures Restorable(key) ==> Lists(order, Get(pending, key)) && area.items == Imported(order, quota)
      ensures !Restorable(key) ==> area.items == map[]
    {
      order := [];
      area := new StorageArea(quota);
      if Restorable(key) {
        order := area.Import(Get(pending, key));
      }
    }

    /** The dump walks the registry, then the imports whose origin is not in it. */
    method BuildPersist() returns (storage: map<string, Items>)
      requires Valid()
      ensures storage == Dump(View())
    {
      var walked: map<string, Items> := map[];
      var todo := registry.Keys;
      while todo != {}
        invariant todo <= registry.Keys && walked.Keys == registry.Keys - todo
        invariant forall key :: key in walked ==> walked[key] == registry[key].items
        decreases |todo|
      {
        var key :| key in todo;
        walked := walked[key := registry[key].items];
        todo := todo - {key};
      }
      storage := AddPending(walked, pending);
      DumpMerges(View(), walked);
    }
  }

  /** The imports of origins not in the registry. */
  method AddPending(walked: map<string, Items>, pending: map<string, Items>) returns (storage: map<string, Items>)
    ensures storage == pending + walked
  {
    storage := walked;
    var todo := pending.Keys;
    while todo != {}
      invariant todo <= pending.Keys && storage == (pending - todo) + walked
      decreases |todo|
    {
      var key :| key in todo;
      if key !in walked {
        storage := storage[key := pending[key]];
      }
      todo := todo - {key};
    }
  }

  lemma Another(order: seq<(string, string)>, seed: Items, rest: Items, k: string)
    requires Lists(order, seed - rest.Keys) && k in rest && k in seed && rest[k] == seed[k]
    requires forall i :: 0 <= i < |order| ==> order[i].0 !in rest
    ensures Lists(order + [(k, rest[k])], seed - (rest - {k}).Keys)
  {
    var order' := order + [(k, rest[k])];
    assert order'[|order|].0 == k;
    forall key | key in seed - (rest - {k}).Keys ensures exists i :: 0 <= i < |order'| && order'[i].0 == key {
      if key != k {
        assert key in seed - rest.Keys;
        var i :| 0 <= i < |order| && order[i].0 == key;
        assert order'[i].0 == key;
      }
    }
  }

  lemma DumpMerges(s: Session, walked: map<string, Items>)
    requires forall key :: key in walked <==> Registered(s, key)
    requires forall key :: key in walked ==> Tuple(key) in s.areas && walked[key] == s.areas[Tuple(key)]
    ensures Dump(s) == s.pending + walked
  {
    forall key | key in walked ensures key in Dump(s) {
      assert Key(Tuple(key)) == key;
    }
  }
}
