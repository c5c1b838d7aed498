/** What a page reads back from localStorage, item by item: the last write that fits
    wins, across first touches and restarts. */
module Lookups {
  import opened Basics
  import opened Storage

  function Lookup(m: Items, k: string): Option<string> { if k in m then Some(m[k]) else None }

  // ----- one area ------------------------------------------------------------------

  /** A write that fits sets its key and no other; one that does not changes nothing. */
  lemma WriteSetsItsKey(m: Items, o: Origin, key: string, value: string, quota: nat, k: string)
    ensures var m' := Changed(m, Set(o, key, value), quota);
            if Size(m[key := value]) > quota then m' == m
            else Lookup(m', k) == if k == key then Some(value) else Lookup(m, k)
  {
  }

  lemma RemoveTakesItsKey(m: Items, o: Origin, key: string, quota: nat, k: string)
    ensures Lookup(Changed(m, Remove(o, key), quota), k) == if k == key then None else Lookup(m, k)
  {
  }

  lemma ClearTakesAll(m: Items, o: Origin, quota: nat, k: string)
    ensures Lookup(Changed(m, Event.Clear(o), quota), k) == None
  {
  }

  /** The size a write is judged by: what stays, and the new item. */
  lemma FitsExactlyWhen(m: Items, key: string, value: string, quota: nat)
    ensures Size(m[key := value]) <= quota <==> Size(m - {key}) + 2 * (|key| + |value|) <= quota
  {
    SizeWith(m, key, value);
  }

  // ----- whole runs -------------------------------------------------------------------

  /** What the store has under k for one slot after the events: the value of the last Set
      of k that fitted, unless a Remove of k or a Clear came after it; what was there
      at the start, if none of these came at all. */
  ghost function Last(store: map<Slot, Items>, es: seq<Event>, quota: nat, slot: Slot, k: string): Option<string>
    decreases |es|
  {
    if es == [] then Lookup(Get(store, slot), k)
    else
      var before, e := es[..|es| - 1], es[|es| - 1];
      if SlotOf(e.o) != slot then Last(store, before, quota, slot, k)
      else
        match e
        case Open(_, _) => Last(store, before, quota, slot, k)
        case Set(_, key, value) =>
          if key == k && Size(Get(EagerRun(store, before, quota), slot)[key := value]) <= quota then Some(value)
          else Last(store, before, quota, slot, k)
        case Remove(_, key) => if key == k then None else Last(store, before, quota, slot, k)
        case Clear(_) => None
  }

  lemma {:induction false} EagerHasLast(store: map<Slot, Items>, es: seq<Event>, quota: nat, slot: Slot, k: string)
    ensures Lookup(Get(EagerRun(store, es, quota), slot), k) == Last(store, es, quota, slot, k)
    decreases |es|
  {
    if es != [] {
      var before, e := es[..|es| - 1], es[|es| - 1];
      EagerHasLast(store, before, quota, slot, k);
      StepHasLast(EagerRun(store, before, quota), e, quota, slot, k);
    }
  }

  /** One event of the eager store, in lookups. */
  lemma StepHasLast(store: map<Slot, Items>, e: Event, quota: nat, slot: Slot, k: string)
    ensures var m, m' := Get(store, slot), Get(EagerStep(store, e, quota), slot);
            Lookup(m', k) ==
              if SlotOf(e.o) != slot then Lookup(m, k)
              else match e
                   case Open(_, _) => Lookup(m, k)
                   case Set(_, key, value) => if key == k && Size(m[key := value]) <= quota then Some(value) else Lookup(m, k)
                   case Remove(_, key) => if key == k then None else Lookup(m, k)
                   case Clear(_) => None
  {
  }

  /** Reading back: in any run of first touches, writes, removals and clears, an open
      area has under every key the last fitting write since the last removal or clear,
      or else the seed's value; and so does the dump of every origin. */
  lemma {:induction false} LastWriteWins(seed: map<string, Items>, es: seq<Event>, quota: nat, o: Origin, k: string)
    requires AllFit(seed, quota) && Runs(seed, es, quota)
    ensures var s := Run(seed, es, quota);
            && (o in s.areas ==> Lookup(s.areas[o], k) == Last(EagerStart(seed), es, quota, SlotOf(o), k))
            && (Restorable(Key(o)) ==> Lookup(Get(Dump(s), Key(o)), k) == Last(EagerStart(seed), es, quota, SlotOf(o), k))
  {
    LazyIsEager(seed, es, quota);
    EagerHasLast(EagerStart(seed), es, quota, SlotOf(o), k);
  }

  // ----- across restarts ------------------------------------------------------------------

  /** The events of all the sessions, one after another. */
  function Together(sessions: seq<seq<Event>>): seq<Event>
    decreases |sessions|
  {
    if sessions == [] then [] else Together(sessions[..|sessions| - 1]) + sessions[|sessions| - 1]
  }

  lemma {:induction false} EagerConcat(store: map<Slot, Items>, a: seq<Event>, b: seq<Event>, quota: nat)
    ensures EagerRun(store, a + b, quota) == EagerRun(EagerRun(store, a, quota), b, quota)
    decreases |b|
  {
    if b == [] {
      assert a + b == a;
    } else {
      EagerConcat(store, a, b[..|b| - 1], quota);
      assert (a + b)[..|a + b| - 1] == a + b[..|b| - 1];
    }
  }

  lemma {:induction false} EagerTogether(store: map<Slot, Items>, sessions: seq<seq<Event>>, quota: nat)
    ensures EagerSessions(store, sessions, quota) == EagerRun(store, Together(sessions), quota)
    decreases |sessions|
  {
    if sessions != [] {
      EagerTogether(store, sessions[..|sessions| - 1], quota);
      EagerConcat(store, Together(sessions[..|sessions| - 1]), sessions[|sessions| - 1], quota);
    }
  }

  /** And across any number of restarts: the last dump has, for every restorable origin
      and key, the last fitting write of all the sessions since the last removal or
      clear, or else the first seed's value. */
  lemma {:induction false} LastWriteSurvives(seed: map<string, Items>, sessions: seq<seq<Event>>, quota: nat,
                                             key: string, k: string)
    requires AllFit(seed, quota) && SessionsRun(seed, sessions, quota)
    ensures Lookup(Get(DumpAfter(seed, sessions, quota), key), k) ==
            Last(EagerStart(seed), Together(sessions), quota, Shared(key), k)
  {
    SessionsAreOne(seed, sessions, quota);
    StartHolds(DumpAfter(seed, sessions, quota));
    EagerTogether(EagerStart(seed), sessions, quota);
    EagerHasLast(EagerStart(seed), Together(sessions), quota, Shared(key), k);
  }
}
