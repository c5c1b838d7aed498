/** How far merging goes: no two neighbours in the queue could have been one batch. */
module Neighbours {
  import opened Basics
  import opened Coalescing
  import opened InputQueue
  import opened OpenBatches

  /** The two deltas do not point opposite ways. */
  predicate SameWay(a: real, b: real) { (a <= 0.0 && b <= 0.0) || (a >= 0.0 && b >= 0.0) }

  /** Two batches that could be one: two moves with the same modifiers, or two wheels
      with the same modifiers that go the same way on both axes and have the same
      dominant axis. */
  predicate Alike(a: Item, b: Item) {
    || (a.MoveBatch? && b.MoveBatch? && a.mods == b.mods)
    || (a.WheelBatch? && b.WheelBatch? && a.mods == b.mods && SameWay(a.dx, b.dx) && SameWay(a.dy, b.dy)
        && (Abs(a.dx) > Abs(a.dy) <==> Abs(b.dx) > Abs(b.dy)))
  }

  /** The merge test is exactly that. */
  lemma MergeableIsAlike(open: Item, e: Ev)
    requires !e.Other?
    ensures Mergeable(open, e) <==> Alike(open, Single(e))
  {
  }

  /** What a batch absorbs does not make it like another it was not like. */
  lemma AbsorbingStaysUnlike(other: Item, open: Item, e: Ev)
    requires !e.Other? && Mergeable(open, e) && Alike(other, Absorb(open, e))
    ensures Alike(other, open)
  {
  }

  /** Two tasks whose batches could be one.  Wheels count only while the page consumes
      none: `quiet`. */
  predicate CouldBeOne(heap: map<Ptr, Item>, quiet: bool, t: Task, u: Task) {
    && Positional(t) && Positional(u) && t.p in heap && u.p in heap && Alike(heap[t.p], heap[u.p])
    && (heap[t.p].WheelBatch? ==> quiet)
  }

  ghost predicate Apart(heap: map<Ptr, Item>, quiet: bool, ts: seq<Task>) {
    forall i, j :: 0 <= i < |ts| && 0 <= j < |ts| && j == i + 1 ==> !CouldBeOne(heap, quiet, ts[i], ts[j])
  }

  /** The last task could be one with a batch of this content. */
  predicate LastTakes(heap: map<Ptr, Item>, quiet: bool, ts: seq<Task>, item: Item) {
    && ts != [] && Positional(ts[|ts| - 1]) && ts[|ts| - 1].p in heap && Alike(heap[ts[|ts| - 1].p], item)
    && (item.WheelBatch? ==> quiet)
  }

  /** Live neighbours could not be one, nor could the last of them and the event for
      which a batch is about to be made. */
  ghost predicate NeighboursApart(s: Queue, quiet: bool) {
    && Apart(s.heap, quiet, Live(s))
    && (s.host.HNew? ==> !LastTakes(s.heap, quiet, Pending(s), Single(s.host.e)))
  }

  /** Batches may go, but none is new or changes. */
  ghost predicate Fewer(heap: map<Ptr, Item>, heap': map<Ptr, Item>) {
    forall p :: p in heap' ==> p in heap && heap[p] == heap'[p]
  }

  lemma ApartDrop(heap: map<Ptr, Item>, heap': map<Ptr, Item>, quiet: bool, ts: seq<Task>, ts': seq<Task>, t: Task)
    requires Apart(heap, quiet, ts) && Fewer(heap, heap') && (ts == ts' || ts == [t] + ts' || ts == ts' + [t])
    ensures Apart(heap', quiet, ts')
  {
    var k := if ts == ts' || ts == ts' + [t] then 0 else 1;
    forall i, j | 0 <= i < |ts'| && 0 <= j < |ts'| && j == i + 1 ensures !CouldBeOne(heap', quiet, ts'[i], ts'[j]) {
      assert ts'[i] == ts[i + k] && ts'[j] == ts[j + k];
      assert !CouldBeOne(heap, quiet, ts[i + k], ts[j + k]);
    }
  }

  lemma ApartJoin(heap: map<Ptr, Item>, quiet: bool, ts: seq<Task>, t: Task)
    requires Apart(heap, quiet, ts) && (ts != [] ==> !CouldBeOne(heap, quiet, ts[|ts| - 1], t))
    ensures Apart(heap, quiet, ts + [t])
  {
  }

  /** The newest batch absorbs an event: the others are not touched, and it stays apart
      from the one before it. */
  lemma ApartAbsorb(heap: map<Ptr, Item>, next: Ptr, quiet: bool, front: seq<Task>, t: Task, e: Ev)
    requires OwnsBatches(heap, next, front + [t]) && Positional(t) && t.p in heap && !e.Other? && Mergeable(heap[t.p], e)
    requires Apart(heap, quiet, front + [t])
    ensures Apart(heap[t.p := Absorb(heap[t.p], e)], quiet, front + [t])
  {
    var ts, heap' := front + [t], heap[t.p := Absorb(heap[t.p], e)];
    forall i, j | 0 <= i < |ts| && 0 <= j < |ts| && j == i + 1 ensures !CouldBeOne(heap', quiet, ts[i], ts[j]) {
      assert !CouldBeOne(heap, quiet, ts[i], ts[j]);
      FrontApart(heap, next, front, t, i);
      if j < |front| {
        FrontApart(heap, next, front, t, j);
      } else if CouldBeOne(heap', quiet, ts[i], t) {
        AbsorbingStaysUnlike(heap[ts[i].p], heap[t.p], e);
      }
    }
  }

  lemma FrontApart(heap: map<Ptr, Item>, next: Ptr, front: seq<Task>, t: Task, i: nat)
    requires OwnsBatches(heap, next, front + [t]) && Positional(t) && i < |front|
    ensures Positional(front[i]) ==> front[i].p != t.p
  {
    var ts := front + [t];
    assert multiset(ts) == multiset(front) + multiset{t};
    assert ts[i] == front[i] && front[i] in multiset(front) && multiset(ts)[t] <= 1;
    assert t == ts[|front|] && front[i] in ts && t in ts;
    if Positional(front[i]) { SoleOwner(heap, next, ts, front[i], t); }
  }

  /** A step that takes at most one task off either end and starts no new batch. */
  lemma DropApart(s: Queue, quiet: bool, s': Queue, t: Task)
    requires NeighboursApart(s, quiet) && Fewer(s.heap, s'.heap)
    requires Live(s) == Live(s') || Live(s) == [t] + Live(s') || Live(s) == Live(s') + [t]
    requires s'.host.HNew? ==> s'.host == s.host
    requires s'.host.HNew? ==> Pending(s) == Pending(s') || Pending(s) == [t] + Pending(s')
    ensures NeighboursApart(s', quiet)
  {
    ApartDrop(s.heap, s'.heap, quiet, Live(s), Live(s'), t);
  }

  lemma SameApart(s: Queue, quiet: bool, s': Queue)
    requires NeighboursApart(s, quiet) && s'.heap == s.heap && Pending(s') == Pending(s) && Posting(s'.host) == Posting(s.host)
    requires s'.host.HNew? ==> s'.host == s.host
    ensures NeighboursApart(s', quiet)
  {
  }

  /** A task without a batch is offered. */
  lemma OfferApart(s: Queue, quiet: bool, s': Queue, t: Task)
    requires NeighboursApart(s, quiet) && (s.host.HIdle? || s.host.HNew?) && s'.host == HPost(t) && !Positional(t)
    requires s'.engine == s.engine && s'.queue == s.queue && s'.heap == s.heap
    ensures NeighboursApart(s', quiet)
  {
    OfferTasks(s, s', t);
    ApartJoin(s.heap, quiet, Live(s), t);
  }

  lemma AllocateApart(s: Queue, quiet: bool, e: Ev)
    requires Shape(s) && OpenExact(s) && NeighboursApart(s, quiet) && s.host.HIdle? && Outcome(s, e) == Allocates && !e.Other?
    requires quiet ==> !s.consumed
    ensures NeighboursApart(s.(host := HNew(e)), quiet)
  {
    AllocateShape(s, e);
    JoinsIsOutcome(s, e);
    IdleHost(s);
    if LastTakes(s.heap, quiet, Pending(s), Single(e)) {
      var t := Pending(s)[|Pending(s)| - 1];
      MergeableIsAlike(s.heap[t.p], e);
      NewestIsOwned(s, t);
    }
  }

  lemma MergeApart(s: Queue, quiet: bool, e: Ev, p: Ptr)
    requires Shape(s) && NeighboursApart(s, quiet) && s.host.HIdle? && !e.Other?
    requires (if e.Wheel? then s.openWheel else s.openMove) == Some(p) && p in s.heap && Mergeable(s.heap[p], e)
    ensures NeighboursApart(MergeInto(s, e, p), quiet)
  {
    var t := if e.Wheel? then TWheel(p) else TMove(p);
    var front := NewestLast(s, t);
    IdleHost(s);
    MergeShape(s, e, p);
    IdleHost(MergeInto(s, e, p));
    ApartAbsorb(s.heap, s.next, quiet, front, t, e);
  }

  lemma InputApart(s: Queue, quiet: bool, e: Ev, s': Queue)
    requires Shape(s) && OpenExact(s) && NeighboursApart(s, quiet) && s.host.HIdle? && s' == TestAndMerge(s, e)
    requires quiet ==> !s.consumed
    ensures NeighboursApart(s', quiet)
  {
    InputOutcome(s, e);
    match Outcome(s, e)
    case Offered(id) => OfferApart(s, quiet, s', TOther(id));
    case Allocates => AllocateApart(s, quiet, e);
    case MergedInto(p) => MergeApart(s, quiet, e, p);
  }

  /** The batch just allocated belongs to no live task. */
  lemma FreshApart(heap: map<Ptr, Item>, next: Ptr, quiet: bool, live: seq<Task>, item: Item)
    requires OwnsBatches(heap, next, live) && Apart(heap, quiet, live)
    ensures Apart(heap[next := item], quiet, live)
  {
    forall i, j | 0 <= i < |live| && 0 <= j < |live| && j == i + 1
      ensures !CouldBeOne(heap[next := item], quiet, live[i], live[j])
    {
      assert Owned(heap, next, live[i]) && Owned(heap, next, live[j]);
      assert !CouldBeOne(heap, quiet, live[i], live[j]);
    }
  }

  lemma PublishApart(s: Queue, quiet: bool, e: Ev, s': Queue)
    requires Shape(s) && NeighboursApart(s, quiet) && s.host == HNew(e) && s' == Publish(s, e)
    ensures NeighboursApart(s', quiet)
  {
    var t := if e.Wheel? then TWheel(s.next) else TMove(s.next);
    FreshApart(s.heap, s.next, quiet, Live(s), Single(e));
    OfferTasks(s, s', t);
    if Live(s) != [] {
      assert Owned(s.heap, s.next, Live(s)[|Live(s)| - 1]);
    }
    ApartJoin(s'.heap, quiet, Live(s), t);
  }

  lemma AcceptApart(s: Queue, quiet: bool, t: Task, s': Queue)
    requires Shape(s) && NeighboursApart(s, quiet) && s.host == HPost(t) && s' == Accept(s, t)
    ensures NeighboursApart(s', quiet)
  {
    OfferIsOwned(s, t);
    Accepting(s, s', t);
  }

  lemma RefuseApart(s: Queue, quiet: bool, t: Task, s': Queue)
    requires Shape(s) && NeighboursApart(s, quiet) && s.host == HPost(t) && s' == Refuse(s, t)
    ensures NeighboursApart(s', quiet)
  {
    RefuseShape(s, t);
    RefuseMoves(s, s', t);
    SameApart(s, quiet, s');
  }

  lemma EnqueueApart(s: Queue, quiet: bool, t: Task)
    requires Shape(s) && NeighboursApart(s, quiet) && s.host == HSealed(t)
    ensures NeighboursApart(Enqueue(s, t), quiet)
  {
    EnqueueShape(s, t);
    SameApart(s, quiet, Enqueue(s, t));
  }

  lemma UndoApart(s: Queue, quiet: bool, t: Task, s': Queue)
    requires Shape(s) && NeighboursApart(s, quiet) && s.host == HFailed(t) && s' == Undo(s, t)
    ensures NeighboursApart(s', quiet)
  {
    OfferIsOwned(s, t);
    UndoShape(s, t);
    OfferGone(s, quiet, s', t);
  }

  lemma OfferGone(s: Queue, quiet: bool, s': Queue, t: Task)
    requires NeighboursApart(s, quiet) && Live(s) == Pending(s) + [t] && Pending(s') == Pending(s) && s'.host.HIdle?
    requires s'.heap == Without(s.heap, t)
    ensures NeighboursApart(s', quiet)
  {
    IdleHost(s');
    DropApart(s, quiet, s', t);
  }

  lemma HostApart(s: Queue, quiet: bool, s': Queue)
    requires Shape(s) && NeighboursApart(s, quiet) && s' == HostStep(s)
    ensures NeighboursApart(s', quiet)
  {
    match s.host
    case HIdle =>
    case HNew(e) => assert s' == Publish(s, e); PublishApart(s, quiet, e, s');
    case HPost(t) =>
      if s.ready {
        assert s' == Accept(s, t);
        AcceptApart(s, quiet, t, s');
      } else {
        assert s' == Refuse(s, t);
        RefuseApart(s, quiet, t, s');
      }
    case HSealed(t) => assert s' == Enqueue(s, t); EnqueueApart(s, quiet, t);
    case HFailed(t) => assert s' == Undo(s, t); UndoApart(s, quiet, t, s');
  }

  lemma RetireApart(s: Queue, quiet: bool, s': Queue, t: Task)
    requires NeighboursApart(s, quiet) && EngineTasks(s.engine) == [t] && Retires(s, s', t)
    ensures NeighboursApart(s', quiet)
  {
    BusyEngine(s, t);
    FreeEngine(s');
    DropApart(s, quiet, s', t);
  }

  lemma CloseApartFrom(s: Queue, quiet: bool, t: Task)
    requires Shape(s) && NeighboursApart(s, quiet) && AtClose(s, t)
    ensures NeighboursApart(Close(s, t), quiet)
  {
    CloseSafe(s, t);
    CloseRetires(s, t);
    RetireApart(s, quiet, Close(s, t), t);
  }

  lemma PopApart(s: Queue, quiet: bool)
    requires Shape(s) && NeighboursApart(s, quiet) && s.engine.EIdle? && s.queue != []
    ensures NeighboursApart(Pop(s), quiet)
  {
    PopShape(s);
    SameApart(s, quiet, Pop(s));
  }

  lemma CountApart(s: Queue, quiet: bool, p: Ptr)
    requires Shape(s) && NeighboursApart(s, quiet) && s.engine == EPopped(TWheel(p))
    ensures NeighboursApart(Count(s, p), quiet)
  {
    CountShape(s, p);
    SameApart(s, quiet, Count(s, p));
  }

  lemma ApplyApart(s: Queue, quiet: bool, item: Item, prevented: bool)
    requires Shape(s) && NeighboursApart(s, quiet) && s.engine == EClosed(item)
    ensures NeighboursApart(ApplyItem(s, item, prevented), quiet)
  {
    ApplyShape(s, item, prevented);
    SameApart(s, quiet, ApplyItem(s, item, prevented));
  }

  lemma EngineApart(s: Queue, quiet: bool, prevented: bool)
    requires Shape(s) && NeighboursApart(s, quiet)
    ensures NeighboursApart(EngineStep(s, prevented), quiet)
  {
    match s.engine
    case EIdle => if s.queue != [] { PopApart(s, quiet); }
    case EPopped(t) =>
      if t.TWheel? {
        CountApart(s, quiet, t.p);
      } else if t.TMove? {
        CloseApartFrom(s, quiet, t);
      } else {
        RetireApart(s, quiet, Finish(s, t), t);
      }
    case ECounted(p) => CloseApartFrom(s, quiet, TWheel(p));
    case EClosed(item) => ApplyApart(s, quiet, item, prevented);
  }

  lemma {:induction false} StepApart(s: Queue, quiet: bool, a: Action, s': Queue)
    requires Shape(s) && OpenExact(s) && NeighboursApart(s, quiet) && s' == Step(s, a)
    requires quiet ==> !s.consumed
    ensures NeighboursApart(s', quiet)
  {
    match a
    case HostInput(e) => if s.host.HIdle? { InputApart(s, quiet, e, s'); }
    case HostCadence(c) => if s.host.HIdle? && c !in s.queued { OfferApart(s, quiet, s', TCadence(c)); }
    case HostProceeds => HostApart(s, quiet, s');
    case EngineUp => UpShape(s); SameApart(s, quiet, s');
    case EngineProceeds(prevented) => EngineApart(s, quiet, prevented);
  }

  /** The page consumes no wheel of the run. */
  ghost predicate NoneConsumed(acts: seq<Action>) {
    forall a :: a in acts && a.EngineProceeds? ==> !a.prevented
  }

  lemma {:induction false} NeverConsumed(acts: seq<Action>)
    requires NoneConsumed(acts)
    ensures !LastAnswer(acts)
    decreases |acts|
  {
    if acts != [] {
      assert acts[|acts| - 1] in acts;
      NeverConsumed(acts[..|acts| - 1]);
    }
  }

  /** Merging is as far as it goes: in any run, at any moment, two tasks that stand next
      to each other in the queue could not be one.  Two moves differ in modifiers; two
      wheels, as long as the page consumes none, in modifiers, direction or dominant
      axis.  However fast the page sends input, the queue grows only when it changes. */
  lemma {:induction false} NeighboursDiffer(acts: seq<Action>, quiet: bool)
    requires quiet ==> NoneConsumed(acts)
    ensures NeighboursApart(Run(acts), quiet)
    decreases |acts|
  {
    if acts != [] {
      var most, a := acts[..|acts| - 1], acts[|acts| - 1];
      NeighboursDiffer(most, quiet);
      RunKeeps(most);
      RunOpen(most);
      ConsumedIsLastAnswer(most);
      if quiet { NeverConsumed(most); }
      StepApart(Run(most), quiet, a, Run(acts));
    }
  }
}
