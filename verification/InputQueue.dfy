/** Positional-input coalescing on the proxy link: the host thread and the engine
    thread share heap-allocated batches, two open-batch pointers and one FIFO
    task queue.  A run interleaves the steps of the two threads in any order.  A
    step is one critical section, one atomic access or one post of the code, with
    three exceptions that join accesses no other thread can tell apart: publishing
    a wheel batch includes the increment of the counter (its task is not posted
    yet, so nobody decrements it in between), undoing a refused post includes the
    decrement and the delete, and closing a batch includes its delete, which the
    code does after unlocking, when no pointer leads to the batch any more. */
module InputQueue {
  import opened Basics
  import opened Coalescing

  type Ptr = nat

  datatype Cadence = TickTask | PumpTask | ReadbackTask

  /** A posted task.  TOther is any task not listed. */
  datatype Task = TWheel(p: Ptr) | TMove(p: Ptr) | TOther(id: nat) | TCadence(c: Cadence)

  /** Where the host thread is inside an export. */
  datatype HostPc =
    | HIdle
    | HNew(e: Ev)         // the merge test failed; a batch will be allocated
    | HPost(t: Task)      // published (when positional); about to be posted
    | HSealed(t: Task)    // sealed; about to enter the queue
    | HFailed(t: Task)    // the engine is not up; about to be undone

  /** Where the engine thread is. */
  datatype EnginePc =
    | EIdle
    | EPopped(t: Task)    // taken from the queue, nothing done yet
    | ECounted(p: Ptr)    // a wheel task after its counter decrement
    | EClosed(item: Item) // batch closed, copied out and freed; about to apply

  datatype Queue = Queue(
    heap: map<Ptr, Item>, next: Ptr,
    openWheel: Option<Ptr>, openMove: Option<Ptr>,
    queue: seq<Task>, wheelQueued: int, queued: set<Cadence>,
    ready: bool, consumed: bool,
    host: HostPc, engine: EnginePc,
    sent: seq<Ev>, applied: seq<Item>, fault: bool)

  datatype Action =
    | HostInput(e: Ev)         // bib_mouse_move, bib_wheel or a discrete export is called
    | HostCadence(c: Cadence)  // bib_tick, bib_pump, bib_request_readback
    | HostProceeds
    | EngineUp                 // main() has started: tasks are accepted
    | EngineProceeds(prevented: bool)

  /** bibSealPendingInput: close every batch but the kind being posted. */
  function Seal(s: Queue, t: Task): Queue {
    s.(openWheel := if t.TWheel? then s.openWheel else None, openMove := if t.TMove? then s.openMove else None)
  }

  /** The first critical section of bib_wheel and bib_mouse_move: merge into the
      open batch, or decide to allocate one. */
  function TestAndMerge(s: Queue, e: Ev): Queue {
    match e
    case Other(id) => s.(host := HPost(TOther(id)))
    case _ =>
      var open := if e.Wheel? then s.openWheel else s.openMove;
      if open.None? then s.(host := HNew(e))
      else if open.value !in s.heap then s.(fault := true)
      else if Mergeable(s.heap[open.value], e) && (e.Wheel? ==> !s.consumed) then MergeInto(s, e, open.value)
      else s.(host := HNew(e))
  }

  function MergeInto(s: Queue, e: Ev, p: Ptr): Queue
    requires p in s.heap && Mergeable(s.heap[p], e)
  {
    s.(heap := s.heap[p := Absorb(s.heap[p], e)], sent := s.sent + [e])
  }

  /** The new batch is published as the open one before its task is posted. */
  function Publish(s: Queue, e: Ev): Queue { if e.Wheel? then PublishWheel(s, e) else PublishMove(s, e) }

  function PublishWheel(s: Queue, e: Ev): Queue {
    s.(heap := s.heap[s.next := Single(e)], next := s.next + 1,
       openWheel := Some(s.next), wheelQueued := s.wheelQueued + 1, host := HPost(TWheel(s.next)))
  }

  function PublishMove(s: Queue, e: Ev): Queue {
    s.(heap := s.heap[s.next := Single(e)], next := s.next + 1, openMove := Some(s.next), host := HPost(TMove(s.next)))
  }

  /** bibProxyToEngine once the engine is up: seal.  From here the event counts
      as sent. */
  function Accept(s: Queue, t: Task): Queue {
    Seal(s, t).(host := HSealed(t), sent := s.sent + Carried(s.heap, t), fault := s.fault || (Positional(t) && t.p !in s.heap))
  }

  /** The event a task posts. */
  function Carried(heap: map<Ptr, Item>, t: Task): seq<Ev> {
    match t
    case TOther(id) => [Other(id)]
    case TCadence(_) => []
    case _ => if t.p in heap then [Unbatch(heap[t.p])] else []
  }

  /** bibProxyToEngine before that: refuse. */
  function Refuse(s: Queue, t: Task): Queue { s.(host := HFailed(t)) }

  predicate Positional(t: Task) { t.TWheel? || t.TMove? }

  /** The event a batch of one came from. */
  function Unbatch(i: Item): Ev {
    match i
    case WheelBatch(x, y, dx, dy, mods, _) => Wheel(x, y, dx, dy, mods)
    case MoveBatch(x, y, mods) => Move(x, y, mods)
    case Discrete(id) => Other(id)
  }

  /** The batches once task t and its batch are gone. */
  function Without(heap: map<Ptr, Item>, t: Task): map<Ptr, Item> {
    if Positional(t) then heap - {t.p} else heap
  }

  /** A refused post is undone: the pointer unpublished, the batch deleted, the
      flag lowered. */
  function Undo(s: Queue, t: Task): Queue {
    s.(host := HIdle,
       heap := Without(s.heap, t),
       openWheel := if t.TWheel? && s.openWheel == Some(t.p) then None else s.openWheel,
       openMove := if t.TMove? && s.openMove == Some(t.p) then None else s.openMove,
       wheelQueued := s.wheelQueued - (if t.TWheel? then 1 else 0),
       queued := if t.TCadence? then s.queued - {t.c} else s.queued)
  }

  /** The drain's critical section: close the batch, copy it, delete it. */
  function Close(s: Queue, t: Task): Queue
    requires Positional(t)
  {
    var s' := s.(openWheel := if t.TWheel? && s.openWheel == Some(t.p) then None else s.openWheel,
                 openMove := if t.TMove? && s.openMove == Some(t.p) then None else s.openMove,
                 heap := Without(s.heap, t));
    if t.p !in s.heap then s'.(fault := true, engine := EIdle) else s'.(engine := EClosed(s.heap[t.p]))
  }

  /** bib_tick and its like: at most one of each may be pending. */
  function OfferCadence(s: Queue, c: Cadence): Queue { s.(queued := s.queued + {c}, host := HPost(TCadence(c))) }

  function Enqueue(s: Queue, t: Task): Queue { s.(queue := s.queue + [t], host := HIdle) }

  function Pop(s: Queue): Queue
    requires s.queue != []
  {
    s.(engine := EPopped(s.queue[0]), queue := s.queue[1..])
  }

  /** bibRunWheel's first act. */
  function Count(s: Queue, p: Ptr): Queue { s.(wheelQueued := s.wheelQueued - 1, engine := ECounted(p)) }

  /** A task without a batch runs; a cadence task first lowers its flag. */
  function Finish(s: Queue, t: Task): Queue {
    s.(engine := EIdle,
       queued := if t.TCadence? then s.queued - {t.c} else s.queued,
       applied := if t.TOther? then s.applied + [Discrete(t.id)] else s.applied)
  }

  /** The batch's event is handled; a wheel records whether the page consumed it. */
  function ApplyItem(s: Queue, item: Item, prevented: bool): Queue {
    s.(applied := s.applied + [item], engine := EIdle, consumed := if item.WheelBatch? then prevented else s.consumed)
  }

  function HostStep(s: Queue): Queue {
    match s.host
    case HIdle => s
    case HNew(e) => Publish(s, e)
    case HPost(t) => if s.ready then Accept(s, t) else Refuse(s, t)
    case HSealed(t) => Enqueue(s, t)
    case HFailed(t) => Undo(s, t)
  }

  function EngineStep(s: Queue, prevented: bool): Queue {
    match s.engine
    case EIdle => if s.queue == [] then s else Pop(s)
    case EPopped(t) => if t.TWheel? then Count(s, t.p) else if t.TMove? then Close(s, t) else Finish(s, t)
    case ECounted(p) => Close(s, TWheel(p))
    case EClosed(item) => ApplyItem(s, item, prevented)
  }

  function Step(s: Queue, a: Action): Queue {
    match a
    case HostInput(e) => if s.host.HIdle? then TestAndMerge(s, e) else s
    case HostCadence(c) => if s.host.HIdle? && c !in s.queued then OfferCadence(s, c) else s
    case HostProceeds => HostStep(s)
    case EngineUp => s.(ready := true)
    case EngineProceeds(prevented) => EngineStep(s, prevented)
  }

  const INIT: Queue := Queue(map[], 0, None, None, [], 0, {}, false, false, HIdle, EIdle, [], [], false)

  function Run(acts: seq<Action>): Queue
    decreases |acts|
  {
    if acts == [] then INIT else Step(Run(acts[..|acts| - 1]), acts[|acts| - 1])
  }

  // ----- the tasks in order -----------------------------------------------------

  function EngineTasks(e: EnginePc): seq<Task> {
    match e
    case EPopped(t) => [t]
    case ECounted(p) => [TWheel(p)]
    case _ => []
  }

  function Accepted(h: HostPc): seq<Task> {
    if h.HSealed? then [h.t] else []
  }

  function Posting(h: HostPc): seq<Task> {
    if h.HPost? || h.HFailed? then [h.t] else []
  }

  /** Accepted tasks not finished with, oldest first. */
  function Pending(s: Queue): seq<Task> { EngineTasks(s.engine) + s.queue + Accepted(s.host) }

  /** And the one the host is still offering. */
  function Live(s: Queue): seq<Task> { Pending(s) + Posting(s.host) }

  /** What a pending task will apply. */
  function Content(heap: map<Ptr, Item>, t: Task): seq<Item> {
    match t
    case TOther(id) => [Discrete(id)]
    case TCadence(_) => []
    case _ => if t.p in heap then [heap[t.p]] else []
  }

  function Contents(heap: map<Ptr, Item>, ts: seq<Task>): seq<Item>
    decreases |ts|
  {
    if ts == [] then [] else Contents(heap, ts[..|ts| - 1]) + Content(heap, ts[|ts| - 1])
  }

  /** Everything applied, about to be applied, or still queued, in order. */
  function Output(s: Queue): seq<Item> {
    s.applied + (if s.engine.EClosed? then [s.engine.item] else []) + Contents(s.heap, Pending(s))
  }

  function Wheels(ts: seq<Task>): nat
    decreases |ts|
  {
    if ts == [] then 0 else Wheels(ts[..|ts| - 1]) + if ts[|ts| - 1].TWheel? then 1 else 0
  }

  // ----- the invariant ------------------------------------------------------------

  ghost predicate Owned(heap: map<Ptr, Item>, next: Ptr, t: Task) {
    match t
    case TWheel(p) => p < next && p in heap && heap[p].WheelBatch?
    case TMove(p) => p < next && p in heap && heap[p].MoveBatch?
    case _ => true
  }

  /** Each live positional task has a batch of its kind, and no two share one. */
  ghost predicate OwnsBatches(heap: map<Ptr, Item>, next: Ptr, live: seq<Task>) {
    && (forall t :: t in live ==> Owned(heap, next, t))
    && (forall t: Task :: t.TWheel? || t.TMove? ==> multiset(live)[t] <= 1)
  }

  /** The newest live task: the one on offer, or the last accepted. */
  ghost predicate Newest(pending: seq<Task>, posting: seq<Task>, t: Task) {
    posting == [t] || (pending != [] && pending[|pending| - 1] == t)
  }

  /** An open batch is always the newest live task. */
  ghost predicate OpenIsNewest(openWheel: Option<Ptr>, openMove: Option<Ptr>, pending: seq<Task>, posting: seq<Task>) {
    && (openWheel.Some? ==> Newest(pending, posting, TWheel(openWheel.value)))
    && (openMove.Some? ==> Newest(pending, posting, TMove(openMove.value)))
  }

  /** A batch on offer is the open one, and still holds just the event that made
      it. */
  ghost predicate OfferIsOpen(s: Queue) {
    match s.host
    case HNew(e) => !e.Other?
    case HPost(t) =>
      && (t.TWheel? ==> s.openWheel == Some(t.p))
      && (t.TMove? ==> s.openMove == Some(t.p))
      && (Positional(t) && t.p in s.heap ==> s.heap[t.p] == Single(Unbatch(s.heap[t.p])))
    case _ => true
  }

  /** The counter counts the wheel tasks, each flag its one task. */
  ghost predicate Tallies(wheelQueued: int, queued: set<Cadence>, live: seq<Task>) {
    && wheelQueued == Wheels(live)
    && (forall c :: multiset(live)[TCadence(c)] == if c in queued then 1 else 0)
  }

  function Counted(s: Queue): int { s.wheelQueued + if s.engine.ECounted? then 1 else 0 }

  /** The shape of the shared state. */
  ghost predicate Shape(s: Queue) {
    && !s.fault
    && OfferIsOpen(s)
    && OwnsBatches(s.heap, s.next, Live(s))
    && OpenIsNewest(s.openWheel, s.openMove, Pending(s), Posting(s.host))
    && Tallies(Counted(s), s.queued, Live(s))
    && (!s.ready ==> Pending(s) == [])
  }

  // ----- sequences -------------------------------------------------------------------

  lemma {:induction false} ContentsConcat(heap: map<Ptr, Item>, a: seq<Task>, b: seq<Task>)
    ensures Contents(heap, a + b) == Contents(heap, a) + Contents(heap, b)
    decreases |b|
  {
    if b == [] {
      assert a + b == a;
    } else {
      var most, last := b[..|b| - 1], b[|b| - 1];
      ContentsConcat(heap, a, most);
      assert (a + b)[..|a + b| - 1] == a + most;
      Regroup(Contents(heap, a), Contents(heap, most), Content(heap, last));
    }
  }

  lemma {:induction false} ContentsOne(heap: map<Ptr, Item>, t: Task)
    ensures Contents(heap, [t]) == Content(heap, t)
  {
    assert [t][..0] == [];
  }

  lemma {:induction false} ContentsJoin(heap: map<Ptr, Item>, ts: seq<Task>, t: Task)
    ensures Contents(heap, ts + [t]) == Contents(heap, ts) + Content(heap, t)
  {
    ContentsConcat(heap, ts, [t]);
    ContentsOne(heap, t);
  }

  lemma {:induction false} ContentsLeave(heap: map<Ptr, Item>, t: Task, ts: seq<Task>)
    ensures Contents(heap, [t] + ts) == Content(heap, t) + Contents(heap, ts)
  {
    ContentsConcat(heap, [t], ts);
    ContentsOne(heap, t);
  }

  lemma {:induction false} ContentsFrame(h: map<Ptr, Item>, h': map<Ptr, Item>, ts: seq<Task>)
    requires forall t :: t in ts ==> Content(h, t) == Content(h', t)
    ensures Contents(h, ts) == Contents(h', ts)
    decreases |ts|
  {
    if ts != [] {
      assert ts == ts[..|ts| - 1] + [ts[|ts| - 1]];
      ContentsFrame(h, h', ts[..|ts| - 1]);
    }
  }

  lemma {:induction false} WheelsConcat(a: seq<Task>, b: seq<Task>)
    ensures Wheels(a + b) == Wheels(a) + Wheels(b)
    decreases |b|
  {
    if b == [] {
      assert a + b == a;
    } else {
      WheelsConcat(a, b[..|b| - 1]);
      assert (a + b)[..|a + b| - 1] == a + b[..|b| - 1];
    }
  }

  lemma WheelsOne(t: Task)
    ensures Wheels([t]) == if t.TWheel? then 1 else 0
  {
    assert [t][..0] == [];
  }

  lemma SoleOwner(heap: map<Ptr, Item>, next: Ptr, live: seq<Task>, t: Task, u: Task)
    requires OwnsBatches(heap, next, live) && t in live && u in live && t != u && Positional(t) && Positional(u)
    ensures t.p != u.p
  {
    assert Owned(heap, next, t) && Owned(heap, next, u);
  }

  lemma OwnsDrop(heap: map<Ptr, Item>, next: Ptr, live: seq<Task>, live': seq<Task>, t: Task)
    requires OwnsBatches(heap, next, live) && multiset(live) == multiset(live') + multiset{t}
    ensures OwnsBatches(Without(heap, t), next, live')
    ensures forall u :: u in live' ==> Content(heap, u) == Content(Without(heap, t), u)
    ensures Positional(t) ==> t.p in heap && t !in live'
  {
    assert t in multiset(live);
    assert Owned(heap, next, t);
    forall u | u in live'
      ensures Owned(Without(heap, t), next, u) && Content(heap, u) == Content(Without(heap, t), u)
    {
      assert u in multiset(live');
      assert u in multiset(live);
      assert Owned(heap, next, u);
      if Positional(t) && Positional(u) {
        assert multiset(live)[t] <= 1;
        SoleOwner(heap, next, live, t, u);
      }
    }
    forall u: Task | u.TWheel? || u.TMove? ensures multiset(live')[u] <= 1 {
      assert multiset(live)[u] <= 1;
    }
  }

  lemma OwnsJoin(heap: map<Ptr, Item>, next: Ptr, live: seq<Task>, t: Task)
    requires OwnsBatches(heap, next, live) && Owned(heap, next, t) && (Positional(t) ==> t !in live)
    ensures OwnsBatches(heap, next, live + [t])
  {
    assert multiset(live + [t]) == multiset(live) + multiset{t};
  }

  lemma OwnsFresh(heap: map<Ptr, Item>, next: Ptr, live: seq<Task>, item: Item)
    requires OwnsBatches(heap, next, live)
    ensures OwnsBatches(heap[next := item], next + 1, live)
    ensures TWheel(next) !in live && TMove(next) !in live
    ensures forall u :: u in live ==> Content(heap, u) == Content(heap[next := item], u)
  {
    forall u | u in live ensures Owned(heap[next := item], next + 1, u) && Content(heap, u) == Content(heap[next := item], u) {
      assert Owned(heap, next, u);
    }
    assert !Owned(heap, next, TWheel(next)) && !Owned(heap, next, TMove(next));
  }

  lemma OwnsRewrite(heap: map<Ptr, Item>, next: Ptr, live: seq<Task>, p: Ptr, item: Item)
    requires OwnsBatches(heap, next, live) && p in heap
    requires heap[p].WheelBatch? == item.WheelBatch? && heap[p].MoveBatch? == item.MoveBatch?
    ensures OwnsBatches(heap[p := item], next, live)
  {
    forall u | u in live ensures Owned(heap[p := item], next, u) {
      assert Owned(heap, next, u);
    }
  }

  lemma {:induction false} TalliesDrop(wheelQueued: int, queued: set<Cadence>, live: seq<Task>, live': seq<Task>, t: Task)
    requires Tallies(wheelQueued, queued, live)
    requires live == [t] + live' || live == live' + [t]
    ensures Tallies(wheelQueued - (if t.TWheel? then 1 else 0), if t.TCadence? then queued - {t.c} else queued, live')
  {
    WheelsConcat([t], live');
    WheelsConcat(live', [t]);
    WheelsOne(t);
    assert multiset(live) == multiset(live') + multiset{t};
  }

  lemma {:induction false} TalliesJoin(wheelQueued: int, queued: set<Cadence>, live: seq<Task>, t: Task)
    requires Tallies(wheelQueued, queued, live) && (t.TCadence? ==> t.c !in queued)
    ensures Tallies(wheelQueued + (if t.TWheel? then 1 else 0), if t.TCadence? then queued + {t.c} else queued, live + [t])
  {
    WheelsConcat(live, [t]);
    WheelsOne(t);
    assert multiset(live + [t]) == multiset(live) + multiset{t};
  }

  /** The sequences of tasks, by what the two threads hold. */
  lemma IdleHost(s: Queue)
    requires s.host.HIdle? || s.host.HNew?
    ensures Live(s) == Pending(s) && Posting(s.host) == []
  {
  }

  /** The tasks behind the one the engine holds. */
  function Rest(s: Queue): seq<Task> { s.queue + Accepted(s.host) }

  lemma BusyEngine(s: Queue, t: Task)
    requires EngineTasks(s.engine) == [t]
    ensures Pending(s) == [t] + Rest(s) && Live(s) == [t] + (Rest(s) + Posting(s.host))
    ensures multiset(Live(s)) == multiset(Rest(s) + Posting(s.host)) + multiset{t}
  {
  }

  lemma FreeEngine(s: Queue)
    requires EngineTasks(s.engine) == []
    ensures Pending(s) == Rest(s) && Live(s) == Rest(s) + Posting(s.host)
  {
  }

  // ----- every step keeps the shape ------------------------------------------------------

  /** The host offers a task: t joins the live tasks. */
  lemma OfferShape(s: Queue, s': Queue, t: Task)
    requires Shape(s) && (s.host.HIdle? || s.host.HNew?)
    requires s'.host == HPost(t) && s'.engine == s.engine && s'.queue == s.queue && s'.ready == s.ready && !s'.fault
    requires OfferIsOpen(s')
    requires OwnsBatches(s'.heap, s'.next, Live(s)) && Owned(s'.heap, s'.next, t) && (Positional(t) ==> t !in Live(s))
    requires s'.openWheel == (if t.TWheel? then Some(t.p) else s.openWheel)
    requires s'.openMove == (if t.TMove? then Some(t.p) else s.openMove)
    requires s'.wheelQueued == s.wheelQueued + (if t.TWheel? then 1 else 0)
    requires t.TCadence? ==> t.c !in s.queued
    requires s'.queued == if t.TCadence? then s.queued + {t.c} else s.queued
    ensures Shape(s')
  {
    OfferTasks(s, s', t);
    OwnsJoin(s'.heap, s'.next, Live(s), t);
    TalliesJoin(Counted(s), s.queued, Live(s), t);
    assert Counted(s') == Counted(s) + if t.TWheel? then 1 else 0;
    MakeShape(s', Pending(s), [t]);
  }

  lemma OfferTasks(s: Queue, s': Queue, t: Task)
    requires (s.host.HIdle? || s.host.HNew?) && s'.host == HPost(t) && s'.engine == s.engine && s'.queue == s.queue
    ensures Pending(s') == Pending(s) == Live(s) && Live(s') == Live(s) + [t] && Posting(s'.host) == [t] && Posting(s.host) == []
  {
    IdleHost(s);
    assert Accepted(s.host) == [] == Accepted(s'.host);
  }

  lemma MergeShape(s: Queue, e: Ev, p: Ptr)
    requires Shape(s) && p in s.heap && Mergeable(s.heap[p], e) && s.host.HIdle?
    ensures Shape(MergeInto(s, e, p)) && Pending(MergeInto(s, e, p)) == Pending(s)
  {
    OwnsRewrite(s.heap, s.next, Live(s), p, Absorb(s.heap[p], e));
  }

  lemma PublishWheelShape(s: Queue, e: Ev)
    requires Shape(s) && s.host == HNew(e) && e.Wheel?
    ensures Shape(PublishWheel(s, e))
  {
    OwnsFresh(s.heap, s.next, Live(s), Single(e));
    OfferShape(s, PublishWheel(s, e), TWheel(s.next));
  }

  lemma PublishMoveShape(s: Queue, e: Ev)
    requires Shape(s) && s.host == HNew(e) && e.Move?
    ensures Shape(PublishMove(s, e))
  {
    OwnsFresh(s.heap, s.next, Live(s), Single(e));
    OfferShape(s, PublishMove(s, e), TMove(s.next));
  }

  lemma OfferIsOwned(s: Queue, t: Task)
    requires Shape(s) && (s.host == HPost(t) || s.host == HFailed(t))
    ensures Owned(s.heap, s.next, t) && Live(s) == Pending(s) + [t]
  {
    assert t in Pending(s) + [t];
  }

  lemma AcceptShape(s: Queue, t: Task)
    requires Shape(s) && s.host == HPost(t)
    requires s.ready
    ensures Shape(Accept(s, t)) && Pending(Accept(s, t)) == Pending(s) + [t]
  {
    var s' := Accept(s, t);
    OfferIsOwned(s, t);
    Accepting(s, s', t);
  }

  lemma Accepting(s: Queue, s': Queue, t: Task)
    requires Posting(s.host) == [t] && s'.host == HSealed(t) && s'.engine == s.engine && s'.queue == s.queue
    ensures Pending(s') == Pending(s) + [t] && Live(s') == Live(s) && Posting(s'.host) == []
  {
    assert Accepted(s.host) == [] && Accepted(s'.host) == [t];
  }

  lemma RefuseShape(s: Queue, t: Task)
    requires Shape(s) && s.host == HPost(t)
    ensures Shape(Refuse(s, t)) && Pending(Refuse(s, t)) == Pending(s)
  {
    RefuseMoves(s, Refuse(s, t), t);
    MovedAlong(s, Refuse(s, t));
  }

  lemma RefuseMoves(s: Queue, s': Queue, t: Task)
    requires s.host == HPost(t) && s' == Refuse(s, t)
    ensures OfferIsOpen(s') && Posting(s.host) == Posting(s'.host) && Accepted(s.host) == Accepted(s'.host)
    ensures s' == s.(host := s'.host) && Counted(s') == Counted(s)
  {
  }

  lemma EnqueueShape(s: Queue, t: Task)
    requires Shape(s) && s.host == HSealed(t)
    ensures Shape(Enqueue(s, t)) && Pending(Enqueue(s, t)) == Pending(s)
  {
    MovedAlong(s, Enqueue(s, t));
  }

  /** A step that only moves a task along the line, from one holder to the next. */
  lemma SamePending(s: Queue, s': Queue)
    requires EngineTasks(s.engine) + s.queue + Accepted(s.host) == EngineTasks(s'.engine) + s'.queue + Accepted(s'.host)
    requires Posting(s.host) == Posting(s'.host)
    ensures Pending(s') == Pending(s) && Live(s') == Live(s)
  {
  }

  lemma MovedAlong(s: Queue, s': Queue)
    requires Shape(s) && OfferIsOpen(s')
    requires EngineTasks(s.engine) + s.queue + Accepted(s.host) == EngineTasks(s'.engine) + s'.queue + Accepted(s'.host)
    requires Posting(s.host) == Posting(s'.host)
    requires s'.heap == s.heap && s'.next == s.next && s'.openWheel == s.openWheel && s'.openMove == s.openMove
    requires s'.queued == s.queued && s'.ready == s.ready && s'.fault == s.fault && Counted(s') == Counted(s)
    ensures Shape(s') && Pending(s') == Pending(s)
  {
    SamePending(s, s');
    MakeShape(s', Pending(s), Posting(s.host));
  }

  lemma UndoShape(s: Queue, t: Task)
    requires Shape(s) && s.host == HFailed(t)
    ensures Shape(Undo(s, t)) && Pending(Undo(s, t)) == Pending(s)
  {
    OfferIsOwned(s, t);
    OfferLeaves(s, Undo(s, t), t);
  }

  lemma OfferLeaves(s: Queue, s': Queue, t: Task)
    requires Shape(s) && s.host == HFailed(t) && Live(s) == Pending(s) + [t]
    requires s'.host.HIdle? && s'.engine == s.engine && s'.queue == s.queue && s'.ready == s.ready && !s'.fault
    requires s'.heap == Without(s.heap, t) && s'.next == s.next
    requires s'.openWheel == (if t.TWheel? && s.openWheel == Some(t.p) then None else s.openWheel)
    requires s'.openMove == (if t.TMove? && s.openMove == Some(t.p) then None else s.openMove)
    requires s'.wheelQueued == s.wheelQueued - (if t.TWheel? then 1 else 0)
    requires s'.queued == if t.TCadence? then s.queued - {t.c} else s.queued
    ensures Shape(s') && Pending(s') == Pending(s)
  {
    LastCounted(Pending(s), t);
    OwnsDrop(s.heap, s.next, Live(s), Pending(s), t);
    TalliesDrop(Counted(s), s.queued, Live(s), Pending(s), t);
    OnlyOlderOpen(s.openWheel, s.openMove, Pending(s), t);
    Undone(s, s', t);
  }

  lemma Undone(s: Queue, s': Queue, t: Task)
    requires s'.host.HIdle? && s'.engine == s.engine && s'.queue == s.queue && s'.ready == s.ready && !s'.fault
    requires Accepted(s.host) == [] && (!s.ready ==> Pending(s) == [])
    requires s'.wheelQueued == s.wheelQueued - (if t.TWheel? then 1 else 0)
    requires OwnsBatches(s'.heap, s'.next, Pending(s))
    requires Tallies(Counted(s) - (if t.TWheel? then 1 else 0), s'.queued, Pending(s))
    requires OpenIsNewest(s'.openWheel, s'.openMove, Pending(s), [])
    ensures Shape(s') && Pending(s') == Pending(s)
  {
    assert Pending(s') == Pending(s) && Pending(s) + [] == Pending(s);
    MakeShape(s', Pending(s), []);
  }

  lemma LastCounted(pending: seq<Task>, t: Task)
    ensures multiset(pending + [t]) == multiset(pending) + multiset{t}
  {
  }

  lemma OnlyOlderOpen(openWheel: Option<Ptr>, openMove: Option<Ptr>, pending: seq<Task>, t: Task)
    requires OpenIsNewest(openWheel, openMove, pending, [t])
    ensures OpenIsNewest(if t.TWheel? && openWheel == Some(t.p) then None else openWheel,
                         if t.TMove? && openMove == Some(t.p) then None else openMove, pending, [])
  {
  }

  lemma NewestIsOwned(s: Queue, t: Task)
    requires Shape(s) && Newest(Pending(s), Posting(s.host), t)
    ensures Owned(s.heap, s.next, t)
  {
    assert t in Pending(s) + Posting(s.host);
  }

  /** What the first critical section did. */
  datatype Verdict = Offered(id: nat) | Allocates | MergedInto(p: Ptr)

  function Outcome(s: Queue, e: Ev): Verdict {
    match e
    case Other(id) => Offered(id)
    case _ =>
      var open := if e.Wheel? then s.openWheel else s.openMove;
      if open.Some? && open.value in s.heap && Mergeable(s.heap[open.value], e) && (e.Wheel? ==> !s.consumed)
      then MergedInto(open.value)
      else Allocates
  }

  lemma InputOutcome(s: Queue, e: Ev)
    requires Shape(s)
    ensures match Outcome(s, e)
            case Offered(id) => e == Other(id) && TestAndMerge(s, e) == s.(host := HPost(TOther(id)))
            case Allocates => !e.Other? && TestAndMerge(s, e) == s.(host := HNew(e))
            case MergedInto(p) =>
              && !e.Other? && p in s.heap && Mergeable(s.heap[p], e) && TestAndMerge(s, e) == MergeInto(s, e, p)
              && (if e.Wheel? then s.openWheel else s.openMove) == Some(p)
  {
    if !e.Other? {
      var open := if e.Wheel? then s.openWheel else s.openMove;
      if open.Some? {
        NewestIsOwned(s, if e.Wheel? then TWheel(open.value) else TMove(open.value));
      }
    }
  }

  lemma AllocateShape(s: Queue, e: Ev)
    requires Shape(s) && s.host.HIdle? && !e.Other?
    ensures Shape(s.(host := HNew(e))) && Pending(s.(host := HNew(e))) == Pending(s)
  {
    MovedAlong(s, s.(host := HNew(e)));
  }

  lemma InputShape(s: Queue, e: Ev, s': Queue)
    requires Shape(s) && s.host.HIdle? && s' == TestAndMerge(s, e)
    ensures Shape(s')
  {
    InputOutcome(s, e);
    match Outcome(s, e)
    case Offered(id) => OfferShape(s, s', TOther(id));
    case Allocates => AllocateShape(s, e);
    case MergedInto(p) => MergeShape(s, e, p);
  }

  lemma HostShape(s: Queue, s': Queue)
    requires Shape(s) && s' == HostStep(s)
    ensures Shape(s')
  {
    match s.host
    case HIdle =>
    case HNew(e) =>
      if e.Wheel? {
        PublishWheelShape(s, e);
        assert s' == PublishWheel(s, e);
      } else {
        PublishMoveShape(s, e);
        assert s' == PublishMove(s, e);
      }
    case HPost(t) =>
      if s.ready {
        AcceptShape(s, t);
        assert s' == Accept(s, t);
      } else {
        RefuseShape(s, t);
        assert s' == Refuse(s, t);
      }
    case HSealed(t) => EnqueueShape(s, t); assert s' == Enqueue(s, t);
    case HFailed(t) => UndoShape(s, t); assert s' == Undo(s, t);
  }

  lemma CadenceShape(s: Queue, c: Cadence)
    requires Shape(s) && s.host.HIdle? && c !in s.queued
    ensures Shape(OfferCadence(s, c))
  {
    OfferShape(s, OfferCadence(s, c), TCadence(c));
  }

  /** s' is s once the engine is done with task t, the oldest. */
  ghost predicate Retires(s: Queue, s': Queue, t: Task) {
    && EngineTasks(s'.engine) == [] && s'.host == s.host && s'.queue == s.queue && s'.ready == s.ready && !s'.fault
    && s'.heap == Without(s.heap, t) && s'.next == s.next
    && s'.openWheel == (if t.TWheel? && s.openWheel == Some(t.p) then None else s.openWheel)
    && s'.openMove == (if t.TMove? && s.openMove == Some(t.p) then None else s.openMove)
    && s'.queued == (if t.TCadence? then s.queued - {t.c} else s.queued)
    && Counted(s') == Counted(s) - (if t.TWheel? then 1 else 0)
  }

  lemma OldestLeaves(s: Queue, s': Queue, t: Task)
    requires Shape(s) && EngineTasks(s.engine) == [t] && OfferIsOpen(s') && Retires(s, s', t)
    ensures Shape(s')
  {
    OldestOwns(s, t);
    OldestTallies(s, t);
    OldestOpen(s, t);
    Retired(s, s', t);
  }

  lemma Retired(s: Queue, s': Queue, t: Task)
    requires OfferIsOpen(s') && Retires(s, s', t) && s.ready
    requires OwnsBatches(Without(s.heap, t), s.next, Rest(s) + Posting(s.host))
    requires Tallies(Counted(s) - (if t.TWheel? then 1 else 0), if t.TCadence? then s.queued - {t.c} else s.queued,
                     Rest(s) + Posting(s.host))
    requires OpenIsNewest(if t.TWheel? && s.openWheel == Some(t.p) then None else s.openWheel,
                          if t.TMove? && s.openMove == Some(t.p) then None else s.openMove, Rest(s), Posting(s.host))
    ensures Shape(s')
  {
    FreeEngine(s');
    MakeShape(s', Rest(s), Posting(s.host));
  }

  lemma OldestOwns(s: Queue, t: Task)
    requires Shape(s) && EngineTasks(s.engine) == [t]
    ensures OwnsBatches(Without(s.heap, t), s.next, Rest(s) + Posting(s.host)) && s.ready
  {
    BusyEngine(s, t);
    OwnsDrop(s.heap, s.next, Live(s), Rest(s) + Posting(s.host), t);
  }

  lemma OldestTallies(s: Queue, t: Task)
    requires Shape(s) && EngineTasks(s.engine) == [t]
    ensures Tallies(Counted(s) - (if t.TWheel? then 1 else 0), if t.TCadence? then s.queued - {t.c} else s.queued,
                    Rest(s) + Posting(s.host))
  {
    BusyEngine(s, t);
    TalliesDrop(Counted(s), s.queued, Live(s), Rest(s) + Posting(s.host), t);
  }

  lemma OldestOpen(s: Queue, t: Task)
    requires Shape(s) && EngineTasks(s.engine) == [t]
    ensures OpenIsNewest(if t.TWheel? && s.openWheel == Some(t.p) then None else s.openWheel,
                         if t.TMove? && s.openMove == Some(t.p) then None else s.openMove, Rest(s), Posting(s.host))
  {
    BusyEngine(s, t);
    StillNewest(t, Rest(s), Posting(s.host), s);
  }

  lemma MakeShape(s: Queue, pending: seq<Task>, posting: seq<Task>)
    requires pending == Pending(s) && posting == Posting(s.host)
    requires !s.fault && OfferIsOpen(s)
    requires OwnsBatches(s.heap, s.next, pending + posting)
    requires OpenIsNewest(s.openWheel, s.openMove, pending, posting)
    requires Tallies(Counted(s), s.queued, pending + posting)
    requires !s.ready ==> pending == []
    ensures Shape(s)
  {
  }

  lemma StillNewest(t: Task, rest: seq<Task>, posting: seq<Task>, s: Queue)
    requires OpenIsNewest(s.openWheel, s.openMove, [t] + rest, posting)
    ensures OpenIsNewest(if t.TWheel? && s.openWheel == Some(t.p) then None else s.openWheel,
                         if t.TMove? && s.openMove == Some(t.p) then None else s.openMove, rest, posting)
  {
    if rest != [] {
      assert ([t] + rest)[|[t] + rest| - 1] == rest[|rest| - 1];
    }
  }

  /** The engine stands before the critical section of task t. */
  predicate AtClose(s: Queue, t: Task) {
    (t.TMove? && s.engine == EPopped(t)) || (t.TWheel? && s.engine == ECounted(t.p))
  }

  /** The batch it is about to close exists and is nobody else's. */
  lemma CloseSafe(s: Queue, t: Task)
    requires Shape(s) && AtClose(s, t)
    ensures t.p in s.heap && t !in Rest(s) + Posting(s.host)
  {
    BusyEngine(s, t);
    OwnsDrop(s.heap, s.next, Live(s), Rest(s) + Posting(s.host), t);
  }

  lemma CloseShape(s: Queue, t: Task)
    requires Shape(s) && AtClose(s, t)
    ensures Shape(Close(s, t))
  {
    CloseSafe(s, t);
    OfferSurvives(s, t);
    CloseRetires(s, t);
    OldestLeaves(s, Close(s, t), t);
  }

  lemma CloseRetires(s: Queue, t: Task)
    requires AtClose(s, t) && t.p in s.heap && !s.fault
    ensures Retires(s, Close(s, t), t)
  {
  }

  /** What the host offers is not what the engine closes. */
  lemma OfferSurvives(s: Queue, t: Task)
    requires OfferIsOpen(s) && Positional(t) && t.p in s.heap && t !in Rest(s) + Posting(s.host)
    ensures OfferIsOpen(Close(s, t))
  {
    if s.host.HPost? {
      assert s.host.t in Rest(s) + Posting(s.host);
    }
  }

  lemma HeadMoves(q: seq<Task>, after: seq<Task>)
    requires q != []
    ensures [q[0]] + q[1..] + after == q + after
  {
  }

  lemma PopShape(s: Queue)
    requires Shape(s) && s.engine.EIdle? && s.queue != []
    ensures Shape(Pop(s)) && Pending(Pop(s)) == Pending(s)
  {
    HeadMoves(s.queue, Accepted(s.host));
    assert EngineTasks(s.engine) + s.queue == s.queue;
    MovedAlong(s, Pop(s));
  }

  lemma CountShape(s: Queue, p: Ptr)
    requires Shape(s) && s.engine == EPopped(TWheel(p))
    ensures Shape(Count(s, p)) && Pending(Count(s, p)) == Pending(s)
  {
    MovedAlong(s, Count(s, p));
  }

  lemma FinishShape(s: Queue, t: Task)
    requires Shape(s) && s.engine == EPopped(t) && !Positional(t)
    ensures Shape(Finish(s, t))
  {
    OldestLeaves(s, Finish(s, t), t);
  }

  lemma ApplyShape(s: Queue, item: Item, prevented: bool)
    requires Shape(s) && s.engine == EClosed(item)
    ensures Shape(ApplyItem(s, item, prevented)) && Pending(ApplyItem(s, item, prevented)) == Pending(s)
  {
    MovedAlong(s, ApplyItem(s, item, prevented));
  }

  lemma EngineShape(s: Queue, prevented: bool)
    requires Shape(s)
    ensures Shape(EngineStep(s, prevented))
  {
    match s.engine
    case EIdle => if s.queue != [] { PopShape(s); }
    case EPopped(t) => if t.TWheel? { CountShape(s, t.p); } else if t.TMove? { CloseShape(s, t); } else { FinishShape(s, t); }
    case ECounted(p) => CloseShape(s, TWheel(p));
    case EClosed(item) => ApplyShape(s, item, prevented);
  }

  lemma {:induction false} StepShape(s: Queue, a: Action)
    requires Shape(s)
    ensures Shape(Step(s, a))
  {
    match a
    case HostInput(e) => if s.host.HIdle? { InputShape(s, e, Step(s, a)); }
    case HostCadence(c) => if s.host.HIdle? && c !in s.queued { CadenceShape(s, c); }
    case HostProceeds => HostShape(s, Step(s, a));
    case EngineUp => UpShape(s);
    case EngineProceeds(prevented) => EngineShape(s, prevented);
  }

  lemma UpShape(s: Queue)
    requires Shape(s)
    ensures Shape(s.(ready := true)) && Pending(s.(ready := true)) == Pending(s)
  {
  }

  // ----- every step extends the streams ----------------------------------------------------

  /** Nothing happened to the streams, an event was appended as an item of its
      own, or an event was absorbed by the newest item. */
  datatype Growth = Same | Appends(e: Ev) | Absorbs(e: Ev)

  ghost predicate Grows(g: Growth, sent: seq<Ev>, out: seq<Item>, sent': seq<Ev>, out': seq<Item>) {
    match g
    case Same => sent' == sent && out' == out
    case Appends(e) => sent' == sent + [e] && out' == out + [Single(e)]
    case Absorbs(e) =>
      && sent' == sent + [e] && out != [] && Mergeable(out[|out| - 1], e)
      && out' == out[..|out| - 1] + [Absorb(out[|out| - 1], e)]
  }

  lemma {:induction false} GrowthKeeps(g: Growth, sent: seq<Ev>, out: seq<Item>, sent': seq<Ev>, out': seq<Item>)
    requires Coalesces(sent, out) && Grows(g, sent, out, sent', out')
    ensures Coalesces(sent', out')
  {
    match g
    case Same =>
    case Appends(e) => AppendEvent(sent, out, e);
    case Absorbs(e) => AbsorbEvent(sent, out, e);
  }

  /** What comes out before the pending tasks. */
  function Done(s: Queue): seq<Item> {
    s.applied + if s.engine.EClosed? then [s.engine.item] else []
  }

  lemma OutputIs(s: Queue, early: seq<Item>, late: seq<Item>)
    requires Contents(s.heap, Pending(s)) == early + late
    ensures Output(s) == Done(s) + early + late
  {
  }

  lemma AbsorbLast(base: seq<Item>, item: Item, e: Ev)
    requires Mergeable(item, e)
    ensures var out := base + [item];
            out[|out| - 1] == item && out[..|out| - 1] + [Absorb(out[|out| - 1], e)] == base + [Absorb(item, e)]
  {
    assert (base + [item])[..|base|] == base;
  }

  /** A merge rewrites only the newest item of the output. */
  lemma MergeGrows(s: Queue, e: Ev, p: Ptr) returns (base: seq<Item>)
    requires Shape(s) && s.host.HIdle? && !e.Other?
    requires (if e.Wheel? then s.openWheel else s.openMove) == Some(p) && p in s.heap && Mergeable(s.heap[p], e)
    ensures Output(s) == base + [s.heap[p]]
    ensures Output(MergeInto(s, e, p)) == base + [Absorb(s.heap[p], e)]
  {
    var t := if e.Wheel? then TWheel(p) else TMove(p);
    var front := NewestLast(s, t);
    base := RewriteNewest(s, MergeInto(s, e, p), front, t);
  }

  lemma NewestLast(s: Queue, t: Task) returns (front: seq<Task>)
    requires Shape(s) && s.host.HIdle? && Newest(Pending(s), Posting(s.host), t)
    ensures Pending(s) == front + [t] && OwnsBatches(s.heap, s.next, front + [t])
  {
    IdleHost(s);
    LastApart(Pending(s));
    front := Pending(s)[..|Pending(s)| - 1];
  }

  lemma RewriteNewest(s: Queue, s': Queue, front: seq<Task>, t: Task) returns (base: seq<Item>)
    requires Positional(t) && t.p in s.heap && OwnsBatches(s.heap, s.next, front + [t])
    requires Pending(s) == front + [t] && s.engine == s'.engine && s.queue == s'.queue && s.host == s'.host
    requires t.p in s'.heap && s'.heap == s.heap[t.p := s'.heap[t.p]] && s'.applied == s.applied
    ensures Output(s) == base + [s.heap[t.p]]
    ensures Output(s') == base + [s'.heap[t.p]]
  {
    RewriteLast(s.heap, s.next, front, t, s'.heap[t.p]);
    base := Done(s) + Contents(s.heap, front);
    OutputIs(s, Contents(s.heap, front), [s.heap[t.p]]);
    OutputIs(s', Contents(s.heap, front), [s'.heap[t.p]]);
  }

  /** Rewriting the newest task's batch changes only its item. */
  lemma RewriteLast(heap: map<Ptr, Item>, next: Ptr, front: seq<Task>, t: Task, item: Item)
    requires Positional(t) && OwnsBatches(heap, next, front + [t]) && t.p in heap
    ensures Contents(heap, front + [t]) == Contents(heap, front) + [heap[t.p]]
    ensures Contents(heap[t.p := item], front + [t]) == Contents(heap, front) + [item]
  {
    var ts, heap' := front + [t], heap[t.p := item];
    assert multiset(ts) == multiset(front) + multiset{t};
    OwnsDrop(heap, next, ts, front, t);
    forall u | u in front ensures Content(heap, u) == Content(heap', u) {
      assert u in ts && t in ts && u != t;
      if Positional(u) { SoleOwner(heap, next, ts, t, u); }
    }
    ContentsFrame(heap, heap', front);
    ContentsJoin(heap, front, t);
    ContentsJoin(heap', front, t);
  }

  /** Accepting a post appends its event to what was sent and its item to the
      output. */
  lemma AcceptGrows(s: Queue, t: Task)
    requires Shape(s) && s.host == HPost(t) && s.ready
    ensures Accept(s, t).sent == s.sent + Carried(s.heap, t)
    ensures Output(Accept(s, t)) == Output(s) + Content(s.heap, t)
  {
    AcceptShape(s, t);
    AppendsOne(s, Accept(s, t), t);
  }

  lemma OfferCarries(s: Queue, t: Task)
    requires Shape(s) && s.host == HPost(t)
    ensures t.TCadence? ==> Carried(s.heap, t) == [] && Content(s.heap, t) == []
    ensures !t.TCadence? ==> |Carried(s.heap, t)| == 1 && Content(s.heap, t) == [Single(Carried(s.heap, t)[0])]
  {
    OfferIsOwned(s, t);
  }

  lemma AppendsOne(s: Queue, s': Queue, t: Task)
    requires Pending(s') == Pending(s) + [t] && s'.heap == s.heap && s'.applied == s.applied && s'.engine == s.engine
    ensures Output(s') == Output(s) + Content(s.heap, t)
  {
    ContentsJoin(s.heap, Pending(s), t);
  }

  /** Neither the batches nor the order changed. */
  lemma Unmoved(s: Queue, s': Queue)
    requires s'.heap == s.heap && s'.applied == s.applied && Pending(s') == Pending(s)
    requires s'.engine == s.engine || (!s'.engine.EClosed? && !s.engine.EClosed?)
    ensures Output(s') == Output(s)
  {
  }

  lemma SameOutput(s: Queue, s': Queue)
    requires s'.applied == s.applied && s'.engine == s.engine && Pending(s') == Pending(s)
    requires forall u :: u in Pending(s) ==> Content(s.heap, u) == Content(s'.heap, u)
    ensures Output(s') == Output(s)
  {
    ContentsFrame(s.heap, s'.heap, Pending(s));
  }

  lemma PublishGrows(s: Queue, e: Ev)
    requires Shape(s) && s.host == HNew(e)
    ensures Output(Publish(s, e)) == Output(s)
  {
    IdleHost(s);
    OwnsFresh(s.heap, s.next, Pending(s), Single(e));
    SameOutput(s, Publish(s, e));
  }

  lemma UndoGrows(s: Queue, t: Task)
    requires Shape(s) && s.host == HFailed(t)
    ensures Output(Undo(s, t)) == Output(s)
  {
    OfferIsOwned(s, t);
    UndoShape(s, t);
    assert multiset(Live(s)) == multiset(Pending(s)) + multiset{t};
    OwnsDrop(s.heap, s.next, Live(s), Pending(s), t);
    SameOutput(s, Undo(s, t));
  }

  lemma RefuseGrows(s: Queue, t: Task)
    requires Shape(s) && s.host == HPost(t)
    ensures Output(Refuse(s, t)) == Output(s)
  {
    RefuseShape(s, t);
    Unmoved(s, Refuse(s, t));
  }

  lemma EnqueueGrows(s: Queue, t: Task)
    requires Shape(s) && s.host == HSealed(t)
    ensures Output(Enqueue(s, t)) == Output(s)
  {
    EnqueueShape(s, t);
    Unmoved(s, Enqueue(s, t));
  }

  /** Only accepting a task with an event grows the streams. */
  lemma HostStepGrows(s: Queue, s': Queue)
    requires Shape(s) && !(s.host.HPost? && s.ready) && s' == HostStep(s)
    ensures Output(s') == Output(s) && s'.sent == s.sent
  {
    if s.host.HNew? {
      PublishGrows(s, s.host.e);
      assert s' == Publish(s, s.host.e);
    } else if s.host.HPost? {
      RefuseGrows(s, s.host.t);
      assert s' == Refuse(s, s.host.t);
    } else if s.host.HSealed? {
      EnqueueGrows(s, s.host.t);
      assert s' == Enqueue(s, s.host.t);
    } else if s.host.HFailed? {
      UndoGrows(s, s.host.t);
      assert s' == Undo(s, s.host.t);
    }
  }

  lemma HostGrows(s: Queue, s': Queue) returns (g: Growth)
    requires Shape(s) && s' == HostStep(s)
    ensures Grows(g, s.sent, Output(s), s'.sent, Output(s'))
  {
    if s.host.HPost? && s.ready {
      var t := s.host.t;
      AcceptGrows(s, t);
      OfferCarries(s, t);
      if t.TCadence? {
        g := Same;
        assert s.sent + [] == s.sent && Output(s) + [] == Output(s);
      } else {
        g := Appends(Carried(s.heap, t)[0]);
      }
    } else {
      HostStepGrows(s, s');
      g := Same;
    }
  }

  /** The oldest task's item moves from the queue to what is done. */
  lemma OldestMoves(s: Queue, s': Queue, t: Task)
    requires EngineTasks(s.engine) == [t] && EngineTasks(s'.engine) == [] && s'.queue == s.queue && s'.host == s.host
    requires Done(s') == Done(s) + Content(s.heap, t)
    requires Contents(s'.heap, Rest(s)) == Contents(s.heap, Rest(s))
    ensures Output(s') == Output(s)
  {
    BusyEngine(s, t);
    FreeEngine(s');
    ContentsLeave(s.heap, t, Rest(s));
    Regroup(Done(s), Content(s.heap, t), Contents(s.heap, Rest(s)));
    assert Output(s) == Done(s) + (Content(s.heap, t) + Contents(s.heap, Rest(s)));
  }

  lemma CloseGrows(s: Queue, t: Task)
    requires Shape(s) && AtClose(s, t)
    ensures Output(Close(s, t)) == Output(s)
  {
    CloseSafe(s, t);
    RestUntouched(s, t);
    CloseMoves(s, t);
  }

  lemma CloseMoves(s: Queue, t: Task)
    requires AtClose(s, t) && t.p in s.heap
    requires Contents(Without(s.heap, t), Rest(s)) == Contents(s.heap, Rest(s))
    ensures Output(Close(s, t)) == Output(s)
  {
    ClosedItem(s, t);
    OldestMoves(s, Close(s, t), t);
  }

  lemma ClosedItem(s: Queue, t: Task)
    requires Positional(t) && t.p in s.heap && !s.engine.EClosed?
    ensures Done(Close(s, t)) == Done(s) + Content(s.heap, t)
  {
    assert s.applied + [] + [s.heap[t.p]] == s.applied + [s.heap[t.p]];
  }

  lemma RestUntouched(s: Queue, t: Task)
    requires Shape(s) && EngineTasks(s.engine) == [t]
    ensures Contents(Without(s.heap, t), Rest(s)) == Contents(s.heap, Rest(s))
  {
    BusyEngine(s, t);
    var behind := Rest(s) + Posting(s.host);
    OwnsDrop(s.heap, s.next, Live(s), behind, t);
    forall u | u in Rest(s) ensures Content(s.heap, u) == Content(Without(s.heap, t), u) {
      assert u in behind;
    }
    ContentsFrame(s.heap, Without(s.heap, t), Rest(s));
  }

  lemma PopGrows(s: Queue)
    requires Shape(s) && s.engine.EIdle? && s.queue != []
    ensures Output(Pop(s)) == Output(s)
  {
    PopShape(s);
    Unmoved(s, Pop(s));
  }

  lemma CountGrows(s: Queue, p: Ptr)
    requires Shape(s) && s.engine == EPopped(TWheel(p))
    ensures Output(Count(s, p)) == Output(s)
  {
    CountShape(s, p);
    Unmoved(s, Count(s, p));
  }

  lemma FinishGrows(s: Queue, t: Task)
    requires s.engine == EPopped(t) && !Positional(t)
    ensures Output(Finish(s, t)) == Output(s)
  {
    OldestMoves(s, Finish(s, t), t);
  }

  lemma ApplyGrows(s: Queue, item: Item, prevented: bool)
    requires Shape(s) && s.engine == EClosed(item)
    ensures Output(ApplyItem(s, item, prevented)) == Output(s)
  {
    var s' := ApplyItem(s, item, prevented);
    ApplyShape(s, item, prevented);
    assert Done(s') == Done(s);
  }

  lemma EngineGrows(s: Queue, prevented: bool)
    requires Shape(s)
    ensures EngineStep(s, prevented).sent == s.sent && Output(EngineStep(s, prevented)) == Output(s)
  {
    match s.engine
    case EIdle => if s.queue != [] { PopGrows(s); }
    case EPopped(t) => if t.TWheel? { CountGrows(s, t.p); } else if t.TMove? { CloseGrows(s, t); } else { FinishGrows(s, t); }
    case ECounted(p) => CloseGrows(s, TWheel(p));
    case EClosed(item) => ApplyGrows(s, item, prevented);
  }

  lemma InputGrows(s: Queue, e: Ev, s': Queue) returns (g: Growth)
    requires Shape(s) && s.host.HIdle? && s' == TestAndMerge(s, e)
    ensures Grows(g, s.sent, Output(s), s'.sent, Output(s'))
  {
    InputOutcome(s, e);
    g := Same;
    match Outcome(s, e)
    case Offered(id) => assert Pending(s') == Pending(s); Unmoved(s, s');
    case Allocates => AllocateShape(s, e); Unmoved(s, s');
    case MergedInto(p) =>
      var base := MergeGrows(s, e, p);
      AbsorbLast(base, s.heap[p], e);
      g := Absorbs(e);
  }

  lemma CadenceGrows(s: Queue, c: Cadence)
    requires s.host.HIdle?
    ensures Output(OfferCadence(s, c)) == Output(s)
  {
    assert Pending(OfferCadence(s, c)) == Pending(s);
    Unmoved(s, OfferCadence(s, c));
  }

  lemma {:induction false} StepGrows(s: Queue, a: Action, s': Queue) returns (g: Growth)
    requires Shape(s) && s' == Step(s, a)
    ensures Grows(g, s.sent, Output(s), s'.sent, Output(s'))
  {
    g := Same;
    if a.HostInput? {
      if s.host.HIdle? { g := InputGrows(s, a.e, s'); }
    } else if a.HostCadence? {
      if s.host.HIdle? { CadenceGrows(s, a.c); }
    } else if a.HostProceeds? {
      g := HostGrows(s, s');
    } else if a.EngineProceeds? {
      EngineGrows(s, a.prevented);
    } else {
      assert Pending(s') == Pending(s);
      Unmoved(s, s');
    }
  }

  // ----- the theorems about runs ----------------------------------------------------------

  lemma {:induction false} RunKeeps(acts: seq<Action>)
    ensures Shape(Run(acts)) && Coalesces(Run(acts).sent, Output(Run(acts)))
    decreases |acts|
  {
    if acts != [] {
      var s, a := Run(acts[..|acts| - 1]), acts[|acts| - 1];
      RunKeeps(acts[..|acts| - 1]);
      StepShape(s, a);
      var g := StepGrows(s, a, Step(s, a));
      GrowthKeeps(g, s.sent, Output(s), Step(s, a).sent, Output(Step(s, a)));
    }
  }

  // ----- from host calls to what is applied ------------------------------------------------

  /** What a call adds. */
  function CalledBy(s: Queue, a: Action): seq<Ev> { if a.HostInput? && s.host.HIdle? then [a.e] else [] }

  /** The events of the exports the page called, in order: one call at a time. */
  function Called(acts: seq<Action>): seq<Ev>
    decreases |acts|
  {
    if acts == [] then []
    else
      var most, a := acts[..|acts| - 1], acts[|acts| - 1];
      Called(most) + CalledBy(Run(most), a)
  }

  /** The host is about to be refused the post of an event. */
  predicate Refuses(s: Queue, a: Action) {
    a.HostProceeds? && s.host.HPost? && !s.host.t.TCadence? && !s.ready
  }

  /** How many events were refused: posted before main() had started. */
  function Refusals(acts: seq<Action>): nat
    decreases |acts|
  {
    if acts == [] then 0
    else
      var most := acts[..|acts| - 1];
      Refusals(most) + if Refuses(Run(most), acts[|acts| - 1]) then 1 else 0
  }

  /** The event of a call that has not been merged or posted yet. */
  function InHand(s: Queue): seq<Ev> {
    match s.host
    case HNew(e) => [e]
    case HPost(t) => Carried(s.heap, t)
    case _ => []
  }

  /** Sent or in hand: what the host still stands for. */
  function Held(s: Queue): seq<Ev> { s.sent + InHand(s) }

  /** What a step leaves of the host's side. */
  lemma SameHeld(s: Queue, s': Queue)
    requires s'.host == s.host && s'.sent == s.sent
    requires s.host.HPost? ==> Carried(s'.heap, s.host.t) == Carried(s.heap, s.host.t)
    ensures Held(s') == Held(s)
  {
  }

  /** Nothing is open to merging before the engine is up. */
  lemma OpenNeedsReady(s: Queue, p: Ptr)
    requires Shape(s) && s.host.HIdle? && (s.openWheel == Some(p) || s.openMove == Some(p))
    ensures s.ready
  {
    IdleHost(s);
  }

  lemma MergeHeld(s: Queue, e: Ev, p: Ptr)
    requires s.host.HIdle? && p in s.heap && Mergeable(s.heap[p], e)
    ensures Held(MergeInto(s, e, p)) == Held(s) + [e]
  {
  }

  lemma OfferHeld(s: Queue, s': Queue, e: Ev)
    requires s.host.HIdle? && s'.sent == s.sent && InHand(s') == [e]
    ensures Held(s') == Held(s) + [e]
  {
  }

  lemma InputHeld(s: Queue, e: Ev, s': Queue)
    requires Shape(s) && s.host.HIdle? && s' == TestAndMerge(s, e)
    ensures Held(s') == Held(s) + [e] && (!s.ready ==> s'.sent == s.sent)
  {
    InputOutcome(s, e);
    match Outcome(s, e)
    case Offered(id) => OfferHeld(s, s', e);
    case Allocates => OfferHeld(s, s', e);
    case MergedInto(p) => MergeHeld(s, e, p); OpenNeedsReady(s, p);
  }

  lemma PublishHeld(s: Queue, e: Ev)
    requires s.host == HNew(e) && !e.Other?
    ensures InHand(Publish(s, e)) == [e] && Publish(s, e).sent == s.sent
  {
  }

  lemma AcceptHeld(s: Queue, t: Task)
    requires s.host == HPost(t)
    ensures Held(Accept(s, t)) == Held(s)
  {
    assert s.sent + Carried(s.heap, t) + [] == s.sent + Carried(s.heap, t);
  }

  lemma HostHeld(s: Queue, s': Queue)
    requires OfferIsOpen(s) && s' == HostStep(s) && !Refuses(s, HostProceeds)
    ensures Held(s') == Held(s) && (!s.ready ==> s'.sent == s.sent)
  {
    match s.host
    case HIdle =>
    case HNew(e) => PublishHeld(s, e); assert s' == Publish(s, e);
    case HPost(t) => if s.ready { AcceptHeld(s, t); assert s' == Accept(s, t); } else { assert s' == Refuse(s, t); }
    case HSealed(t) => assert s' == Enqueue(s, t);
    case HFailed(t) => assert s' == Undo(s, t);
  }

  lemma RefusedHeld(s: Queue, s': Queue)
    requires Shape(s) && s' == HostStep(s) && Refuses(s, HostProceeds)
    ensures s'.sent == s.sent && InHand(s') == [] && |InHand(s)| == 1
  {
    OfferCarries(s, s.host.t);
  }

  lemma CloseOwns(s: Queue, t: Task)
    requires Shape(s) && AtClose(s, t)
    ensures OwnsBatches(s.heap, s.next, [t] + (Rest(s) + Posting(s.host))) && t !in Rest(s) + Posting(s.host)
  {
    CloseSafe(s, t);
    BusyEngine(s, t);
  }

  /** The batch being closed is not the one in hand. */
  lemma CloseApart(s: Queue, t: Task)
    requires Shape(s) && AtClose(s, t) && s.host.HPost? && Positional(s.host.t)
    ensures s.host.t.p != t.p
  {
    CloseOwns(s, t);
    PostingApart(s, t, Rest(s));
  }

  lemma PostingApart(s: Queue, t: Task, rest: seq<Task>)
    requires OwnsBatches(s.heap, s.next, [t] + (rest + Posting(s.host))) && t !in rest + Posting(s.host)
    requires Positional(t) && s.host.HPost? && Positional(s.host.t)
    ensures s.host.t.p != t.p
  {
    BehindApart(s.heap, s.next, t, rest + Posting(s.host), s.host.t);
  }

  lemma BehindApart(heap: map<Ptr, Item>, next: Ptr, t: Task, behind: seq<Task>, u: Task)
    requires OwnsBatches(heap, next, [t] + behind) && t !in behind && u in behind && Positional(t) && Positional(u)
    ensures u.p != t.p
  {
    SoleOwner(heap, next, [t] + behind, t, u);
  }

  lemma CloseHeld(s: Queue, t: Task)
    requires Positional(t) && (s.host.HPost? && Positional(s.host.t) ==> s.host.t.p != t.p)
    ensures Held(Close(s, t)) == Held(s) && Close(s, t).sent == s.sent
  {
    SameHeld(s, Close(s, t));
  }

  lemma EngineCloseHeld(s: Queue, t: Task)
    requires Shape(s) && AtClose(s, t)
    ensures Held(Close(s, t)) == Held(s) && Close(s, t).sent == s.sent
  {
    if s.host.HPost? && Positional(s.host.t) {
      CloseApart(s, t);
    }
    CloseHeld(s, t);
  }

  /** The engine never touches what the host has in hand. */
  lemma EngineHeld(s: Queue, s': Queue, prevented: bool)
    requires Shape(s) && s' == EngineStep(s, prevented)
    ensures Held(s') == Held(s) && s'.sent == s.sent
  {
    match s.engine
    case EIdle => if s.queue != [] { assert s' == Pop(s); } SameHeld(s, s');
    case EPopped(t) =>
      if t.TMove? {
        EngineCloseHeld(s, t);
      } else {
        SameHeld(s, s');
      }
    case ECounted(p) => EngineCloseHeld(s, TWheel(p));
    case EClosed(item) => SameHeld(s, s');
  }

  lemma StaysReady(s: Queue, a: Action)
    ensures Step(s, a).ready == (s.ready || a.EngineUp?)
  {
    match a
    case HostInput(e) =>
    case HostCadence(c) =>
    case HostProceeds => HostStaysReady(s);
    case EngineUp =>
    case EngineProceeds(prevented) => EngineStaysReady(s, prevented);
  }

  lemma HostStaysReady(s: Queue)
    ensures HostStep(s).ready == s.ready
  {
  }

  lemma EngineStaysReady(s: Queue, prevented: bool)
    ensures EngineStep(s, prevented).ready == s.ready
  {
    match s.engine
    case EIdle =>
    case EPopped(t) => if t.TMove? { CloseStaysReady(s, t); }
    case ECounted(p) => CloseStaysReady(s, TWheel(p));
    case EClosed(item) =>
  }

  lemma CloseStaysReady(s: Queue, t: Task)
    requires Positional(t)
    ensures Close(s, t).ready == s.ready
  {
  }

  /** One action: a call joins what the host stands for, a refusal takes its event
      away, and nothing else touches it. */
  ghost predicate HeldStep(s: Queue, a: Action, s': Queue) {
    && (!Refuses(s, a) ==> Held(s') == Held(s) + CalledBy(s, a))
    && (Refuses(s, a) ==> |InHand(s)| == 1 && Held(s') == s.sent)
    && (!s'.ready ==> !s.ready && s'.sent == s.sent)
  }

  lemma HostStepHeld(s: Queue, s': Queue)
    requires Shape(s) && s' == HostStep(s)
    ensures HeldStep(s, HostProceeds, s')
  {
    HostStaysReady(s);
    if Refuses(s, HostProceeds) { RefusedHeld(s, s'); } else { HostHeld(s, s'); }
  }

  lemma InputStepHeld(s: Queue, e: Ev, s': Queue)
    requires Shape(s) && s' == Step(s, HostInput(e))
    ensures HeldStep(s, HostInput(e), s')
  {
    StaysReady(s, HostInput(e));
    if s.host.HIdle? { InputHeld(s, e, s'); }
  }

  lemma EngineStepHeld(s: Queue, prevented: bool, s': Queue)
    requires Shape(s) && s' == EngineStep(s, prevented)
    ensures HeldStep(s, EngineProceeds(prevented), s')
  {
    EngineStaysReady(s, prevented);
    EngineHeld(s, s', prevented);
  }

  lemma QuietStepHeld(s: Queue, a: Action)
    requires a.HostCadence? || a.EngineUp?
    ensures HeldStep(s, a, Step(s, a))
  {
  }

  lemma {:induction false} StepHeld(s: Queue, a: Action, s': Queue)
    requires Shape(s) && s' == Step(s, a)
    ensures HeldStep(s, a, s')
  {
    match a
    case HostInput(e) => InputStepHeld(s, e, s');
    case HostProceeds => HostStepHeld(s, s');
    case EngineProceeds(prevented) => EngineStepHeld(s, prevented, s');
    case _ => QuietStepHeld(s, a);
  }

  /** Leaving out the first `lost` calls, the rest are what the host stands for. */
  ghost predicate AllHeld(calls: seq<Ev>, lost: nat, s: Queue) {
    lost <= |calls| && calls[lost..] == Held(s) && (!s.ready ==> s.sent == [])
  }

  lemma HeldAfter(calls: seq<Ev>, lost: nat, s: Queue, a: Action, s': Queue)
    requires AllHeld(calls, lost, s) && HeldStep(s, a, s')
    ensures AllHeld(calls + CalledBy(s, a), lost + if Refuses(s, a) then 1 else 0, s')
  {
    if Refuses(s, a) {
      assert |calls[lost..]| == 1;
    }
  }

  lemma {:induction false} RunStepHeld(most: seq<Action>, a: Action, s': Queue)
    requires s' == Step(Run(most), a)
    ensures HeldStep(Run(most), a, s')
  {
    RunKeeps(most);
    StepHeld(Run(most), a, s');
  }

  /** No call is lost once main() has started: leaving out the first few, refused
      before that, the events called are exactly those sent and the one in hand. */
  lemma {:induction false} CallsAreHeld(acts: seq<Action>)
    ensures AllHeld(Called(acts), Refusals(acts), Run(acts))
    decreases |acts|
  {
    if acts != [] {
      var most, a := acts[..|acts| - 1], acts[|acts| - 1];
      CallsAreHeld(most);
      RunStepHeld(most, a, Run(acts));
      HeldAfter(Called(most), Refusals(most), Run(most), a, Run(acts));
    }
  }

  /** A run that starts with the engine up loses no call at all. */
  lemma {:induction false} NoneRefusedOnceUp(acts: seq<Action>)
    requires acts != [] && acts[0] == EngineUp
    ensures Refusals(acts) == 0 && Run(acts).ready
    decreases |acts|
  {
    var most := acts[..|acts| - 1];
    StaysReady(Run(most), acts[|acts| - 1]);
    if |acts| > 1 {
      NoneRefusedOnceUp(most);
    } else {
      assert most == [];
    }
  }

  /** What comes out is, in order, the calls with runs of mergeable ones merged, but for
      the first `lost` and the one in progress. */
  ghost predicate Refines(calls: seq<Ev>, lost: nat, s: Queue) {
    && lost + |InHand(s)| <= |calls| && calls[|calls| - |InHand(s)|..] == InHand(s)
    && Coalesces(calls[lost..|calls| - |InHand(s)|], Output(s))
  }

  /** For every interleaving of host calls and engine drains: what has been applied,
      what is about to be and what is queued is, in order, the stream of the page's
      calls with runs of mergeable events merged; only the call in progress is not
      in it yet, nor the calls refused before main() had started; and no thread ever
      touches a batch that has been deleted. */
  lemma {:induction false} AppliedRefinesCalls(acts: seq<Action>)
    ensures Refines(Called(acts), Refusals(acts), Run(acts)) && !Run(acts).fault
  {
    CallsAreHeld(acts);
    SentCoalesces(acts);
    HeldRefines(Called(acts), Refusals(acts), Run(acts));
  }

  lemma {:induction false} SentCoalesces(acts: seq<Action>)
    ensures Coalesces(Run(acts).sent, Output(Run(acts))) && !Run(acts).fault
  {
    RunKeeps(acts);
  }

  lemma HeldRefines(calls: seq<Ev>, lost: nat, s: Queue)
    requires AllHeld(calls, lost, s) && Coalesces(s.sent, Output(s))
    ensures Refines(calls, lost, s)
  {
    SplitHeld(calls, lost, s.sent, InHand(s));
  }

  lemma SplitHeld(calls: seq<Ev>, lost: nat, sent: seq<Ev>, hand: seq<Ev>)
    requires lost <= |calls| && calls[lost..] == sent + hand
    ensures lost + |hand| <= |calls| && calls[|calls| - |hand|..] == hand && calls[lost..|calls| - |hand|] == sent
  {
    assert |calls| == lost + |sent| + |hand|;
    assert calls[|calls| - |hand|..] == calls[lost..][|sent|..];
    assert calls[lost..|calls| - |hand|] == calls[lost..][..|sent|];
  }

  /** So once both threads are idle and the queue is empty, the applied stream is the
      whole stream of accepted calls coalesced, with no distance lost. */
  lemma {:induction false} DrainedIsComplete(acts: seq<Action>)
    requires var s := Run(acts); s.queue == [] && s.host.HIdle? && s.engine.EIdle?
    ensures Refusals(acts) <= |Called(acts)|
    ensures var s, kept := Run(acts), Called(acts)[Refusals(acts)..];
            && Coalesces(kept, s.applied)
            && SumX(kept) == ItemsX(s.applied) && SumY(kept) == ItemsY(s.applied)
  {
    RunKeeps(acts);
    CallsAreHeld(acts);
    var s := Run(acts);
    assert Output(s) == s.applied && s.sent + [] == s.sent;
    DistanceConserved(s.sent, s.applied);
  }

  /** The counters are exact: g_wheelQueued counts the wheel tasks queued, being
      posted or just taken, and at most one tick, pump and readback task exists,
      exactly while its flag is up. */
  lemma {:induction false} CountersAreExact(acts: seq<Action>, c: Cadence)
    ensures var s := Run(acts);
            && s.wheelQueued == Wheels(Live(s)) - (if s.engine.ECounted? then 1 else 0)
            && multiset(Live(s))[TCadence(c)] == (if c in s.queued then 1 else 0)
  {
    RunKeeps(acts);
  }

  /** A batch still open to merging is the newest task there is: no task of any
      kind has been accepted after it. */
  lemma {:induction false} OpenBatchIsNewest(acts: seq<Action>)
    ensures var s := Run(acts);
            && (s.openWheel.Some? ==>
                  Newest(Pending(s), Posting(s.host), TWheel(s.openWheel.value)) && s.openWheel.value in s.heap)
            && (s.openMove.Some? ==>
                  Newest(Pending(s), Posting(s.host), TMove(s.openMove.value)) && s.openMove.value in s.heap)
  {
    RunKeeps(acts);
    var s := Run(acts);
    if s.openWheel.Some? { NewestIsOwned(s, TWheel(s.openWheel.value)); }
    if s.openMove.Some? { NewestIsOwned(s, TMove(s.openMove.value)); }
  }
}
