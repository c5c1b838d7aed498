/** When input is merged and when it is not: a batch is open exactly while its task
    is the newest one pending, so an event makes a batch of its own only when the
    newest task cannot take it. */
module OpenBatches {
  import opened Basics
  import opened Coalescing
  import opened InputQueue

  /** The batch of the newest task, when that is a wheel or a move task. */
  function NewestWheel(ts: seq<Task>): Option<Ptr> {
    if ts != [] && ts[|ts| - 1].TWheel? then Some(ts[|ts| - 1].p) else None
  }

  function NewestMove(ts: seq<Task>): Option<Ptr> {
    if ts != [] && ts[|ts| - 1].TMove? then Some(ts[|ts| - 1].p) else None
  }

  /** Both pointers, given the accepted tasks and the one on offer. */
  ghost predicate OpenAre(openWheel: Option<Ptr>, openMove: Option<Ptr>, pending: seq<Task>, posting: seq<Task>) {
    && openWheel == (if NewestWheel(posting).Some? then NewestWheel(posting) else NewestWheel(pending))
    && openMove == (if NewestMove(posting).Some? then NewestMove(posting) else NewestMove(pending))
  }

  ghost predicate OpenExact(s: Queue) {
    && OpenAre(s.openWheel, s.openMove, Pending(s), Posting(s.host))
    && (s.host.HFailed? ==> Pending(s) == [])
  }

  // ----- every step keeps it -----------------------------------------------------

  lemma SameOpen(s: Queue, s': Queue)
    requires OpenExact(s) && Pending(s') == Pending(s) && Posting(s'.host) == Posting(s.host)
    requires s'.openWheel == s.openWheel && s'.openMove == s.openMove
    requires s'.host.HFailed? ==> Pending(s') == []
    ensures OpenExact(s')
  {
  }

  /** A task is offered: a positional one is published as the open one of its kind. */
  lemma OfferOpen(s: Queue, s': Queue, t: Task)
    requires OpenExact(s) && (s.host.HIdle? || s.host.HNew?) && s'.host == HPost(t)
    requires s'.engine == s.engine && s'.queue == s.queue
    requires s'.openWheel == (if t.TWheel? then Some(t.p) else s.openWheel)
    requires s'.openMove == (if t.TMove? then Some(t.p) else s.openMove)
    ensures OpenExact(s')
  {
    OfferTasks(s, s', t);
  }

  lemma InputOpen(s: Queue, e: Ev, s': Queue)
    requires Shape(s) && OpenExact(s) && s.host.HIdle? && s' == TestAndMerge(s, e)
    ensures OpenExact(s')
  {
    InputOutcome(s, e);
    match Outcome(s, e)
    case Offered(id) => OfferOpen(s, s', TOther(id));
    case Allocates => AllocateShape(s, e); SameOpen(s, s');
    case MergedInto(p) => MergeShape(s, e, p); SameOpen(s, s');
  }

  lemma PublishOpen(s: Queue, e: Ev, s': Queue)
    requires Shape(s) && OpenExact(s) && s.host == HNew(e) && s' == Publish(s, e)
    ensures OpenExact(s')
  {
    OfferOpen(s, s', if e.Wheel? then TWheel(s.next) else TMove(s.next));
  }

  lemma AcceptOpen(s: Queue, t: Task, s': Queue)
    requires Shape(s) && OpenExact(s) && s.host == HPost(t) && s.ready && s' == Accept(s, t)
    ensures OpenExact(s')
  {
    AcceptShape(s, t);
  }

  lemma RefuseOpen(s: Queue, t: Task, s': Queue)
    requires Shape(s) && OpenExact(s) && s.host == HPost(t) && !s.ready && s' == Refuse(s, t)
    ensures OpenExact(s')
  {
    RefuseShape(s, t);
    SameOpen(s, s');
  }

  lemma EnqueueOpen(s: Queue, t: Task, s': Queue)
    requires Shape(s) && OpenExact(s) && s.host == HSealed(t) && s' == Enqueue(s, t)
    ensures OpenExact(s')
  {
    EnqueueShape(s, t);
    SameOpen(s, s');
  }

  lemma UndoOpen(s: Queue, t: Task, s': Queue)
    requires Shape(s) && OpenExact(s) && s.host == HFailed(t) && s' == Undo(s, t)
    ensures OpenExact(s')
  {
    UndoShape(s, t);
  }

  lemma HostOpen(s: Queue, s': Queue)
    requires Shape(s) && OpenExact(s) && s' == HostStep(s)
    ensures OpenExact(s')
  {
    match s.host
    case HIdle =>
    case HNew(e) => assert s' == Publish(s, e); PublishOpen(s, e, s');
    case HPost(t) =>
      if s.ready {
        assert s' == Accept(s, t);
        AcceptOpen(s, t, s');
      } else {
        assert s' == Refuse(s, t);
        RefuseOpen(s, t, s');
      }
    case HSealed(t) => assert s' == Enqueue(s, t); EnqueueOpen(s, t, s');
    case HFailed(t) => assert s' == Undo(s, t); UndoOpen(s, t, s');
  }

  /** The oldest task leaves: only the pointer to its own batch can be affected. */
  lemma OldestLeavesOpen(openWheel: Option<Ptr>, openMove: Option<Ptr>, t: Task, rest: seq<Task>, posting: seq<Task>)
    requires OpenAre(openWheel, openMove, [t] + rest, posting)
    requires Positional(t) ==> t !in rest + posting
    requires |posting| <= 1
    ensures OpenAre(if t.TWheel? && openWheel == Some(t.p) then None else openWheel,
                    if t.TMove? && openMove == Some(t.p) then None else openMove, rest, posting)
  {
    if rest != [] {
      assert ([t] + rest)[|rest|] == rest[|rest| - 1];
    }
    if posting != [] {
      assert posting[0] in rest + posting;
    }
  }

  lemma RetireOpen(s: Queue, s': Queue, t: Task)
    requires OpenExact(s) && EngineTasks(s.engine) == [t] && Retires(s, s', t)
    requires Positional(t) ==> t !in Rest(s) + Posting(s.host)
    ensures OpenExact(s')
  {
    BusyEngine(s, t);
    FreeEngine(s');
    OldestLeavesOpen(s.openWheel, s.openMove, t, Rest(s), Posting(s.host));
  }

  lemma CloseOpen(s: Queue, t: Task)
    requires Shape(s) && OpenExact(s) && AtClose(s, t)
    ensures OpenExact(Close(s, t))
  {
    CloseSafe(s, t);
    CloseRetires(s, t);
    RetireOpen(s, Close(s, t), t);
  }

  lemma PopOpen(s: Queue)
    requires Shape(s) && OpenExact(s) && s.engine.EIdle? && s.queue != []
    ensures OpenExact(Pop(s))
  {
    PopShape(s);
    SameOpen(s, Pop(s));
  }

  lemma CountOpen(s: Queue, p: Ptr)
    requires Shape(s) && OpenExact(s) && s.engine == EPopped(TWheel(p))
    ensures OpenExact(Count(s, p))
  {
    CountShape(s, p);
    SameOpen(s, Count(s, p));
  }

  lemma ApplyOpen(s: Queue, item: Item, prevented: bool)
    requires Shape(s) && OpenExact(s) && s.engine == EClosed(item)
    ensures OpenExact(ApplyItem(s, item, prevented))
  {
    ApplyShape(s, item, prevented);
    SameOpen(s, ApplyItem(s, item, prevented));
  }

  lemma EngineOpen(s: Queue, prevented: bool, s': Queue)
    requires Shape(s) && OpenExact(s) && s' == EngineStep(s, prevented)
    ensures OpenExact(s')
  {
    match s.engine
    case EIdle => if s.queue != [] { PopOpen(s); }
    case EPopped(t) =>
      if t.TWheel? {
        CountOpen(s, t.p);
      } else if t.TMove? {
        CloseOpen(s, t);
      } else {
        RetireOpen(s, Finish(s, t), t);
      }
    case ECounted(p) => CloseOpen(s, TWheel(p));
    case EClosed(item) => ApplyOpen(s, item, prevented);
  }

  lemma {:induction false} StepOpen(s: Queue, a: Action, s': Queue)
    requires Shape(s) && OpenExact(s) && s' == Step(s, a)
    ensures OpenExact(s')
  {
    match a
    case HostInput(e) => if s.host.HIdle? { InputOpen(s, e, s'); }
    case HostCadence(c) => if s.host.HIdle? && c !in s.queued { OfferOpen(s, s', TCadence(c)); }
    case HostProceeds => HostOpen(s, s');
    case EngineUp => UpShape(s); SameOpen(s, s');
    case EngineProceeds(prevented) => EngineOpen(s, prevented, s');
  }

  lemma {:induction false} RunOpen(acts: seq<Action>)
    ensures OpenExact(Run(acts))
    decreases |acts|
  {
    if acts != [] {
      RunOpen(acts[..|acts| - 1]);
      RunKeeps(acts[..|acts| - 1]);
      StepOpen(Run(acts[..|acts| - 1]), acts[|acts| - 1], Run(acts));
    }
  }

  // ----- the theorems about runs ---------------------------------------------------

  /** A batch stays open as long as nothing comes after it and the engine has not
      closed it: in any run, while the host is not posting, each pointer is the
      batch of the newest pending task if that task is of its kind, and null if
      it is not. */
  lemma {:induction false} OpenIsExactlyNewest(acts: seq<Action>)
    requires Posting(Run(acts).host) == []
    ensures var s := Run(acts); s.openWheel == NewestWheel(Pending(s)) && s.openMove == NewestMove(Pending(s))
  {
    RunOpen(acts);
  }

  /** The newest pending task is a batch of e's kind that may take e: same
      modifiers, and for a wheel no reversal, the same dominant axis, and the last
      wheel not consumed by the page. */
  ghost predicate Joins(s: Queue, e: Ev) {
    && Pending(s) != []
    && var t := Pending(s)[|Pending(s)| - 1];
       && Positional(t) && t.TWheel? == e.Wheel? && t.p in s.heap && Mergeable(s.heap[t.p], e)
       && (e.Wheel? ==> !s.consumed)
  }

  lemma JoinsIsOutcome(s: Queue, e: Ev)
    requires Shape(s) && OpenExact(s) && s.host.HIdle? && !e.Other?
    ensures match Outcome(s, e)
            case MergedInto(p) => Joins(s, e)
            case Allocates => !Joins(s, e)
            case Offered(_) => false
  {
    IdleHost(s);
    IdleOpen(s);
    if Pending(s) != [] { NewestIsOwned(s, Pending(s)[|Pending(s)| - 1]); }
  }

  lemma IdleOpen(s: Queue)
    requires OpenExact(s) && Posting(s.host) == []
    ensures s.openWheel == NewestWheel(Pending(s)) && s.openMove == NewestMove(Pending(s))
  {
  }

  /** No event is split off that could have been merged.  In any run with the host
      between calls, a wheel or move call that can join the newest pending task does:
      it is sent, absorbed by the last item of the output, and no task is made.
      Any other call makes a batch of its own. */
  lemma {:induction false} MergesWhenItCan(acts: seq<Action>, e: Ev)
    requires Run(acts).host.HIdle? && !e.Other?
    ensures var s, s' := Run(acts), Run(acts + [HostInput(e)]);
            && (Joins(s, e) ==>
                  s'.host.HIdle? && Pending(s') == Pending(s) && Grows(Absorbs(e), s.sent, Output(s), s'.sent, Output(s')))
            && (!Joins(s, e) ==> s' == s.(host := HNew(e)))
  {
    var s := Run(acts);
    assert (acts + [HostInput(e)])[..|acts|] == acts;
    RunKeeps(acts);
    RunOpen(acts);
    JoinsIsOutcome(s, e);
    InputOutcome(s, e);
    if Outcome(s, e).MergedInto? {
      Absorbed(s, e, Outcome(s, e).p);
    }
  }

  lemma Absorbed(s: Queue, e: Ev, p: Ptr)
    requires Shape(s) && s.host.HIdle? && !e.Other?
    requires (if e.Wheel? then s.openWheel else s.openMove) == Some(p) && p in s.heap && Mergeable(s.heap[p], e)
    ensures var s' := MergeInto(s, e, p);
            Pending(s') == Pending(s) && Grows(Absorbs(e), s.sent, Output(s), s'.sent, Output(s'))
  {
    var base := MergeGrows(s, e, p);
    AbsorbLast(base, s.heap[p], e);
    MergeShape(s, e, p);
  }

  /** The page's answer to the last wheel of a run that it handled. */
  function LastAnswer(acts: seq<Action>): bool
    decreases |acts|
  {
    if acts == [] then false
    else
      var most, a := acts[..|acts| - 1], acts[|acts| - 1];
      if AnswersWheel(Run(most), a) then a.prevented else LastAnswer(most)
  }

  predicate AnswersWheel(s: Queue, a: Action) { a.EngineProceeds? && s.engine.EClosed? && s.engine.item.WheelBatch? }

  lemma HostKeepsConsumed(s: Queue)
    ensures HostStep(s).consumed == s.consumed
  {
  }

  lemma CloseKeepsConsumed(s: Queue, t: Task)
    requires Positional(t)
    ensures Close(s, t).consumed == s.consumed
  {
  }

  lemma EngineConsumed(s: Queue, prevented: bool)
    ensures EngineStep(s, prevented).consumed ==
            if AnswersWheel(s, EngineProceeds(prevented)) then prevented else s.consumed
  {
    match s.engine
    case EIdle =>
    case EPopped(t) => if t.TMove? { CloseKeepsConsumed(s, t); }
    case ECounted(p) => CloseKeepsConsumed(s, TWheel(p));
    case EClosed(item) =>
  }

  /** Wheels are held apart only while the page consumes them: in any run the flag
      that stops merging is the page's answer to the last wheel it handled. */
  lemma {:induction false} ConsumedIsLastAnswer(acts: seq<Action>)
    ensures Run(acts).consumed == LastAnswer(acts)
    decreases |acts|
  {
    if acts != [] {
      var s := Run(acts[..|acts| - 1]);
      ConsumedIsLastAnswer(acts[..|acts| - 1]);
      match acts[|acts| - 1]
      case EngineProceeds(prevented) => EngineConsumed(s, prevented);
      case HostProceeds => HostKeepsConsumed(s);
      case _ =>
    }
  }
}
