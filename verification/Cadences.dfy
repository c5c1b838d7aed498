/** The queue moves: ticks, pumps and readbacks are posted when asked for, and an
    engine left to run applies everything that was accepted. */
module Cadences {
  import opened Basics
  import opened Coalescing
  import opened InputQueue
  import opened Bursts

  // ----- ticks, pumps and readbacks ---------------------------------------------------

  function AfterCadence(s: Queue, c: Cadence): Queue { HostStep(HostStep(Step(s, HostCadence(c)))) }

  lemma {:induction false} CadenceRuns(acts: seq<Action>, c: Cadence)
    ensures Run(acts + [HostCadence(c)] + [HostProceeds] + [HostProceeds]) == AfterCadence(Run(acts), c)
  {
    RunAction(acts, HostCadence(c));
    RunAction(acts + [HostCadence(c)], HostProceeds);
    RunAction(acts + [HostCadence(c)] + [HostProceeds], HostProceeds);
  }

  lemma PostsCadence(s: Queue, c: Cadence, offered: Queue, t: Task)
    requires Shape(s) && s.host.HIdle? && s.ready && c !in s.queued && t == TCadence(c) && offered == OfferCadence(s, c)
    ensures var s' := Enqueue(Accept(offered, t), t);
            && Pending(s') == Pending(s) + [t] && s'.queued == s.queued + {c} && s'.host.HIdle? && s'.sent == s.sent
  {
    CadenceShape(s, c);
    OfferTasks(s, offered, t);
    AcceptedTask(offered, t, Accept(offered, t));
    PostedFields(s, c, offered, t);
  }

  lemma AcceptedTask(offered: Queue, t: Task, accepted: Queue)
    requires Shape(offered) && offered.host == HPost(t) && offered.ready && accepted == Accept(offered, t)
    ensures Pending(Enqueue(accepted, t)) == Pending(offered) + [t]
  {
    AcceptShape(offered, t);
    EnqueueShape(accepted, t);
  }

  lemma PostedFields(s: Queue, c: Cadence, offered: Queue, t: Task)
    requires t == TCadence(c) && offered == OfferCadence(s, c)
    ensures var s' := Enqueue(Accept(offered, t), t);
            s'.queued == s.queued + {c} && s'.host.HIdle? && s'.sent == s.sent
  {
    assert s.sent + [] == s.sent;
  }

  lemma CadenceSteps(s: Queue, c: Cadence)
    requires s.host.HIdle? && s.ready
    ensures AfterCadence(s, c) == if c in s.queued then s else Enqueue(Accept(OfferCadence(s, c), TCadence(c)), TCadence(c))
  {
  }

  /** A call of bib_tick, bib_pump or bib_request_readback, with the engine up: in any
      run, it posts its task as the newest, unless one is pending already. */
  lemma {:induction false} CadenceIsPosted(acts: seq<Action>, c: Cadence)
    requires Run(acts).host.HIdle? && Run(acts).ready
    ensures var s, s' := Run(acts), Run(acts + [HostCadence(c)] + [HostProceeds] + [HostProceeds]);
            if c in s.queued then s' == s && TCadence(c) in Pending(s)
            else Pending(s') == Pending(s) + [TCadence(c)] && c in s'.queued && s'.host.HIdle? && s'.sent == s.sent
  {
    RunKeeps(acts);
    CadenceRuns(acts, c);
    CadenceSteps(Run(acts), c);
    if c in Run(acts).queued { FlagHasTask(Run(acts), c); }
    else { PostsCadence(Run(acts), c, OfferCadence(Run(acts), c), TCadence(c)); }
  }

  lemma FlagHasTask(s: Queue, c: Cadence)
    requires Shape(s) && s.host.HIdle? && c in s.queued
    ensures TCadence(c) in Pending(s)
  {
    IdleHost(s);
    assert multiset(Live(s))[TCadence(c)] == 1;
  }

  // ----- draining -------------------------------------------------------------------------

  /** The steps the engine still has to take. */
  function Work(s: Queue): nat {
    4 * |s.queue| + match s.engine
                    case EIdle => 0
                    case EPopped(_) => 3
                    case ECounted(_) => 2
                    case EClosed(_) => 1
  }

  function EngineAlone(n: nat): seq<Action> {
    if n == 0 then [] else EngineAlone(n - 1) + [EngineProceeds(false)]
  }

  predicate Less(s: Queue, s': Queue) { Work(s') < Work(s) && s'.host == s.host }

  lemma CloseWorks(s: Queue, t: Task)
    requires Shape(s) && AtClose(s, t)
    ensures Less(s, Close(s, t))
  {
    CloseSafe(s, t);
  }

  lemma PopWorks(s: Queue)
    requires s.engine.EIdle? && s.queue != []
    ensures Less(s, Pop(s))
  {
  }

  lemma CountWorks(s: Queue, p: Ptr)
    requires s.engine == EPopped(TWheel(p))
    ensures Less(s, Count(s, p))
  {
  }

  lemma FinishWorks(s: Queue, t: Task)
    requires s.engine == EPopped(t)
    ensures Less(s, Finish(s, t))
  {
  }

  lemma ApplyWorks(s: Queue, item: Item)
    requires s.engine == EClosed(item)
    ensures Less(s, ApplyItem(s, item, false))
  {
  }

  lemma StepWorks(s: Queue, s': Queue)
    requires Shape(s) && s' == EngineStep(s, false)
    ensures if Work(s) > 0 then Less(s, s') else s' == s
  {
    match s.engine
    case EIdle => if s.queue != [] { PopWorks(s); }
    case EPopped(t) =>
      if t.TWheel? { CountWorks(s, t.p); } else if t.TMove? { CloseWorks(s, t); } else { FinishWorks(s, t); }
    case ECounted(p) => CloseWorks(s, TWheel(p));
    case EClosed(item) => ApplyWorks(s, item);
  }

  /** From s to s' only the engine worked, for n steps. */
  ghost predicate Worked(s: Queue, s': Queue, n: nat) {
    && s'.host == s.host && Output(s') == Output(s) && s'.sent == s.sent
    && Work(s') <= (if n <= Work(s) then Work(s) - n else 0)
  }

  lemma WorkedMore(s: Queue, s1: Queue, s2: Queue, n: nat)
    requires Shape(s1) && Worked(s, s1, n) && s2 == EngineStep(s1, false)
    ensures Worked(s, s2, n + 1)
  {
    StepWorks(s1, s2);
    EngineGrows(s1, false);
  }

  lemma WorkedNone(s: Queue)
    ensures Worked(s, s, 0)
  {
  }

  lemma {:induction false} EngineWorks(acts: seq<Action>, n: nat, s: Queue, s': Queue)
    requires s == Run(acts) && s' == Run(acts + EngineAlone(n))
    ensures Worked(s, s', n)
    decreases n
  {
    if n == 0 {
      NoneAlone(acts);
      WorkedNone(s);
    } else {
      var s1 := Run(acts + EngineAlone(n - 1));
      EngineWorks(acts, n - 1, s, s1);
      RunKeeps(acts + EngineAlone(n - 1));
      EngineRuns(acts, n);
      WorkedMore(s, s1, s', n - 1);
    }
  }

  lemma {:induction false} NoneAlone(acts: seq<Action>)
    ensures Run(acts + EngineAlone(0)) == Run(acts)
  {
    assert acts + EngineAlone(0) == acts;
  }

  lemma {:induction false} EngineRuns(acts: seq<Action>, n: nat)
    requires n > 0
    ensures Run(acts + EngineAlone(n)) == EngineStep(Run(acts + EngineAlone(n - 1)), false)
  {
    RunAction(acts + EngineAlone(n - 1), EngineProceeds(false));
    assert acts + EngineAlone(n) == acts + EngineAlone(n - 1) + [EngineProceeds(false)];
  }

  lemma NothingLeft(s: Queue)
    requires s.host.HIdle? && Work(s) == 0
    ensures s.queue == [] && s.engine.EIdle? && Output(s) == s.applied
  {
    assert Pending(s) == [];
  }

  /** What is accepted is applied: in any run, with the host between calls, the engine
      left to itself for a bounded number of steps empties the queue, and has then
      applied all the output, merged as it was. */
  lemma {:induction false} EngineDrains(acts: seq<Action>)
    requires Run(acts).host.HIdle?
    ensures var s, s' := Run(acts), Run(acts + EngineAlone(Work(Run(acts))));
            s'.queue == [] && s'.engine.EIdle? && s'.applied == Output(s) && s'.sent == s.sent
  {
    var s' := Run(acts + EngineAlone(Work(Run(acts))));
    EngineWorks(acts, Work(Run(acts)), Run(acts), s');
    NothingLeft(s');
  }
}
