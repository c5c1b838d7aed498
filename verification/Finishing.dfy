/** That loads end, and how: a load is told it has finished exactly when the body is
    complete and its response handled, and that it has failed exactly when it heard
    of a failure. */
module Finishing {
  import opened Basics
  import opened ResourceLoad
  import opened LoadSafety
  import opened LoadExact
  import opened Network
  import opened HostFetch
  import opened Delivery
  import Acknowledgements

  /** The host answered the request with a response for the loader: one that parses, or
      a 3xx that is none to follow. */
  predicate Answers(m: Msg) {
    (m.Response? && m.ok) || (m.Redirect? && m.ok && !ShouldRedirect(m.status, m.location))
  }

  predicate Answered(said: seq<Msg>) { said != [] && Answers(said[0]) }

  /** It answered with one that does not parse. */
  predicate Unparsed(said: seq<Msg>) { said != [] && said[0].Response? && !said[0].ok }

  predicate ToldResponse(l: Load) { DidReceiveResponse in l.calls }

  /** Where a load that has its loader stands, given what the host said for its hop. */
  ghost predicate Stands(l: Load, said: seq<Msg>) {
    l.hasLoader ==>
      && (ToldResponse(l) <==> Answered(said))
      && (if Answered(said) then l.responseCompleted <==> l.handlers == 0 else !l.responseCompleted && l.handlers == 0)
      && (Finishes(l.calls) > 0 <==> Completed(said) && l.responseCompleted)
      && (Completed(said) && !l.responseCompleted ==> Unparsed(said) || (l.pendingComplete && l.hasDone))
      && (!l.hasDone && Finishes(l.calls) == 0 ==> Unparsed(said) || (PhaseAfter(Sent, said) == Closed && !Completed(said)))
  }

  lemma FirstSaid(said: seq<Msg>, m: Msg)
    ensures said == [] ==> Answered(said + [m]) == Answers(m) && Unparsed(said + [m]) == (m.Response? && !m.ok)
    ensures said != [] ==> Answered(said + [m]) == Answered(said) && Unparsed(said + [m]) == Unparsed(said)
    ensures Completed(said + [m]) == Completes(m) && PhaseAfter(Sent, said + [m]) == After(PhaseAfter(Sent, said), m)
  {
    ChunksMore(said, m);
    OneMore(Sent, said, m);
  }

  /** An open load with a live request, before its next message. */
  ghost predicate Listening(x: Ctx, c: ClientId, said: seq<Msg>) {
    && Safe(x, c) && Exact(x.l, PhaseAfter(Sent, said)) && Stands(x.l, said) && x.l.requestId != 0
    && (PhaseAfter(Sent, said) == Sent ==> said == [])
  }

  lemma ListeningIsOpen(x: Ctx, c: ClientId, said: seq<Msg>)
    requires Listening(x, c, said)
    ensures Open(x.l) && !x.l.pendingComplete && x.l.decisions == 0 && Finishes(x.l.calls) == 0
    ensures PhaseAfter(Sent, said) == Sent ==> Blank(x.l)
  {
    OpenUnfinished(x.l);
  }

  // ----- what each message makes of it ------------------------------------------------

  /** Told of a response, the loader has handled it or owes the answer. */
  lemma ToLoaderStands(x: Ctx, c: ClientId, a: Answer)
    requires Safe(x, c) && BodyExact(x.l) && Open(x.l) && Blank(x.l) && x.l.decisions == 0
    ensures var l' := ToLoader(x, a).l;
            && Finishes(l'.calls) == 0 && ToldResponse(l')
            && (l'.hasLoader ==> l'.hasDone && !l'.pendingComplete && (l'.responseCompleted <==> l'.handlers == 0))
  {
    OpenUnfinished(x.l);
    ToLoaderExact(x, c, a);
    ToLoaderFinishes(x, c, a);
    ToLoaderTells(x, a);
  }

  lemma {:induction false} DeliverTells(x: Ctx, bufs: seq<seq<Byte>>, cancelAt: nat)
    ensures ToldResponse(Deliver(x, bufs, cancelAt).l) <==> ToldResponse(x.l)
    decreases |bufs|
  {
    if bufs != [] && x.l.hasLoader {
      var called := Called(x, DidReceiveBuffer(bufs[0]));
      DeliverTells(RemoveIf(called, cancelAt == 0), bufs[1..], if cancelAt == 0 then 0 else cancelAt - 1);
    }
  }

  lemma HandledTells(x: Ctx, a: Answer)
    ensures ToldResponse(ResponseHandled(x, a).l) <==> ToldResponse(x.l)
  {
    DeliverTells(x.(l := x.l.(responseCompleted := true, queued := [])), x.l.queued, a.cancelAt);
  }

  lemma ToLoaderTells(x: Ctx, a: Answer)
    ensures ToldResponse(ToLoader(x, a).l)
  {
    var told := RemoveIf(Called(x, DidReceiveResponse), a.cancelFirst);
    assert ToldResponse(told.l);
    HandledTells(told, a);
  }

  lemma ResponseStands(x: Ctx, c: ClientId, m: Msg, a: Answer, said: seq<Msg>)
    requires Listening(x, c, said) && m.Response? && m.ok && PhaseAfter(Sent, said) == Sent
    ensures Stands(OnResponse(x, a).l, said + [m])
  {
    ListeningIsOpen(x, c, said);
    FirstSaid(said, m);
    ToLoaderStands(x, c, a);
  }

  lemma DataStands(x: Ctx, c: ClientId, m: Msg, a: Answer, said: seq<Msg>)
    requires Listening(x, c, said) && m.Data? && PhaseAfter(Sent, said) == Streaming
    ensures Stands(OnData(x, m.bytes, a).l, said + [m])
  {
    ListeningIsOpen(x, c, said);
    FirstSaid(said, m);
    CallsAppend(x.l.calls, DidReceiveBuffer(m.bytes));
    var got := WithChunk(x, m);
    RemoveKeeps(Called(got, DidReceiveBuffer(m.bytes)), a.cancelFirst);
  }

  lemma FailStands(x: Ctx, c: ClientId, m: Msg, said: seq<Msg>)
    requires Listening(x, c, said) && (m.Fail? || (m.Redirect? && !m.ok) || (m.Response? && !m.ok))
    requires Legal(PhaseAfter(Sent, said), m)
    ensures Stands(OnFail(Ended(x)).l, said + [m])
  {
    ListeningIsOpen(x, c, said);
    FirstSaid(said, m);
    FailEnds(Ended(x));
  }

  lemma DoneStands(x: Ctx, c: ClientId, m: Msg, said: seq<Msg>)
    requires Listening(x, c, said) && m.Done? && PhaseAfter(Sent, said) == Streaming
    ensures Stands(OnComplete(Ended(x)).l, said + [m])
  {
    ListeningIsOpen(x, c, said);
    FirstSaid(said, m);
    CallsAppend(x.l.calls, DidFinishLoading);
  }

  lemma SurfacedStands(x: Ctx, c: ClientId, m: Msg, a: Answer, said: seq<Msg>)
    requires Listening(x, c, said) && m.Redirect? && m.ok && !ShouldRedirect(m.status, m.location)
    requires PhaseAfter(Sent, said) == Sent
    ensures Stands(OnComplete(ToLoader(Ended(x), a)).l, said + [m])
  {
    var told := ToLoader(Ended(x), a);
    ListeningIsOpen(x, c, said);
    EndedFine(x, c);
    FirstSaid(said, m);
    ToLoaderStands(Ended(x), c, a);
    CallsAppend(told.l.calls, DidFinishLoading);
  }

  /** Asking about a redirect leaves all this alone, unless a new hop begins. */
  lemma AskStands(x: Ctx, c: ClientId, a: Answer)
    requires x.l.hop <= x.b.lastId
    ensures var l' := Ask(x, c, a).l;
            (l'.hop == x.l.hop ==> SameStanding(x.l, l')) && (ToldResponse(l') <==> ToldResponse(x.l))
  {
    CallsAppend(x.l.calls, WillSendRequest);
    var asked := RemoveIf(Called(x, WillSendRequest), a.cancelFirst);
    RemoveKeeps(Called(x, WillSendRequest), a.cancelFirst);
    if a.now { DecidedStands(asked, c, a.allow); }
    RemoveKeeps(Decide(asked, c, a), a.cancelLast);
  }

  predicate SameStanding(l: Load, l': Load) {
    && l'.responseCompleted == l.responseCompleted && l'.handlers == l.handlers && l'.pendingComplete == l.pendingComplete
    && Finishes(l'.calls) == Finishes(l.calls) && (l'.hasLoader ==> l.hasLoader) && (l'.hasDone ==> l.hasDone)
  }

  lemma DecidedStands(x: Ctx, c: ClientId, allow: bool)
    requires x.l.hop <= x.b.lastId
    ensures Decided(x, c, allow).l.hop == x.l.hop ==> SameStanding(x.l, Decided(x, c, allow).l)
    ensures Decided(x, c, allow).l.calls == x.l.calls
  {
  }

  lemma RedirectStands(x: Ctx, c: ClientId, m: Msg, a: Answer, said: seq<Msg>)
    requires Listening(x, c, said) && m.Redirect? && m.ok && ShouldRedirect(m.status, m.location)
    requires PhaseAfter(Sent, said) == Sent
    ensures var l' := PerformRedirect(Ended(x), c, m.httpFamily, a).l;
            (l'.hop == x.l.hop ==> Stands(l', said + [m])) && (l'.hasLoader ==> !ToldResponse(l'))
  {
    var ended := Ended(x);
    var counted := ended.(l := ended.l.(redirectCount := ended.l.redirectCount + 1));
    ListeningIsOpen(x, c, said);
    FirstSaid(said, m);
    RedirectIs(ended, counted, c, m.httpFamily, a);
    FailEnds(counted);
    AskStands(counted, c, a);
  }

  lemma HeardStands(x: Ctx, c: ClientId, m: Msg, a: Answer, said: seq<Msg>)
    requires Listening(x, c, said) && Legal(PhaseAfter(Sent, said), m)
    ensures var l' := Dispatch(x, c, x.l.requestId, m, a).l;
            (l'.hop == x.l.hop ==> Stands(l', said + [m])) && (l'.hop != x.l.hop && l'.hasLoader ==> !ToldResponse(l'))
  {
    ListeningIsOpen(x, c, said);
    if m.Data? {
      DataStands(x, c, m, a, said);
    } else if m.Response? && m.ok {
      ResponseStands(x, c, m, a, said);
    } else {
      TerminalIs(x, c, m, a);
      if m.Done? {
        DoneStands(x, c, m, said);
      } else if m.Redirect? && m.ok {
        RedirectedIs(Ended(x), c, m, a);
        if ShouldRedirect(m.status, m.location) { RedirectStands(x, c, m, a, said); } else { SurfacedStands(x, c, m, a, said); }
      } else {
        FailStands(x, c, m, said);
      }
    }
  }

  // ----- what the loader's late answers make of it -----------------------------------

  /** A handler that runs late completes the response; with the body complete it ends
      the load. */
  lemma HandlerRan(x: Ctx, c: ClientId, a: Answer)
    requires Safe(x, c) && x.l.hasLoader
    ensures var l' := ResponseHandled(x, a).l;
            && l'.handlers == x.l.handlers && (ToldResponse(l') <==> ToldResponse(x.l))
            && (l'.hasLoader ==> l'.responseCompleted)
            && (l'.hasLoader && x.l.pendingComplete ==> Finishes(l'.calls) > 0)
            && (l'.hasLoader && !x.l.pendingComplete ==>
                  l'.hasDone == x.l.hasDone && !l'.pendingComplete && Finishes(l'.calls) == Finishes(x.l.calls))
  {
    var start := x.(l := x.l.(responseCompleted := true, queued := []));
    var flushed := Deliver(start, x.l.queued, a.cancelAt);
    DeliverFine(start, c, x.l.queued, a.cancelAt);
    DeliverHandsOver(start, x.l.queued, a.cancelAt);
    HandledTells(x, a);
    CallsAppend(flushed.l.calls, DidFinishLoading);
  }

  lemma LateHandlerStands(x: Ctx, c: ClientId, a: Answer, said: seq<Msg>, ph: Phase)
    requires Safe(x, c) && Exact(x.l, ph) && HopSays(x.l, said) && Stands(x.l, said)
    ensures Stands(LateHandler(x, a).l, said)
  {
    if x.l.handlers > 0 && x.l.hasLoader {
      var fewer := x.(l := x.l.(handlers := x.l.handlers - 1));
      HandlerRan(fewer, c, a);
      RemoveKeeps(ResponseHandled(fewer, a), a.cancelLast);
    } else if x.l.handlers > 0 {
      var fewer := x.(l := x.l.(handlers := x.l.handlers - 1));
      HandledFinishes(fewer, c, a);
      RemoveKeeps(ResponseHandled(fewer, a), a.cancelLast);
    }
  }

  lemma LateDecisionStands(x: Ctx, c: ClientId, a: Answer, said: seq<Msg>, ph: Phase)
    requires Safe(x, c) && HopSays(x.l, said) && Stands(x.l, said) && Exact(x.l, ph)
    ensures var l' := LateDecision(x, c, a).l;
            (l'.hop == x.l.hop ==> Stands(l', said)) && (l'.hop != x.l.hop && l'.hasLoader ==> !ToldResponse(l'))
  {
    if x.l.decisions > 0 && x.l.hasLoader {
      OpenUnfinished(x.l);
      assert Blank(x.l);
      DecidedStands(x.(l := x.l.(decisions := x.l.decisions - 1)), c, a.allow);
    }
  }

  /** One event of load c. */
  lemma StepStands(x: Ctx, c: ClientId, ev: Event, said: seq<Msg>)
    requires Safe(x, c) && HopSays(x.l, said) && Exact(x.l, PhaseAfter(Sent, said)) && Stands(x.l, said)
    requires Brings(x, c, ev) ==> Legal(PhaseAfter(Sent, said), ev.m)
    ensures var l' := Step(x, c, ev).l;
            Stands(l', if l'.hop == x.l.hop then said + BroughtTo(x, c, ev) else [])
  {
    var l' := Step(x, c, ev).l;
    if l'.hop != x.l.hop {
      NewHopTells(x, c, ev, said);
      NewHopStands(x, c, ev, PhaseAfter(Sent, said));
    } else if Brings(x, c, ev) {
      if PhaseAfter(Sent, said) == Sent { SentIsSilent(said); }
      HeardStands(x, c, ev.m, ev.a, said);
    } else {
      assert said + [] == said;
      match ev
      case Hears(id, m, a) =>
      case Handled(a) => LateHandlerStands(x, c, a, said, PhaseAfter(Sent, said));
      case PolicyDecides(a) => LateDecisionStands(x, c, a, said, PhaseAfter(Sent, said));
      case Cancels =>
    }
  }

  lemma NewHopTells(x: Ctx, c: ClientId, ev: Event, said: seq<Msg>)
    requires Safe(x, c) && HopSays(x.l, said) && Exact(x.l, PhaseAfter(Sent, said)) && Stands(x.l, said)
    requires (Brings(x, c, ev) ==> Legal(PhaseAfter(Sent, said), ev.m)) && Step(x, c, ev).l.hop != x.l.hop
    ensures Step(x, c, ev).l.hasLoader ==> !ToldResponse(Step(x, c, ev).l)
  {
    match ev
    case Hears(id, m, a) =>
      if Brings(x, c, ev) {
        if PhaseAfter(Sent, said) == Sent { SentIsSilent(said); }
        HeardStands(x, c, m, a, said);
      }
    case Handled(a) => LateHandlerEnds(x, c, a, PhaseAfter(Sent, said));
    case PolicyDecides(a) => LateDecisionStands(x, c, a, said, PhaseAfter(Sent, said));
    case Cancels =>
  }

  lemma NewHopStands(x: Ctx, c: ClientId, ev: Event, ph: Phase)
    requires Safe(x, c) && Exact(x.l, ph) && (Brings(x, c, ev) ==> Legal(ph, ev.m)) && Step(x, c, ev).l.hop != x.l.hop
    requires Step(x, c, ev).l.hasLoader ==> !ToldResponse(Step(x, c, ev).l)
    ensures Stands(Step(x, c, ev).l, [])
  {
    var l' := Step(x, c, ev).l;
    StepEndsAll(x, c, ev, ph);
    StepFine(x, c, ev);
    NewHopExact(x, c, ev, ph);
    OpenUnfinished(l');
  }

  /** The phase of a hop that has just begun. */
  lemma NewHopExact(x: Ctx, c: ClientId, ev: Event, ph: Phase)
    requires Safe(x, c) && Exact(x.l, ph) && (Brings(x, c, ev) ==> Legal(ph, ev.m))
    requires Step(x, c, ev).l.hop != x.l.hop && Step(x, c, ev).l.hop > x.b.lastId
    requires Step(x, c, ev).l.hasLoader ==> Step(x, c, ev).l.requestId == Step(x, c, ev).l.hop
    ensures BodyExact(Step(x, c, ev).l)
    ensures Step(x, c, ev).l.hasLoader ==> Blank(Step(x, c, ev).l)
  {
    match ev
    case Hears(id, m, a) => if Brings(x, c, ev) { HeardExact(x, c, m, a, ph); }
    case Handled(a) => LateExact(x, c, a, ph);
    case PolicyDecides(a) => DecisionExact(x, c, a, ph);
    case Cancels => RemoveExact(x, c, ph);
  }

  // ----- over whole runs ----------------------------------------------------------------

  ghost predicate AllStand(evs: seq<NetEvent>) {
    forall c :: c in NetRun(evs).loads ==> Stands(NetRun(evs).loads[c], Said(evs, NetRun(evs).loads[c].hop))
  }

  /** A message that does not reach the load: it has ended, by a response that does not
      parse or by its loader. */
  lemma UnheardStands(n: Net, c: ClientId, m: Msg, said: seq<Msg>)
    requires NetSafe(n) && c in n.loads && HopSays(n.loads[c], said) && Stands(n.loads[c], said)
    requires Legal(PhaseAfter(Sent, said), m) && n.loads[c].hop !in n.b.registry
    ensures Stands(n.loads[c], said + [m])
  {
    var l := n.loads[c];
    assert Safe(Ctx(n.b, l), c);
    FirstSaid(said, m);
    if Finishes(l.calls) > 0 { SaidClosed(said); }
  }

  lemma OwnStands(n: Net, e: NetEvent, c: ClientId, said: seq<Msg>)
    requires NetSafe(n) && NetExact(n) && Orderly(n, e) && c in n.loads && About(n, e, c)
    requires HopSays(n.loads[c], said) && Stands(n.loads[c], said)
    requires PhaseOf(n.phases, n.loads[c].hop) == PhaseAfter(Sent, said)
    ensures c in NetStep(n, e).loads
    ensures var l, l' := n.loads[c], NetStep(n, e).loads[c];
            && Stands(l', if l'.hop == l.hop then said + (if e.Says? then [e.m] else []) else [])
            && (e.Says? ==> e.id == l.hop) && (l'.hop == l.hop || l'.hop > n.b.lastId)
  {
    var x := Ctx(n.b, n.loads[c]);
    assert Safe(x, c);
    PhaseOfHop(n, x.l, c, said);
    StepFine(x, c, AsSeen(e));
    StepStands(x, c, AsSeen(e), said);
  }

  lemma {:induction false} OwnRunStands(evs: seq<NetEvent>, e: NetEvent, c: ClientId, n': Net)
    requires OrderlyRun(evs) && Orderly(NetRun(evs), e) && AllStand(evs) && n' == NetStep(NetRun(evs), e)
    requires c in NetRun(evs).loads && About(NetRun(evs), e, c)
    ensures c in n'.loads && Stands(n'.loads[c], SaidWith(Said(evs, n'.loads[c].hop), e, n'.loads[c].hop))
  {
    var n := NetRun(evs);
    var hop := n.loads[c].hop;
    RunIsExact(evs);
    RunAllSays(evs);
    PhaseIsSaid(evs, hop);
    OwnStands(n, e, c, Said(evs, hop));
    NextStands(evs, e, hop, n'.loads[c]);
  }

  lemma {:induction false} NextStands(evs: seq<NetEvent>, e: NetEvent, hop: nat, l': Load)
    requires OrderlyRun(evs) && (e.Says? ==> e.id == hop) && (l'.hop == hop || l'.hop > NetRun(evs).b.lastId)
    requires Stands(l', if l'.hop == hop then Said(evs, hop) + (if e.Says? then [e.m] else []) else [])
    ensures Stands(l', SaidWith(Said(evs, l'.hop), e, l'.hop))
  {
    if l'.hop != hop { UnbegunIsSilent(evs, l'.hop); }
    assert Said(evs, hop) + [] == Said(evs, hop);
  }

  lemma {:induction false} OtherRunStands(evs: seq<NetEvent>, e: NetEvent, c: ClientId)
    requires OrderlyRun(evs) && Orderly(NetRun(evs), e) && AllStand(evs)
    requires c in NetRun(evs).loads && !About(NetRun(evs), e, c)
    ensures var l := NetRun(evs).loads[c]; Stands(l, SaidWith(Said(evs, l.hop), e, l.hop))
  {
    var n := NetRun(evs);
    var l := n.loads[c];
    RunIsExact(evs);
    RunAllSays(evs);
    PhaseIsSaid(evs, l.hop);
    if e.Says? && e.id == l.hop {
      HopUnheard(evs, e, c);
      UnheardStands(n, c, e.m, Said(evs, l.hop));
    }
  }

  lemma {:induction false} HopUnheard(evs: seq<NetEvent>, e: NetEvent, c: ClientId)
    requires c in NetRun(evs).loads && !About(NetRun(evs), e, c) && e.Says? && e.id == NetRun(evs).loads[c].hop
    ensures e.id !in NetRun(evs).b.registry
  {
    Acknowledgements.RunAcks(evs);
    assert Acknowledgements.HopIsOwn(NetRun(evs).b, NetRun(evs).loads[c].hop, c);
  }

  lemma {:induction false} StepAllStand(evs: seq<NetEvent>, e: NetEvent, c: ClientId, n': Net)
    requires OrderlyRun(evs) && Orderly(NetRun(evs), e) && AllStand(evs)
    requires n' == NetStep(NetRun(evs), e) && c in n'.loads
    ensures Stands(n'.loads[c], SaidWith(Said(evs, n'.loads[c].hop), e, n'.loads[c].hop))
  {
    var n := NetRun(evs);
    if c !in n.loads {
      UnbegunIsSilent(evs, n.b.lastId + 1);
      NewLoad(n, e, c);
    } else if About(n, e, c) {
      OwnRunStands(evs, e, c, n');
    } else {
      OtherRunStands(evs, e, c);
      RunIsExact(evs);
      OtherEvent(n, e, c);
    }
  }

  lemma {:induction false} RunAllStand(evs: seq<NetEvent>)
    requires OrderlyRun(evs)
    ensures AllStand(evs)
    decreases |evs|
  {
    if evs != [] {
      var most, e := evs[..|evs| - 1], evs[|evs| - 1];
      RunAllStand(most);
      forall c | c in NetRun(evs).loads ensures Stands(NetRun(evs).loads[c], Said(evs, NetRun(evs).loads[c].hop)) {
        StepAllStand(most, e, c, NetRun(evs));
      }
    }
  }

  /** Loads end.  In every run with an orderly host, a load that has its loader has been
      told it finished, once, if and only if the body said for its last hop is complete
      and its response is handled; it was told of a response if and only if the host
      answered with one; and that is handled if and only if the loader owes no answer. */
  lemma {:induction false} FinishesExactlyWhen(evs: seq<NetEvent>, c: ClientId)
    requires OrderlyRun(evs) && c in NetRun(evs).loads && NetRun(evs).loads[c].hasLoader
    ensures var l := NetRun(evs).loads[c];
            var said := Said(evs, l.hop);
            && Finishes(l.calls) == (if Completed(said) && l.responseCompleted then 1 else 0)
            && (l.responseCompleted <==> Answered(said) && l.handlers == 0)
            && (DidReceiveResponse in l.calls <==> Answered(said))
  {
    RunIsExact(evs);
    RunAllStand(evs);
    var l := NetRun(evs).loads[c];
    assert Exact(l, PhaseOf(NetRun(evs).phases, l.requestId)) && Stands(l, Said(evs, l.hop));
    FinishesAreTerminals(l.calls);
  }

  /** And then it has everything: when one fetch was run for the hop, its body complete
      and its response handled, the loader was told the load finished and has the whole
      body of the fetch. */
  lemma {:induction false} CompleteBodyArrives(evs: seq<NetEvent>, c: ClientId, f: Fetch, posted: seq<Msg>)
    requires OrderlyRun(evs) && c in NetRun(evs).loads && NetRun(evs).loads[c].hasLoader
    requires Posts(f, posted) && Said(evs, NetRun(evs).loads[c].hop) == posted && Completed(posted)
    requires Answered(posted) && NetRun(evs).loads[c].handlers == 0
    ensures var l := NetRun(evs).loads[c];
            Finishes(l.calls) == 1 && Joined(Buffers(l.calls)) == if IsRedirect(f) then [] else Joined(f.chunks)
  {
    FinishesExactlyWhen(evs, c);
    WholeBodyDelivered(evs, c, f, posted);
  }
}
