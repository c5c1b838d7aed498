/** From the host to the loader: what a load hands over is what the host said for its
    last hop, and in the end the whole body of the fetch. */
module Delivery {
  import opened Basics
  import opened ResourceLoad
  import opened LoadSafety
  import opened LoadExact
  import opened Network
  import opened HostFetch

  /** The body chunks among the messages. */
  function Chunks(msgs: seq<Msg>): seq<seq<Byte>>
    decreases |msgs|
  {
    if msgs == [] then []
    else
      var last := msgs[|msgs| - 1];
      Chunks(msgs[..|msgs| - 1]) + if last.Data? then [last.bytes] else []
  }

  /** The body is over: done, or a 3xx surfaced as a response without one. */
  predicate Completes(m: Msg) { m.Done? || (m.Redirect? && m.ok && !ShouldRedirect(m.status, m.location)) }

  predicate Completed(said: seq<Msg>) { said != [] && Completes(said[|said| - 1]) }

  lemma ChunksMore(msgs: seq<Msg>, m: Msg)
    ensures Chunks(msgs + [m]) == Chunks(msgs) + if m.Data? then [m.bytes] else []
    ensures Completed(msgs + [m]) == Completes(m)
  {
    assert (msgs + [m])[..|msgs|] == msgs;
  }

  // ----- one step of one load ----------------------------------------------------------

  lemma HandledFinishes(x: Ctx, c: ClientId, a: Answer)
    requires Safe(x, c)
    ensures var l' := ResponseHandled(x, a).l;
            && (Finishes(l'.calls) > 0 ==> Finishes(x.l.calls) > 0 || (x.l.pendingComplete && x.l.hasLoader))
            && l'.pendingComplete == x.l.pendingComplete && l'.hop == x.l.hop
            && (l'.hasLoader ==> x.l.hasLoader && l'.requestId == x.l.requestId) && (l'.hasDone ==> x.l.hasDone)
  {
    var start := x.(l := x.l.(responseCompleted := true, queued := []));
    var flushed := Deliver(start, x.l.queued, a.cancelAt);
    DeliverFine(start, c, x.l.queued, a.cancelAt);
    if x.l.hasLoader {
      DeliverHandsOver(start, x.l.queued, a.cancelAt);
    }
    CallsAppend(flushed.l.calls, DidFinishLoading);
  }

  /** Removing a load changes neither its calls nor its hop. */
  lemma RemoveKeeps(x: Ctx, cancels: bool)
    ensures var l' := RemoveIf(x, cancels).l;
            && l'.calls == x.l.calls && l'.pendingComplete == x.l.pendingComplete && l'.hop == x.l.hop
            && l'.hasDone == x.l.hasDone && (l'.hasLoader ==> x.l.hasLoader && l'.requestId == x.l.requestId)
  {
  }

  lemma ToLoaderFinishes(x: Ctx, c: ClientId, a: Answer)
    requires Safe(x, c) && Open(x.l) && x.l.decisions == 0 && !x.l.pendingComplete && Finishes(x.l.calls) == 0
    ensures var l' := ToLoader(x, a).l;
            && Finishes(l'.calls) == 0 && !l'.pendingComplete && l'.hop == x.l.hop
            && (l'.hasLoader ==> l'.requestId == x.l.requestId)
  {
    var called := Called(x, DidReceiveResponse);
    CallsAppend(x.l.calls, DidReceiveResponse);
    CalledFine(x, c, DidReceiveResponse);
    RemoveFine(called, c);
    var told := RemoveIf(called, a.cancelFirst);
    RemoveKeeps(called, a.cancelFirst);
    var answered := if a.now then ResponseHandled(told, a) else told.(l := told.l.(handlers := told.l.handlers + 1));
    if a.now { HandledFinishes(told, c, a); }
    RemoveKeeps(answered, a.cancelLast);
  }

  /** What a step may do to the end of a load, beyond what Fine and Exact say. */
  ghost predicate StepEnds(l: Load, l': Load, ends: bool, closes: bool) {
    && (Finishes(l'.calls) > 0 ==> Finishes(l.calls) > 0 || (Open(l) && (l.pendingComplete || ends)))
    && (l'.pendingComplete && Open(l') ==> l'.hop == l.hop && ((l.pendingComplete && Open(l)) || ends))
    && (l'.hop != l.hop ==> Open(l) && l'.hasDone && (l'.hasLoader ==> l'.requestId == l'.hop))
    && (l'.hop == l.hop && Open(l') && l.requestId != 0 ==> l'.requestId != 0 || closes)
  }

  lemma OpenUnfinished(l: Load)
    requires BodyExact(l) && l.hasDone
    ensures Finishes(l.calls) == 0
  {
    FinishesAreTerminals(l.calls);
  }

  lemma DecidedEnds(x: Ctx, c: ClientId, allow: bool)
    requires x.l.hasLoader ==> Open(x.l)
    requires x.l.requestId == 0 && !x.l.pendingComplete
    ensures var l' := Decided(x, c, allow).l;
            && l'.calls == x.l.calls && !l'.pendingComplete
            && (l'.hop != x.l.hop ==> Open(x.l) && l'.hasDone && l'.hasLoader && l'.requestId == l'.hop)
            && (l'.hasDone ==> x.l.hasDone) && (l'.hasLoader ==> x.l.hasLoader)
  {
  }

  lemma AskEnds(x: Ctx, c: ClientId, a: Answer)
    requires Open(x.l) && x.l.requestId == 0 && !x.l.pendingComplete && Finishes(x.l.calls) == 0
    ensures StepEnds(x.l, Ask(x, c, a).l, false, false) && Finishes(Ask(x, c, a).l.calls) == 0
  {
    var called := Called(x, WillSendRequest);
    CallsAppend(x.l.calls, WillSendRequest);
    var asked := RemoveIf(called, a.cancelFirst);
    RemoveKeeps(called, a.cancelFirst);
    if a.now { DecidedEnds(asked, c, a.allow); }
    RemoveKeeps(Decide(asked, c, a), a.cancelLast);
  }

  lemma FailEnds(x: Ctx)
    ensures Finishes(FailLoad(x).l.calls) == Finishes(x.l.calls) && !FailLoad(x).l.hasDone
    ensures FailLoad(x).l.hop == x.l.hop
  {
    CallsAppend(x.l.calls, DidFail);
  }

  lemma FinishEnds(x: Ctx)
    ensures FinishLoading(x).l.hop == x.l.hop && !FinishLoading(x).l.hasDone
  {
  }

  lemma RedirectEnds(x: Ctx, c: ClientId, httpFamily: bool, a: Answer)
    requires Open(x.l) && x.l.requestId == 0 && !x.l.pendingComplete && Finishes(x.l.calls) == 0
    ensures StepEnds(x.l, PerformRedirect(x, c, httpFamily, a).l, false, true)
  {
    var counted := x.(l := x.l.(redirectCount := x.l.redirectCount + 1));
    RedirectIs(x, counted, c, httpFamily, a);
    FailEnds(counted);
    AskEnds(counted, c, a);
  }

  lemma CompleteEnds(x: Ctx, told: Ctx)
    requires Open(x.l) && told.l.hop == x.l.hop
    ensures StepEnds(x.l, OnComplete(told).l, true, true)
  {
    FinishEnds(told.(l := told.l.(requestId := 0)));
  }

  lemma FailedEnds(x: Ctx)
    requires Open(x.l) && Finishes(x.l.calls) == 0
    ensures StepEnds(x.l, OnFail(x).l, false, true)
  {
    FailEnds(x.(l := x.l.(requestId := 0)));
  }

  lemma RedirectedIs(x: Ctx, c: ClientId, m: Msg, a: Answer)
    requires m.Redirect? && Open(x.l) && x.l.requestId == 0
    ensures OnRedirect(x, c, m.status, m.location, m.httpFamily, a) ==
            if ShouldRedirect(m.status, m.location) then PerformRedirect(x, c, m.httpFamily, a)
            else OnComplete(ToLoader(x, a))
  {
    assert x.(l := x.l.(requestId := 0)) == x;
  }

  lemma RedirectedEnds(x: Ctx, c: ClientId, m: Msg, a: Answer)
    requires Safe(x, c) && Open(x.l) && x.l.requestId == 0 && x.l.decisions == 0 && !x.l.pendingComplete
    requires Finishes(x.l.calls) == 0 && m.Redirect? && m.ok
    ensures StepEnds(x.l, OnRedirect(x, c, m.status, m.location, m.httpFamily, a).l, Completes(m), true)
  {
    RedirectedIs(x, c, m, a);
    if ShouldRedirect(m.status, m.location) {
      RedirectEnds(x, c, m.httpFamily, a);
    } else {
      ToLoaderFinishes(x, c, a);
      CompleteEnds(x, ToLoader(x, a));
    }
  }

  /** A message that ends the request, once the registration is taken. */
  lemma TerminatedEnds(x: Ctx, c: ClientId, m: Msg, a: Answer)
    requires Safe(x, c) && Open(x.l) && x.l.requestId == 0 && x.l.decisions == 0 && !x.l.pendingComplete
    requires Finishes(x.l.calls) == 0
    requires m.Done? || m.Fail? || m.Redirect? || (m.Response? && !m.ok)
    ensures StepEnds(x.l, Terminated(x, c, m, a).l, Completes(m), true)
  {
    if m.Done? {
      CompleteEnds(x, x);
    } else if m.Redirect? && m.ok {
      RedirectedEnds(x, c, m, a);
    } else {
      FailedEnds(x);
    }
  }

  lemma HearsEnds(x: Ctx, c: ClientId, m: Msg, a: Answer)
    requires Safe(x, c) && BodyExact(x.l) && x.l.requestId != 0
    ensures StepEnds(x.l, Dispatch(x, c, x.l.requestId, m, a).l, Completes(m), !m.Data? && !(m.Response? && m.ok))
  {
    OpenUnfinished(x.l);
    if m.Data? {
      var got := WithChunk(x, m);
      CallsAppend(x.l.calls, DidReceiveBuffer(m.bytes));
      RemoveKeeps(Called(got, DidReceiveBuffer(m.bytes)), a.cancelFirst);
    } else if m.Response? && m.ok {
      ToLoaderFinishes(x, c, a);
    } else {
      EndedFine(x, c);
      TerminalIs(x, c, m, a);
      TerminatedEnds(Ended(x), c, m, a);
    }
  }

  lemma LateHandlerEnds(x: Ctx, c: ClientId, a: Answer, ph: Phase)
    requires Safe(x, c) && Exact(x.l, ph)
    ensures StepEnds(x.l, LateHandler(x, a).l, false, false) && LateHandler(x, a).l.hop == x.l.hop
  {
    if x.l.handlers > 0 {
      var fewer := x.(l := x.l.(handlers := x.l.handlers - 1));
      HandledFinishes(fewer, c, a);
      RemoveKeeps(ResponseHandled(fewer, a), a.cancelLast);
    }
  }

  lemma LateDecisionEnds(x: Ctx, c: ClientId, a: Answer)
    requires Safe(x, c)
    ensures StepEnds(x.l, LateDecision(x, c, a).l, false, false)
  {
    if x.l.decisions > 0 {
      var fewer := x.(l := x.l.(decisions := x.l.decisions - 1));
      if x.l.hasLoader {
        DecidedEnds(fewer, c, a.allow);
      }
    }
  }

  lemma StepEndsAll(x: Ctx, c: ClientId, ev: Event, ph: Phase)
    requires Safe(x, c) && Exact(x.l, ph)
    ensures StepEnds(x.l, Step(x, c, ev).l, Brings(x, c, ev) && Completes(ev.m),
                     Brings(x, c, ev) && !ev.m.Data? && !(ev.m.Response? && ev.m.ok))
  {
    match ev
    case Hears(id, m, a) => if Brings(x, c, ev) { HearsEnds(x, c, m, a); }
    case Handled(a) => LateHandlerEnds(x, c, a, ph);
    case PolicyDecides(a) => LateDecisionEnds(x, c, a);
    case Cancels => RemoveKeeps(x, true);
  }

  // ----- a load and what the host said for its hop ------------------------------------------

  /** What a load has of the messages said for its last hop. */
  ghost predicate HopSays(l: Load, said: seq<Msg>) {
    && 0 < l.hop && l.received <= Chunks(said)
    && (Open(l) ==> l.received == Chunks(said))
    && (Finishes(l.calls) > 0 ==> l.received == Chunks(said) && Completed(said))
    && (l.pendingComplete && Open(l) ==> Completed(said))
    && (Open(l) && l.requestId == 0 ==> PhaseAfter(Sent, said) == Closed)
  }

  lemma SaidClosed(said: seq<Msg>)
    requires Completed(said)
    ensures PhaseAfter(Sent, said) == Closed
  {
    LastApart(said);
    OneMore(Sent, said[..|said| - 1], said[|said| - 1]);
  }

  /** A new hop, of which nothing has been said. */
  lemma NewHopSays(l: Load, l': Load, ends: bool, closes: bool)
    requires StepEnds(l, l', ends, closes) && l'.hop > l.hop && l'.received == [] && BodyExact(l')
    ensures HopSays(l', [])
  {
    OpenUnfinished(l');
  }

  /** The same hop, and no message for the load. */
  lemma SilentHopSays(l: Load, l': Load, said: seq<Msg>)
    requires StepEnds(l, l', false, false) && l'.hop == l.hop && l'.received == l.received && HopSays(l, said)
    requires Open(l') ==> Open(l)
    requires l.requestId != 0 ==> !l.pendingComplete
    ensures HopSays(l', said)
  {
  }

  /** The same hop, and a message for the load's live request. */
  lemma ToldHopSays(l: Load, l': Load, said: seq<Msg>, m: Msg)
    requires StepEnds(l, l', Completes(m), !m.Data? && !(m.Response? && m.ok))
    requires l'.hop == l.hop && HopSays(l, said) && Open(l) && Finishes(l.calls) == 0 && !l.pendingComplete
    requires l.requestId != 0 && l'.received == l.received + if m.Data? then [m.bytes] else []
    requires m.Response? && !m.ok ==> !Open(l')
    ensures HopSays(l', said + [m])
  {
    ChunksMore(said, m);
    OneMore(Sent, said, m);
  }

  /** Whether load c is brought a message, and which, by an event of a run. */
  function BroughtTo(x: Ctx, c: ClientId, ev: Event): seq<Msg> { if Brings(x, c, ev) then [ev.m] else [] }

  lemma BroughtReceived(x: Ctx, c: ClientId, ev: Event)
    requires Safe(x, c)
    ensures var got := Brought(x, c, ev).l;
            && got == x.l.(received := got.received)
            && got.received == x.l.received + (if Brings(x, c, ev) && ev.m.Data? then [ev.m.bytes] else [])
  {
  }

  lemma BadResponseCloses(x: Ctx, c: ClientId, ev: Event)
    requires Brings(x, c, ev) && ev.m.Response? && !ev.m.ok
    ensures !Open(Step(x, c, ev).l)
  {
  }

  /** One event of load c. */
  lemma StepHopSays(x: Ctx, c: ClientId, ev: Event, said: seq<Msg>)
    requires Safe(x, c) && HopSays(x.l, said) && Exact(x.l, PhaseAfter(Sent, said))
    requires Brings(x, c, ev) ==> Legal(PhaseAfter(Sent, said), ev.m)
    ensures var l' := Step(x, c, ev).l;
            HopSays(l', if l'.hop == x.l.hop then said + BroughtTo(x, c, ev) else [])
  {
    var ph := PhaseAfter(Sent, said);
    var l' := Step(x, c, ev).l;
    StepEndsAll(x, c, ev, ph);
    StepFine(x, c, ev);
    BroughtReceived(x, c, ev);
    if l'.hop != x.l.hop {
      StepBodyExact(x, c, ev, ph);
      NewHopSays(x.l, l', Brings(x, c, ev) && Completes(ev.m), Brings(x, c, ev) && !ev.m.Data? && !(ev.m.Response? && ev.m.ok));
    } else if Brings(x, c, ev) {
      if ev.m.Response? && !ev.m.ok { BadResponseCloses(x, c, ev); }
      OpenUnfinished(x.l);
      ToldHopSays(x.l, l', said, ev.m);
    } else {
      SilentHopSays(x.l, l', said);
      assert said + [] == said;
    }
  }

  lemma StepBodyExact(x: Ctx, c: ClientId, ev: Event, ph: Phase)
    requires Safe(x, c) && Exact(x.l, ph) && (Brings(x, c, ev) ==> Legal(ph, ev.m))
    ensures BodyExact(Step(x, c, ev).l)
  {
    match ev
    case Hears(id, m, a) => if Brings(x, c, ev) { HeardExact(x, c, m, a, ph); }
    case Handled(a) => LateExact(x, c, a, ph);
    case PolicyDecides(a) => DecisionExact(x, c, a, ph);
    case Cancels => RemoveExact(x, c, ph);
  }

  // ----- over whole runs ---------------------------------------------------------------------

  ghost predicate AllSay(evs: seq<NetEvent>) {
    forall c :: c in NetRun(evs).loads ==> HopSays(NetRun(evs).loads[c], Said(evs, NetRun(evs).loads[c].hop))
  }

  lemma {:induction false} SentIsSilent(msgs: seq<Msg>)
    requires PhaseAfter(Sent, msgs) == Sent
    ensures msgs == []
  {
    if msgs != [] {
      LastApart(msgs);
      OneMore(Sent, msgs[..|msgs| - 1], msgs[|msgs| - 1]);
    }
  }

  /** Nothing is said for a request that is not begun. */
  lemma {:induction false} UnbegunIsSilent(evs: seq<NetEvent>, id: nat)
    requires OrderlyRun(evs) && id > NetRun(evs).b.lastId
    ensures Said(evs, id) == []
  {
    RunIsExact(evs);
    PhaseIsSaid(evs, id);
    SentIsSilent(Said(evs, id));
  }

  /** A message that does not reach a load leaves it as it was, and can only be for a
      hop the load is done with. */
  lemma UnheardHopSays(n: Net, c: ClientId, id: nat, m: Msg, said: seq<Msg>)
    requires NetSafe(n) && c in n.loads && HopSays(n.loads[c], said)
    requires n.loads[c].hop == id ==> Legal(PhaseAfter(Sent, said), m) && !(id in n.b.registry && n.b.registry[id] == c)
    ensures n.loads[c].hop == id ==> HopSays(n.loads[c], said + [m])
  {
    var l := n.loads[c];
    assert Safe(Ctx(n.b, l), c);
    if l.hop == id {
      ChunksMore(said, m);
      if Finishes(l.calls) > 0 { SaidClosed(said); }
    }
  }

  lemma PhaseOfHop(n: Net, l: Load, c: ClientId, said: seq<Msg>)
    requires Safe(Ctx(n.b, l), c) && Exact(l, PhaseOf(n.phases, l.requestId))
    requires PhaseOf(n.phases, l.hop) == PhaseAfter(Sent, said)
    ensures Exact(l, PhaseAfter(Sent, said))
  {
    IdlePhase(l, PhaseOf(n.phases, l.requestId), PhaseAfter(Sent, said));
  }

  /** The event as load c sees it. */
  function AsSeen(e: NetEvent): Event { if e.Says? then Hears(e.id, e.m, e.a) else if e.Loader? then e.ev else Cancels }

  lemma OwnHopSays(n: Net, e: NetEvent, c: ClientId, said: seq<Msg>)
    requires NetSafe(n) && NetExact(n) && Orderly(n, e) && c in n.loads && About(n, e, c)
    requires HopSays(n.loads[c], said) && PhaseOf(n.phases, n.loads[c].hop) == PhaseAfter(Sent, said)
    ensures c in NetStep(n, e).loads
    ensures var l, l' := n.loads[c], NetStep(n, e).loads[c];
            && HopSays(l', if l'.hop == l.hop then said + (if e.Says? then [e.m] else []) else [])
            && (e.Says? ==> e.id == l.hop) && (l'.hop == l.hop || l'.hop > n.b.lastId)
  {
    var x := Ctx(n.b, n.loads[c]);
    assert Safe(x, c);
    PhaseOfHop(n, x.l, c, said);
    StepFine(x, c, AsSeen(e));
    StepHopSays(x, c, AsSeen(e), said);
  }

  /** What is said for id once event e has come too. */
  function SaidWith(said: seq<Msg>, e: NetEvent, id: nat): seq<Msg> { if e.Says? && e.id == id then said + [e.m] else said }

  lemma {:induction false} OwnSays(evs: seq<NetEvent>, e: NetEvent, c: ClientId, n': Net)
    requires OrderlyRun(evs) && Orderly(NetRun(evs), e) && AllSay(evs) && n' == NetStep(NetRun(evs), e)
    requires c in NetRun(evs).loads && About(NetRun(evs), e, c)
    ensures c in n'.loads && HopSays(n'.loads[c], SaidWith(Said(evs, n'.loads[c].hop), e, n'.loads[c].hop))
  {
    var n := NetRun(evs);
    var hop := n.loads[c].hop;
    RunIsExact(evs);
    PhaseIsSaid(evs, hop);
    OwnHopSays(n, e, c, Said(evs, hop));
    var hop' := n'.loads[c].hop;
    if hop' != hop { UnbegunIsSilent(evs, hop'); }
    assert Said(evs, hop) + [] == Said(evs, hop);
  }

  lemma {:induction false} OtherSays(evs: seq<NetEvent>, e: NetEvent, c: ClientId)
    requires OrderlyRun(evs) && Orderly(NetRun(evs), e) && AllSay(evs)
    requires c in NetRun(evs).loads && !About(NetRun(evs), e, c)
    ensures var l := NetRun(evs).loads[c]; HopSays(l, SaidWith(Said(evs, l.hop), e, l.hop))
  {
    var n := NetRun(evs);
    var hop := n.loads[c].hop;
    RunIsExact(evs);
    PhaseIsSaid(evs, hop);
    if e.Says? { UnheardHopSays(n, c, e.id, e.m, Said(evs, hop)); }
  }

  lemma {:induction false} StepAllSay(evs: seq<NetEvent>, e: NetEvent, c: ClientId, n': Net)
    requires OrderlyRun(evs) && Orderly(NetRun(evs), e) && AllSay(evs)
    requires n' == NetStep(NetRun(evs), e) && c in n'.loads
    ensures HopSays(n'.loads[c], SaidWith(Said(evs, n'.loads[c].hop), e, n'.loads[c].hop))
  {
    var n := NetRun(evs);
    if c !in n.loads {
      UnbegunIsSilent(evs, n.b.lastId + 1);
      NewLoad(n, e, c);
      FreshSays(n, c);
    } else if About(n, e, c) {
      OwnSays(evs, e, c, n');
    } else {
      OtherSays(evs, e, c);
      RunIsExact(evs);
      OtherEvent(n, e, c);
    }
  }

  lemma NewLoad(n: Net, e: NetEvent, c: ClientId)
    requires c !in n.loads && c in NetStep(n, e).loads
    ensures e == Schedule(c) && c !in n.pings
  {
  }

  lemma FreshSays(n: Net, c: ClientId)
    requires c !in n.loads && c !in n.pings
    ensures var l := NetStep(n, Schedule(c)).loads[c]; HopSays(l, []) && l.hop == n.b.lastId + 1
  {
  }

  lemma {:induction false} RunAllSays(evs: seq<NetEvent>)
    requires OrderlyRun(evs)
    ensures AllSay(evs)
    decreases |evs|
  {
    if evs != [] {
      var most, e := evs[..|evs| - 1], evs[|evs| - 1];
      RunAllSays(most);
      forall c | c in NetRun(evs).loads ensures HopSays(NetRun(evs).loads[c], Said(evs, NetRun(evs).loads[c].hop)) {
        StepAllSay(most, e, c, NetRun(evs));
      }
    }
  }

  /** The load state machine delivers exactly the body.  In every run with an orderly
      host, whatever the timing of the loader's answers, what a loader was given is,
      chunk by chunk and in order, the beginning of the data the host said for the
      load's last hop; none before the response handler is done; once that is done,
      all of it so far, as long as the load is open; and all of it, to a message that
      completes the body, when didFinishLoading is called.  There is at most one of
      didFinishLoading and didFail, and a load still open is never stuck. */
  lemma {:induction false} BodyIsExact(evs: seq<NetEvent>, c: ClientId)
    requires OrderlyRun(evs) && c in NetRun(evs).loads
    ensures var l := NetRun(evs).loads[c];
            var said := Said(evs, l.hop);
            && Buffers(l.calls) <= Chunks(said)
            && (l.hasLoader && !l.responseCompleted ==> Buffers(l.calls) == [])
            && (Open(l) && l.responseCompleted ==> Buffers(l.calls) == Chunks(said))
            && (Finishes(l.calls) > 0 ==> Buffers(l.calls) == Chunks(said) && Completed(said))
            && Terminals(l.calls) <= 1
            && Progress(l)
  {
    RunIsExact(evs);
    RunAllSays(evs);
    var l := NetRun(evs).loads[c];
    assert HopSays(l, Said(evs, l.hop)) && Exact(l, PhaseOf(NetRun(evs).phases, l.requestId));
  }

  // ----- from the fetch ---------------------------------------------------------------------

  lemma {:induction false} JoinedChunks(msgs: seq<Msg>)
    ensures Joined(Chunks(msgs)) == Body(msgs)
    decreases |msgs|
  {
    if msgs != [] {
      var most, last := msgs[..|msgs| - 1], msgs[|msgs| - 1];
      JoinedChunks(most);
      if last.Data? {
        assert (Chunks(most) + [last.bytes])[..|Chunks(most)|] == Chunks(most);
      } else {
        assert Chunks(most) + [] == Chunks(most) && Body(most) + [] == Body(most);
      }
    }
  }

  /** After a message that closes a request there is no more. */
  lemma {:induction false} ClosedIsAll(ph: Phase, a: seq<Msg>, b: seq<Msg>)
    requires InOrder(ph, a + b) && PhaseAfter(ph, a) == Closed
    ensures b == []
    decreases |a|
  {
    if a == [] {
      assert a + b == b;
    } else {
      assert (a + b)[1..] == a[1..] + b;
      ClosedIsAll(After(ph, a[0]), a[1..], b);
    }
  }

  /** From the server to the page: if the host runs one fetch for the load's last hop
      and the engine has heard some first part of what that posts, then when the
      loader is told the load has finished, what it was given joins to the whole body
      of the fetch (a redirect without a usable target has none). */
  lemma {:induction false} WholeBodyDelivered(evs: seq<NetEvent>, c: ClientId, f: Fetch, posted: seq<Msg>)
    requires OrderlyRun(evs) && c in NetRun(evs).loads && Finishes(NetRun(evs).loads[c].calls) > 0
    requires Posts(f, posted) && Said(evs, NetRun(evs).loads[c].hop) <= posted
    ensures f.Reply? && (!IsRedirect(f) ==> !f.breaks)
    ensures Joined(Buffers(NetRun(evs).loads[c].calls)) == if IsRedirect(f) then [] else Joined(f.chunks)
  {
    BodyIsExact(evs, c);
    SaidAll(f, Said(evs, NetRun(evs).loads[c].hop), posted);
  }

  lemma SaidAll(f: Fetch, said: seq<Msg>, posted: seq<Msg>)
    requires Posts(f, posted) && said <= posted && Completed(said)
    ensures f.Reply? && (!IsRedirect(f) ==> !f.breaks)
    ensures Joined(Chunks(said)) == if IsRedirect(f) then [] else Joined(f.chunks)
  {
    SaidClosed(said);
    assert said + posted[|said|..] == posted && said + [] == said;
    ClosedIsAll(Sent, said, posted[|said|..]);
    JoinedChunks(said);
    PostsEnd(f, said);
  }

  lemma PostsEnd(f: Fetch, msgs: seq<Msg>)
    requires Posts(f, msgs) && Completed(msgs)
    ensures f.Reply? && Body(msgs) == (if IsRedirect(f) then [] else Joined(f.chunks)) && (!IsRedirect(f) ==> !f.breaks)
  {
    var last := msgs[|msgs| - 1];
    assert last in msgs;
  }
}
