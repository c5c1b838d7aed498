/** The whole loading layer: any number of loads and beacons sharing one bridge
    registry, and a host that may say anything about any request at any time. */
module Network {
  import opened Basics
  import opened ResourceLoad
  import opened LoadSafety
  import opened LoadExact

  /** A beacon owns itself until it finishes; its completion handler runs once. */
  datatype Ping = Ping(selfRef: bool, requestId: nat, completions: nat)

  /** The last two are history: how far the host is with each request, and the bytes
      acknowledged to it. */
  datatype Net = Net(b: Bridge, loads: map<ClientId, Load>, pings: map<ClientId, Ping>,
                     phases: map<nat, Phase>, acked: map<nat, nat>)

  datatype NetEvent =
    | Schedule(c: ClientId)              // scheduleLoad with a new loader
    | Beacon(c: ClientId)                // startPingLoad
    | Says(id: nat, m: Msg, a: Answer)   // a host message reaches the engine
    | Loader(c: ClientId, ev: Event)     // the loader of c answers late or cancels

  /** BibPingLoad::finish. */
  function PingFinish(b: Bridge, p: Ping): (Bridge, Ping) {
    (if p.requestId != 0 then b.Cancel(p.requestId) else b,
     Ping(false, 0, if p.selfRef then p.completions + 1 else p.completions))
  }

  function PingHears(b: Bridge, p: Ping, id: nat, m: Msg): (Bridge, Ping) {
    match m
    case Data(_) => (b, p)
    case Response(ok) => if ok then PingFinish(b, p) else PingFinish(b.Take(id), p.(requestId := 0))
    case _ => PingFinish(b.Take(id), p.(requestId := 0))
  }

  function PhaseOf(phases: map<nat, Phase>, id: nat): Phase { if id in phases then phases[id] else Sent }

  function StepLoad(n: Net, c: ClientId, ev: Event): Net
    requires c in n.loads
  {
    var x := Step(Ctx(n.b, n.loads[c]), c, ev);
    n.(b := x.b, loads := n.loads[c := x.l])
  }

  function StepPing(n: Net, c: ClientId, id: nat, m: Msg): Net
    requires c in n.pings
  {
    var (b, p) := PingHears(n.b, n.pings[c], id, m);
    n.(b := b, pings := n.pings[c := p])
  }

  function AckedOf(n: Net, id: nat): nat { if id in n.acked then n.acked[id] else 0 }

  /** netBridgeAck: a chunk's length, after its client has had it. */
  function Acknowledge(n: Net, id: nat, m: Msg): Net {
    if m.Data? then n.(acked := n.acked[id := AckedOf(n, id) + |m.bytes|]) else n
  }

  function Delivered(n: Net, c: ClientId, id: nat, m: Msg, a: Answer): Net {
    if c in n.loads then StepLoad(n, c, Hears(id, m, a))
    else if c in n.pings then StepPing(n, c, id, m)
    else n
  }

  /** A message is dispatched to whatever the registry holds for its id, if
      anything, and data is acknowledged. */
  function Hear(n: Net, id: nat, m: Msg, a: Answer): Net {
    if id !in n.b.registry then n else Acknowledge(Delivered(n, n.b.registry[id], id, m, a), id, m)
  }

  function NetStep(n: Net, e: NetEvent): Net {
    match e
    case Schedule(c) =>
      if c in n.loads || c in n.pings then n
      else
        var x := StartRequest(Ctx(n.b, NEW_LOAD), c);
        n.(b := x.b, loads := n.loads[c := x.l])
    case Beacon(c) =>
      if c in n.loads || c in n.pings then n
      else n.(b := n.b.Start(c), pings := n.pings[c := Ping(true, n.b.lastId + 1, 0)])
    case Says(id, m, a) => Hear(n, id, m, a).(phases := n.phases[id := After(PhaseOf(n.phases, id), m)])
    case Loader(c, ev) => if c in n.loads && !ev.Hears? then StepLoad(n, c, ev) else n
  }

  const NO_NET: Net := Net(Bridge(map[], 0, [], []), map[], map[], map[], map[])

  function NetRun(evs: seq<NetEvent>): Net
    decreases |evs|
  {
    if evs == [] then NO_NET else NetStep(NetRun(evs[..|evs| - 1]), evs[|evs| - 1])
  }

  // ----- safety against any host -------------------------------------------------

  ghost predicate PingOwned(b: Bridge, p: Ping, c: ClientId) {
    && (forall id :: id in b.registry && b.registry[id] == c ==> id == p.requestId)
    && (p.requestId != 0 ==> p.selfRef && p.requestId in b.registry && b.registry[p.requestId] == c)
    && p.completions == (if p.selfRef then 0 else 1)
    && (p.selfRef ==> p.requestId != 0)
  }

  /** Every registered id belongs to a client that exists and is still owned, by
      m_loads or by its own reference; everything in the bridge happens once. */
  ghost predicate NetSafe(n: Net) {
    && IdsOnce(n.b)
    && (forall c :: c in n.loads ==> Safe(Ctx(n.b, n.loads[c]), c) && c !in n.pings)
    && (forall c :: c in n.pings ==> PingOwned(n.b, n.pings[c], c))
    && (forall id :: id in n.b.registry ==> n.b.registry[id] in n.loads || n.b.registry[id] in n.pings)
  }

  lemma OtherLoadKept(b: Bridge, b': Bridge, l: Load, c: ClientId, d: ClientId)
    requires OthersKept(b, b', c) && c != d && Safe(Ctx(b, l), d) && IdsOnce(b')
    ensures Safe(Ctx(b', l), d)
  {
  }

  lemma OtherPingKept(b: Bridge, b': Bridge, p: Ping, c: ClientId, d: ClientId)
    requires OthersKept(b, b', c) && c != d && PingOwned(b, p, d)
    ensures PingOwned(b', p, d)
  {
  }

  lemma OthersSafe(n: Net, b': Bridge, c: ClientId)
    requires NetSafe(n) && OthersKept(n.b, b', c) && IdsOnce(b')
    ensures forall d :: d in n.loads && d != c ==> Safe(Ctx(b', n.loads[d]), d)
    ensures forall d :: d in n.pings && d != c ==> PingOwned(b', n.pings[d], d)
  {
    forall d | d in n.loads && d != c ensures Safe(Ctx(b', n.loads[d]), d) {
      OtherLoadKept(n.b, b', n.loads[d], c, d);
    }
    forall d | d in n.pings && d != c ensures PingOwned(b', n.pings[d], d) {
      OtherPingKept(n.b, b', n.pings[d], c, d);
    }
  }

  lemma StepLoadSafe(n: Net, c: ClientId, ev: Event)
    requires NetSafe(n) && c in n.loads
    ensures NetSafe(StepLoad(n, c, ev))
  {
    var x := Ctx(n.b, n.loads[c]);
    StepFine(x, c, ev);
    WithLoadSafe(n, c, Step(x, c, ev));
  }

  lemma WithLoadSafe(n: Net, c: ClientId, x': Ctx)
    requires NetSafe(n) && c in n.loads && Safe(x', c) && OthersKept(n.b, x'.b, c)
    ensures NetSafe(n.(b := x'.b, loads := n.loads[c := x'.l]))
  {
    OthersSafe(n, x'.b, c);
  }

  lemma PingFine(b: Bridge, p: Ping, c: ClientId, id: nat, m: Msg)
    requires IdsOnce(b) && PingOwned(b, p, c) && id in b.registry && b.registry[id] == c
    ensures var (b', p') := PingHears(b, p, id, m); IdsOnce(b') && OthersKept(b, b', c) && PingOwned(b', p', c)
  {
    if m.Response? && m.ok {
      CancelIds(b, id);
    } else if !m.Data? {
      TakeIds(b, id);
    }
  }

  lemma StepPingSafe(n: Net, c: ClientId, id: nat, m: Msg)
    requires NetSafe(n) && c in n.pings && id in n.b.registry && n.b.registry[id] == c
    ensures NetSafe(StepPing(n, c, id, m))
  {
    PingFine(n.b, n.pings[c], c, id, m);
    OthersSafe(n, PingHears(n.b, n.pings[c], id, m).0, c);
  }

  lemma StartIds(n: Net, c: ClientId)
    requires NetSafe(n) && c !in n.loads && c !in n.pings
    ensures IdsOnce(n.b.Start(c)) && OthersKept(n.b, n.b.Start(c), c)
    ensures forall id :: id in n.b.Start(c).registry && n.b.Start(c).registry[id] == c ==> id == n.b.lastId + 1
  {
  }

  lemma ScheduleSafe(n: Net, c: ClientId)
    requires NetSafe(n) && c !in n.loads && c !in n.pings
    ensures NetSafe(NetStep(n, Schedule(c)))
  {
    StartIds(n, c);
    OthersSafe(n, n.b.Start(c), c);
  }

  lemma BeaconSafe(n: Net, c: ClientId)
    requires NetSafe(n) && c !in n.loads && c !in n.pings
    ensures NetSafe(NetStep(n, Beacon(c)))
  {
    StartIds(n, c);
    OthersSafe(n, n.b.Start(c), c);
  }

  lemma HearSafe(n: Net, id: nat, m: Msg, a: Answer)
    requires NetSafe(n)
    ensures NetSafe(Hear(n, id, m, a))
  {
    if id in n.b.registry {
      var c := n.b.registry[id];
      if c in n.loads { StepLoadSafe(n, c, Hears(id, m, a)); } else { StepPingSafe(n, c, id, m); }
    }
  }

  lemma NetStepSafe(n: Net, e: NetEvent)
    requires NetSafe(n)
    ensures NetSafe(NetStep(n, e))
  {
    match e
    case Schedule(c) => if c !in n.loads && c !in n.pings { ScheduleSafe(n, c); }
    case Beacon(c) => if c !in n.loads && c !in n.pings { BeaconSafe(n, c); }
    case Says(id, m, a) => HearSafe(n, id, m, a);
    case Loader(c, ev) => if c in n.loads && !ev.Hears? { StepLoadSafe(n, c, ev); }
  }

  /** Registry safety over every run, with late, repeated or ill-formed host
      messages and cancels at any point. */
  lemma {:induction false} RegistryIsSafe(evs: seq<NetEvent>)
    ensures NetSafe(NetRun(evs))
    decreases |evs|
  {
    if evs != [] {
      RegistryIsSafe(evs[..|evs| - 1]);
      NetStepSafe(NetRun(evs[..|evs| - 1]), evs[|evs| - 1]);
    }
  }

  /** Each id is ended by a terminal message or cancelled, once and not both, and
      then no message reaches any client through it. */
  lemma {:induction false} EachIdEndsOnce(evs: seq<NetEvent>, id: nat, m: Msg, a: Answer)
    ensures var b := NetRun(evs).b; multiset(b.ended)[id] + multiset(b.cancelled)[id] <= 1
    ensures var n := NetRun(evs); id in n.b.ended || id in n.b.cancelled ==> Hear(n, id, m, a) == n
  {
    RegistryIsSafe(evs);
  }

  /** Load c of n has no loader and has said and asked nothing since l. */
  ghost predicate StillQuiet(l: Load, n: Net, c: ClientId) {
    c in n.loads && !n.loads[c].hasLoader && n.loads[c].calls == l.calls && n.loads[c].starts == l.starts
  }

  lemma SilentStep(n: Net, e: NetEvent, c: ClientId)
    requires NetSafe(n) && c in n.loads && !n.loads[c].hasLoader
    ensures StillQuiet(n.loads[c], NetStep(n, e), c)
  {
    if e.Loader? && e.c == c {
      StepFine(Ctx(n.b, n.loads[c]), c, e.ev);
    }
  }

  lemma SilentRunStep(l: Load, evs: seq<NetEvent>, e: NetEvent, c: ClientId)
    requires StillQuiet(l, NetRun(evs), c)
    ensures StillQuiet(l, NetRun(evs + [e]), c)
  {
    RegistryIsSafe(evs);
    SilentStep(NetRun(evs), e, c);
    assert (evs + [e])[..|evs|] == evs;
  }

  /** Cancelling is final: after it, whatever happens, the load makes no callback
      and starts no request. */
  lemma {:induction false} CancelIsFinal(evs: seq<NetEvent>, more: seq<NetEvent>, c: ClientId)
    requires c in NetRun(evs).loads && !NetRun(evs).loads[c].hasLoader
    ensures StillQuiet(NetRun(evs).loads[c], NetRun(evs + more), c)
    decreases |more|
  {
    if more == [] {
      assert evs + more == evs;
    } else {
      var most, e := more[..|more| - 1], more[|more| - 1];
      CancelIsFinal(evs, most, c);
      SilentRunStep(NetRun(evs).loads[c], evs + most, e, c);
      assert evs + more == evs + most + [e];
    }
  }

  /** However the redirects go, a load starts at most 22 requests. */
  lemma {:induction false} RequestsAreBounded(evs: seq<NetEvent>, c: ClientId)
    requires c in NetRun(evs).loads
    ensures NetRun(evs).loads[c].starts <= MAX_REDIRECTS + 2
  {
    RegistryIsSafe(evs);
  }

  // ----- exactness with an orderly host -----------------------------------------

  /** The host speaks of requests that were begun, in bib-net.js's order. */
  predicate Orderly(n: Net, e: NetEvent) {
    e.Says? ==> 0 < e.id <= n.b.lastId && Legal(PhaseOf(n.phases, e.id), e.m)
  }

  ghost predicate OrderlyRun(evs: seq<NetEvent>)
    decreases |evs|
  {
    evs == [] || (OrderlyRun(evs[..|evs| - 1]) && Orderly(NetRun(evs[..|evs| - 1]), evs[|evs| - 1]))
  }

  ghost predicate NetExact(n: Net) {
    && (forall id :: id in n.phases ==> 0 < id <= n.b.lastId)
    && (forall c :: c in n.loads ==> Exact(n.loads[c], PhaseOf(n.phases, n.loads[c].requestId)))
  }

  /** One event of load c, with the phases it leaves. */
  lemma LoadStepExact(x: Ctx, c: ClientId, ev: Event, phases: map<nat, Phase>, phases': map<nat, Phase>)
    requires Safe(x, c) && Exact(x.l, PhaseOf(phases, x.l.requestId))
    requires forall id :: id in phases' ==> 0 < id <= x.b.lastId
    requires ev.Hears? ==> ev.id in x.b.registry && x.b.registry[ev.id] == c && Legal(PhaseOf(phases, ev.id), ev.m) &&
                           phases' == phases[ev.id := After(PhaseOf(phases, ev.id), ev.m)]
    requires !ev.Hears? ==> phases' == phases
    ensures Exact(Step(x, c, ev).l, PhaseOf(phases', Step(x, c, ev).l.requestId))
  {
    var l', ph := Step(x, c, ev).l, PhaseOf(phases, x.l.requestId);
    StepFine(x, c, ev);
    if ev.Hears? {
      HeardExact(x, c, ev.m, ev.a, ph);
      IdlePhase(l', if l'.requestId == x.l.requestId then After(ph, ev.m) else Sent, PhaseOf(phases', l'.requestId));
    } else if ev.Handled? {
      LateExact(x, c, ev.a, ph);
      IdlePhase(l', ph, PhaseOf(phases', l'.requestId));
    } else if ev.PolicyDecides? {
      DecisionExact(x, c, ev.a, ph);
      IdlePhase(l', if l'.requestId == x.l.requestId then ph else Sent, PhaseOf(phases', l'.requestId));
    } else {
      RemoveExact(x, c, ph);
      IdlePhase(l', ph, PhaseOf(phases', l'.requestId));
    }
  }

  /** Whose load an event is about. */
  predicate About(n: Net, e: NetEvent, c: ClientId) {
    (e.Says? && e.id in n.b.registry && n.b.registry[e.id] == c) || (e.Loader? && e.c == c && !e.ev.Hears?)
  }

  lemma OtherEvent(n: Net, e: NetEvent, c: ClientId)
    requires NetSafe(n) && c in n.loads && !About(n, e, c)
    ensures c in NetStep(n, e).loads && NetStep(n, e).loads[c] == n.loads[c]
    ensures n.loads[c].requestId != 0 ==>
              PhaseOf(NetStep(n, e).phases, n.loads[c].requestId) == PhaseOf(n.phases, n.loads[c].requestId)
  {
    assert Safe(Ctx(n.b, n.loads[c]), c);
  }

  lemma OwnEvent(n: Net, e: NetEvent, c: ClientId)
    requires NetSafe(n) && NetExact(n) && Orderly(n, e) && c in n.loads && About(n, e, c)
    ensures c in NetStep(n, e).loads
    ensures Exact(NetStep(n, e).loads[c], PhaseOf(NetStep(n, e).phases, NetStep(n, e).loads[c].requestId))
  {
    PhasesKept(n, e);
    LoadStepExact(Ctx(n.b, n.loads[c]), c, if e.Says? then Hears(e.id, e.m, e.a) else e.ev, n.phases, NetStep(n, e).phases);
  }

  lemma FreshIsExact(n: Net, c: ClientId)
    requires NetSafe(n) && NetExact(n) && c !in n.loads && c !in n.pings
    ensures var n' := NetStep(n, Schedule(c)); Exact(n'.loads[c], PhaseOf(n'.phases, n'.loads[c].requestId))
  {
    assert n.b.lastId + 1 !in n.phases;
  }

  lemma NetStepExact(n: Net, e: NetEvent)
    requires NetSafe(n) && NetExact(n) && Orderly(n, e)
    ensures NetExact(NetStep(n, e))
  {
    var n' := NetStep(n, e);
    PhasesKept(n, e);
    forall c | c in n'.loads ensures Exact(n'.loads[c], PhaseOf(n'.phases, n'.loads[c].requestId)) {
      if c !in n.loads {
        FreshIsExact(n, c);
      } else if About(n, e, c) {
        OwnEvent(n, e, c);
      } else {
        OtherEvent(n, e, c);
        IdlePhase(n.loads[c], PhaseOf(n.phases, n.loads[c].requestId), PhaseOf(n'.phases, n.loads[c].requestId));
      }
    }
  }

  lemma StepIds(x: Ctx, c: ClientId, ev: Event)
    requires Safe(x, c)
    ensures x.b.lastId <= Step(x, c, ev).b.lastId
  {
    StepFine(x, c, ev);
  }

  lemma HearIds(n: Net, id: nat, m: Msg, a: Answer)
    requires NetSafe(n)
    ensures n.b.lastId <= Hear(n, id, m, a).b.lastId && Hear(n, id, m, a).phases == n.phases
  {
    if id in n.b.registry && n.b.registry[id] in n.loads {
      LoaderIds(n, n.b.registry[id], Hears(id, m, a));
    }
  }

  lemma LoaderIds(n: Net, c: ClientId, ev: Event)
    requires NetSafe(n) && c in n.loads
    ensures n.b.lastId <= StepLoad(n, c, ev).b.lastId && StepLoad(n, c, ev).phases == n.phases
  {
    StepIds(Ctx(n.b, n.loads[c]), c, ev);
  }

  lemma PhasesKept(n: Net, e: NetEvent)
    requires NetSafe(n) && NetExact(n) && Orderly(n, e)
    ensures n.b.lastId <= NetStep(n, e).b.lastId
    ensures forall id :: id in NetStep(n, e).phases ==> 0 < id <= n.b.lastId
  {
    match e
    case Says(id, m, a) => HearIds(n, id, m, a);
    case Loader(c, ev) => if c in n.loads { LoaderIds(n, c, ev); }
    case _ =>
  }

  lemma {:induction false} RunIsExact(evs: seq<NetEvent>)
    requires OrderlyRun(evs)
    ensures NetSafe(NetRun(evs)) && NetExact(NetRun(evs))
    decreases |evs|
  {
    RegistryIsSafe(evs);
    if evs != [] {
      RunIsExact(evs[..|evs| - 1]);
      NetStepExact(NetRun(evs[..|evs| - 1]), evs[|evs| - 1]);
    }
  }

  /** The end of a load is silent exactly until a late flush: in every such run,
      the next event of a load adds a callback after its end if and only if it is
      the response handler of a load that already failed, with bytes queued. */
  lemma {:induction false} EndIsSilentUnlessLateFlush(evs: seq<NetEvent>, c: ClientId, ev: Event)
    requires OrderlyRun(evs) && c in NetRun(evs).loads && QuietEnd(NetRun(evs).loads[c].calls)
    requires ev.Hears? ==> Orderly(NetRun(evs), Says(ev.id, ev.m, ev.a))
    ensures var n := NetRun(evs);
            QuietEnd(StepLoad(n, c, ev).loads[c].calls) <==> !LateFlush(n.loads[c], ev)
  {
    RunIsExact(evs);
    var n := NetRun(evs);
    SilenceBrokenOnlyByLateFlush(Ctx(n.b, n.loads[c]), c, ev, PhaseOf(n.phases, n.loads[c].requestId));
  }

  lemma RunMore(evs: seq<NetEvent>, e: NetEvent, n: Net)
    requires OrderlyRun(evs) && NetRun(evs) == n && Orderly(n, e)
    ensures OrderlyRun(evs + [e]) && NetRun(evs + [e]) == NetStep(n, e)
  {
    assert (evs + [e])[..|evs|] == evs;
  }

  const LATER: Answer := Answer(false, false, false, false, 9)

  /** One load, whose response handler has not run, with a chunk queued. */
  ghost predicate ChunkWaits(n: Net, bytes: seq<Byte>) {
    && n.b.lastId == 1 && n.b.registry == map[1 := 0] && 0 in n.loads
    && PhaseOf(n.phases, 1) == Streaming
    && var l := n.loads[0];
       l.hasLoader && l.hasDone && l.handlers == 1 && !l.responseCompleted && !l.pendingComplete &&
       l.queued == [bytes] && l.calls == [DidReceiveResponse]
  }

  lemma ChunkWaitsAfter(bytes: seq<Byte>)
    ensures var evs := [Schedule(0)] + [Says(1, Response(true), LATER)] + [Says(1, Data(bytes), LATER)];
            OrderlyRun(evs) && ChunkWaits(NetRun(evs), bytes)
  {
    var e1, e2 := Says(1, Response(true), LATER), Says(1, Data(bytes), LATER);
    assert [] + [Schedule(0)] == [Schedule(0)];
    RunMore([], Schedule(0), NO_NET);
    var n0 := NetStep(NO_NET, Schedule(0));
    RunMore([Schedule(0)], e1, n0);
    var n1 := NetStep(n0, e1);
    assert n1.loads[0].calls == [DidReceiveResponse] && n1.loads[0].handlers == 1;
    RunMore([Schedule(0)] + [e1], e2, n1);
  }

  lemma FailsThenFlushes(n: Net, bytes: seq<Byte>)
    requires ChunkWaits(n, bytes)
    ensures var n' := NetStep(NetStep(n, Says(1, Fail, LATER)), Loader(0, Handled(LATER)));
            0 in n'.loads && n'.loads[0].calls == [DidReceiveResponse, DidFail, DidReceiveBuffer(bytes)]
  {
    var failed := NetStep(n, Says(1, Fail, LATER));
    assert failed.loads[0].calls == [DidReceiveResponse, DidFail] && failed.loads[0].hasLoader;
    FlushOne(Ctx(failed.b, failed.loads[0]), bytes, LATER);
  }

  /** It does happen: response, one chunk, failure, then the late handler. */
  lemma LateFlushHappens(bytes: seq<Byte>)
    ensures var evs := [Schedule(0)] + [Says(1, Response(true), LATER)] + [Says(1, Data(bytes), LATER)] +
                       [Says(1, Fail, LATER)] + [Loader(0, Handled(LATER))];
            OrderlyRun(evs) && 0 in NetRun(evs).loads &&
            NetRun(evs).loads[0].calls == [DidReceiveResponse, DidFail, DidReceiveBuffer(bytes)]
  {
    var evs := [Schedule(0)] + [Says(1, Response(true), LATER)] + [Says(1, Data(bytes), LATER)];
    ChunkWaitsAfter(bytes);
    var n := NetRun(evs);
    FailsThenFlushes(n, bytes);
    RunMore(evs, Says(1, Fail, LATER), n);
    RunMore(evs + [Says(1, Fail, LATER)], Loader(0, Handled(LATER)), NetStep(n, Says(1, Fail, LATER)));
  }

  lemma FlushOne(x: Ctx, bytes: seq<Byte>, a: Answer)
    requires x.l.hasLoader && x.l.queued == [bytes] && x.l.handlers > 0 && !x.l.pendingComplete
    requires a.cancelAt > 0 && !a.cancelLast
    ensures LateHandler(x, a).l.calls == x.l.calls + [DidReceiveBuffer(bytes)]
  {
    var start := x.(l := x.l.(handlers := x.l.handlers - 1, responseCompleted := true, queued := []));
    assert Deliver(start, [bytes], a.cancelAt) == Called(start, DidReceiveBuffer(bytes));
  }
}
