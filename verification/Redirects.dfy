/** How many redirects a load follows: one more than the limit's name suggests. */
module Redirects {
  import opened Basics
  import opened ResourceLoad
  import opened LoadSafety
  import opened LoadExact
  import opened Network

  /** How often the loader was asked about a redirect. */
  function Asks(calls: seq<Call>): nat
    decreases |calls|
  {
    if calls == [] then 0 else Asks(calls[..|calls| - 1]) + if calls[|calls| - 1].WillSendRequest? then 1 else 0
  }

  lemma AsksMore(calls: seq<Call>, c: Call)
    ensures Asks(calls + [c]) == Asks(calls) + if c.WillSendRequest? then 1 else 0
  {
    assert (calls + [c])[..|calls|] == calls;
  }

  lemma AskCalls(x: Ctx, c: ClientId, a: Answer)
    ensures Ask(x, c, a).l.calls == x.l.calls + [WillSendRequest]
  {
  }

  lemma RefuseCalls(x: Ctx)
    requires x.l.hasLoader
    ensures FailLoad(x).l.calls == x.l.calls + [DidFail]
  {
  }

  /** A redirect is put to the loader if and only if its target is one the engine may
      follow and at most 20 redirects came before it on this load; any other fails the
      load. */
  lemma AskedUpToTwenty(x: Ctx, c: ClientId, httpFamily: bool, a: Answer)
    requires x.l.hasLoader
    ensures var l' := PerformRedirect(x, c, httpFamily, a).l;
            && (Asks(l'.calls) == Asks(x.l.calls) + 1 <==> x.l.redirectCount <= MAX_REDIRECTS && httpFamily)
            && (!(x.l.redirectCount <= MAX_REDIRECTS && httpFamily) ==> l'.calls == x.l.calls + [DidFail])
  {
    var counted := x.(l := x.l.(redirectCount := x.l.redirectCount + 1));
    RedirectIs(x, counted, c, httpFamily, a);
    AskCalls(counted, c, a);
    RefuseCalls(counted);
    AsksMore(x.l.calls, WillSendRequest);
    AsksMore(x.l.calls, DidFail);
  }

  /** The statuses that redirect: 301, 302, 303 and those from 307 on. */
  lemma RedirectStatuses(status: int)
    ensures ShouldRedirect(status, true) <==> status in {301, 302, 303} || 307 <= status < 400
    ensures !ShouldRedirect(status, false)
  {
  }

  /** How many redirects to be followed a run brings load c, over all its hops. */
  function RedirectsHeard(evs: seq<NetEvent>, c: ClientId): nat
    decreases |evs|
  {
    if evs == [] then 0
    else
      var most, e := evs[..|evs| - 1], evs[|evs| - 1];
      RedirectsHeard(most, c) + if HearsRedirect(NetRun(most), e, c) then 1 else 0
  }

  predicate HearsRedirect(n: Net, e: NetEvent, c: ClientId) {
    e.Says? && e.id in n.b.registry && n.b.registry[e.id] == c && Redirecting(e.m)
  }

  /** What the history says of client c: a load's own counter is the redirects it
      heard, and a client that is not there yet heard none. */
  ghost predicate Counted(n: Net, c: ClientId, heard: nat) {
    && (c in n.loads ==> n.loads[c].redirectCount == heard)
    && (c !in n.loads && c !in n.pings ==> heard == 0)
  }

  lemma LoadCounted(n: Net, c: ClientId, ev: Event)
    requires NetSafe(n) && c in n.loads
    ensures StepLoad(n, c, ev).loads[c].redirectCount ==
            n.loads[c].redirectCount + if Brings(Ctx(n.b, n.loads[c]), c, ev) && Redirecting(ev.m) then 1 else 0
  {
    StepCounts(Ctx(n.b, n.loads[c]), c, ev);
  }

  lemma OwnCounted(n: Net, e: NetEvent, c: ClientId, heard: nat)
    requires NetSafe(n) && Counted(n, c, heard) && c in n.loads && About(n, e, c)
    ensures Counted(NetStep(n, e), c, heard + if HearsRedirect(n, e, c) then 1 else 0)
  {
    LoadCounted(n, c, if e.Says? then Hears(e.id, e.m, e.a) else e.ev);
  }

  lemma StepCounted(n: Net, e: NetEvent, c: ClientId, heard: nat)
    requires NetSafe(n) && Counted(n, c, heard)
    ensures Counted(NetStep(n, e), c, heard + if HearsRedirect(n, e, c) then 1 else 0)
  {
    if c in n.loads {
      if About(n, e, c) { OwnCounted(n, e, c, heard); } else { OtherEvent(n, e, c); }
    } else if c !in n.pings {
      AbsentHears(n, e, c);
    }
  }

  lemma AbsentHears(n: Net, e: NetEvent, c: ClientId)
    requires NetSafe(n) && c !in n.loads && c !in n.pings
    ensures !HearsRedirect(n, e, c)
    ensures c in NetStep(n, e).loads ==> NetStep(n, e).loads[c].redirectCount == 0
  {
  }

  /** A load counts its redirects right: in any run its counter is the number of
      redirects the host said for it, over all its hops. */
  lemma {:induction false} CountsRedirects(evs: seq<NetEvent>, c: ClientId)
    ensures Counted(NetRun(evs), c, RedirectsHeard(evs, c))
    decreases |evs|
  {
    if evs != [] {
      var most := evs[..|evs| - 1];
      CountsRedirects(most, c);
      RegistryIsSafe(most);
      StepCounted(NetRun(most), evs[|evs| - 1], c, RedirectsHeard(most, c));
    }
  }

  /** In any run, a redirect that reaches a load is put to its loader if and only if
      its target is one the engine may follow and at most 20 redirects were heard
      before it; any other fails the load. */
  lemma {:induction false} RedirectIsAsked(evs: seq<NetEvent>, c: ClientId, id: nat, m: Msg, a: Answer)
    requires c in NetRun(evs).loads && HearsRedirect(NetRun(evs), Says(id, m, a), c)
    ensures c in NetRun(evs + [Says(id, m, a)]).loads
    ensures var l, l' := NetRun(evs).loads[c], NetRun(evs + [Says(id, m, a)]).loads[c];
            && (Asks(l'.calls) == Asks(l.calls) + 1 <==> RedirectsHeard(evs, c) <= MAX_REDIRECTS && m.httpFamily)
            && (!(RedirectsHeard(evs, c) <= MAX_REDIRECTS && m.httpFamily) ==> l'.calls == l.calls + [DidFail])
  {
    var e := Says(id, m, a);
    assert (evs + [e])[..|evs|] == evs;
    CountsRedirects(evs, c);
    RegistryIsSafe(evs);
    HeardRedirect(NetRun(evs), c, id, m, a);
  }

  lemma HeardRedirect(n: Net, c: ClientId, id: nat, m: Msg, a: Answer)
    requires NetSafe(n) && c in n.loads && HearsRedirect(n, Says(id, m, a), c)
    ensures c in Hear(n, id, m, a).loads
    ensures var l, l' := n.loads[c], Hear(n, id, m, a).loads[c];
            && (Asks(l'.calls) == Asks(l.calls) + 1 <==> l.redirectCount <= MAX_REDIRECTS && m.httpFamily)
            && (!(l.redirectCount <= MAX_REDIRECTS && m.httpFamily) ==> l'.calls == l.calls + [DidFail])
  {
    var x := Ctx(n.b, n.loads[c]);
    assert Safe(x, c) && id == x.l.requestId != 0;
    TerminalIs(x, c, m, a);
    var ended := Ended(x);
    assert ended.(l := ended.l.(requestId := 0)) == ended;
    AskedUpToTwenty(ended, c, m.httpFamily, a);
  }

  // ----- what the loader's decision does ----------------------------------------------

  /** Load l' has started one more request than l, under a fresh id that is its own. */
  predicate Restarted(n: Net, n': Net, c: ClientId)
    requires c in n.loads && c in n'.loads
  {
    var l, l' := n.loads[c], n'.loads[c];
    && l'.starts == l.starts + 1 && l'.requestId == n.b.lastId + 1
    && l'.requestId in n'.b.registry && n'.b.registry[l'.requestId] == c
  }

  /** A late decision: in any run, allowing starts the next request, and refusing ends
      the load without one. */
  lemma {:induction false} LateDecisionsCount(evs: seq<NetEvent>, c: ClientId, a: Answer)
    requires c in NetRun(evs).loads && NetRun(evs).loads[c].hasLoader && NetRun(evs).loads[c].decisions > 0
    ensures c in NetRun(evs + [Loader(c, PolicyDecides(a))]).loads
    ensures var n, n' := NetRun(evs), NetRun(evs + [Loader(c, PolicyDecides(a))]);
            if a.allow then Restarted(n, n', c)
            else n'.loads[c].starts == n.loads[c].starts && !n'.loads[c].hasDone && n'.b == n.b
  {
    LateDecided(NetRun(evs), c, a);
    RanOneMore(evs, Loader(c, PolicyDecides(a)));
  }

  lemma RanOneMore(evs: seq<NetEvent>, e: NetEvent)
    ensures NetRun(evs + [e]) == NetStep(NetRun(evs), e)
  {
    assert (evs + [e])[..|evs|] == evs;
  }

  lemma LateDecided(n: Net, c: ClientId, a: Answer)
    requires c in n.loads && n.loads[c].hasLoader && n.loads[c].decisions > 0
    ensures c in NetStep(n, Loader(c, PolicyDecides(a))).loads
    ensures var n' := NetStep(n, Loader(c, PolicyDecides(a)));
            if a.allow then Restarted(n, n', c)
            else n'.loads[c].starts == n.loads[c].starts && !n'.loads[c].hasDone && n'.b == n.b
  {
  }

  /** A decision at once: a redirect that is put to the loader starts the next request
      when the loader allows it then and does not cancel. */
  lemma AllowedAtOnce(x: Ctx, c: ClientId, a: Answer)
    requires x.l.hasLoader && a.now && !a.cancelFirst && !a.cancelLast
    ensures var x' := Ask(x, c, a);
            if a.allow
            then && x'.l.starts == x.l.starts + 1 && x'.l.requestId == x.b.lastId + 1
                 && x'.b.registry == x.b.registry[x.b.lastId + 1 := c]
            else x'.l.starts == x.l.starts && x'.b == x.b && !x'.l.hasDone
  {
  }

  // ----- a run that uses them all --------------------------------------------------------

  const AT_ONCE: Answer := Answer(false, true, true, false, 9)

  function HopTo(k: nat): NetEvent { Says(k, Redirect(true, 302, true, true), AT_ONCE) }

  /** A load that is redirected k times. */
  function Hops(k: nat): seq<NetEvent> {
    if k == 0 then [Schedule(0)] else Hops(k - 1) + [HopTo(k)]
  }

  /** The load after k redirects, on its request k + 1. */
  ghost predicate OnHop(n: Net, k: nat) {
    && n.b.lastId == k + 1 && n.b.registry == map[k + 1 := 0] && 0 in n.loads && PhaseOf(n.phases, k + 1) == Sent
    && var l := n.loads[0];
       l.hasLoader && l.inLoads && l.hasDone && l.requestId == k + 1 && l.redirectCount == k && l.starts == k + 1
  }

  lemma NextHop(n: Net, k: nat)
    requires OnHop(n, k) && k <= MAX_REDIRECTS && k + 2 !in n.phases
    ensures OnHop(NetStep(n, HopTo(k + 1)), k + 1)
    ensures NetStep(n, HopTo(k + 1)).phases == n.phases[k + 1 := Closed]
  {
    var x := Ctx(n.b, n.loads[0]);
    assert n.b.Take(k + 1).registry == map[];
    TerminalIs(x, 0, HopTo(k + 1).m, AT_ONCE);
    assert map[][k + 2 := 0] == map[k + 2 := 0];
  }

  ghost predicate Hopped(evs: seq<NetEvent>, k: nat) {
    OrderlyRun(evs) && OnHop(NetRun(evs), k) && forall id :: id in NetRun(evs).phases ==> id <= k
  }

  lemma FirstHop()
    ensures Hopped([Schedule(0)], 0)
  {
    assert [] + [Schedule(0)] == [Schedule(0)];
    RunMore([], Schedule(0), NO_NET);
  }

  lemma OneMoreHop(evs: seq<NetEvent>, k: nat)
    requires Hopped(evs, k) && k <= MAX_REDIRECTS
    ensures Hopped(evs + [HopTo(k + 1)], k + 1)
  {
    NextHop(NetRun(evs), k);
    RunMore(evs, HopTo(k + 1), NetRun(evs));
  }

  lemma {:induction false} FollowsAll(k: nat)
    requires k <= MAX_REDIRECTS + 1
    ensures Hopped(Hops(k), k)
    decreases k
  {
    if k == 0 {
      FirstHop();
    } else {
      FollowsAll(k - 1);
      HopsMore(k, Hops(k - 1), Hops(k));
    }
  }

  lemma HopsMore(k: nat, before: seq<NetEvent>, evs: seq<NetEvent>)
    requires 0 < k <= MAX_REDIRECTS + 1 && evs == before + [HopTo(k)] && Hopped(before, k - 1)
    ensures Hopped(evs, k)
  {
    OneMoreHop(before, k - 1);
  }

  /** The bound is reached: with an orderly host, 21 redirects are followed and a 22nd
      request is started; the next redirect fails the load. */
  lemma {:induction false} TwentyOneAreFollowed()
    ensures OrderlyRun(Hops(21)) && 0 in NetRun(Hops(21)).loads && NetRun(Hops(21)).loads[0].starts == 22
    ensures var n := NetRun(Hops(22)); 0 in n.loads && n.loads[0].starts == 22 && !n.loads[0].hasDone
    ensures NetRun(Hops(22)).loads[0].calls == NetRun(Hops(21)).loads[0].calls + [DidFail]
  {
    FollowsAll(21);
    var n := NetRun(Hops(21));
    assert Hops(22) == Hops(21) + [HopTo(22)];
    RunMore(Hops(21), HopTo(22), n);
    TerminalIs(Ctx(n.b, n.loads[0]), 0, HopTo(22).m, AT_ONCE);
  }
}
