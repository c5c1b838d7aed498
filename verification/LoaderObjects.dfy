/** The loading code over the heap: one m_loads map and one registry of object
    references, shared by all the load objects whose callbacks update them.  The
    heap is tied to the state machine of Network by the history of what happened to
    it, so every theorem about runs holds of the objects. */
module LoaderObjects {
  import opened Basics
  import RL = ResourceLoad
  import LoadSafety
  import LoadExact
  import HostFetch
  import Delivery
  import Acknowledgements
  import Finishing
  import Outcomes
  import N = Network

  /** WebCore's side of a load, known by its identity. */
  class ResourceLoader {
    constructor () {
    }
  }

  /** BibResourceLoad. */
  class BibResourceLoad {
    const strategy: LoaderStrategy
    const owner: ResourceLoader           // what it was created for
    ghost const me: RL.ClientId
    var loader: ResourceLoader?           // m_loader
    var hasDone: bool                     // m_doneCallback
    var requestId: nat
    var queued: seq<seq<Byte>>
    var responseCompleted: bool
    var pendingComplete: bool
    var redirectCount: nat
    var handlers: nat
    var decisions: nat
    ghost var calls: seq<RL.Call>
    ghost var received: seq<seq<Byte>>
    ghost var starts: nat
    ghost var hop: nat

    ghost function Fields(held: bool): RL.Load
      reads this
    {
      RL.Load(loader != null, held, hasDone, requestId, queued, responseCompleted, pendingComplete,
              redirectCount, handlers, decisions, calls, received, starts, hop)
    }

    ghost function View(): RL.Load
      reads this, strategy`loads
    {
      Fields(Held(strategy.loads, this))
    }

    /** This load with the bridge it talks to. */
    ghost function Ctx(): RL.Ctx
      reads this, strategy
    {
      RL.Ctx(strategy.Bridge(), View())
    }

    ghost predicate Ready()
      reads this, strategy, strategy.clients
    {
      strategy.Shape() && this in strategy.clients
    }

    constructor (s: LoaderStrategy, r: ResourceLoader, ghost c: RL.ClientId)
      ensures strategy == s && owner == r && me == c && loader == r
      ensures Fields(true) == RL.NEW_LOAD
    {
      strategy, owner, me, loader := s, r, c, r;
      hasDone, requestId, queued, responseCompleted, pendingComplete := true, 0, [], false, false;
      redirectCount, handlers, decisions, calls, received, starts, hop := 0, 0, 0, [], [], 0, 0;
    }

    /** Every hop starts with nothing queued or pending, under an id nobody had. */
    method StartBridgeRequest()
      requires Ready()
      modifies this, strategy`registry, strategy`lastId
      ensures Ready() && Ctx() == RL.StartRequest(old(Ctx()), me)
      ensures requestId !in old(strategy.registry) && strategy.registry == old(strategy.registry)[requestId := this]
      ensures queued == [] && !pendingComplete && !responseCompleted && loader == old(loader)
    {
      var id := strategy.Start(this);
      BeginHop(id);
    }

    method BeginHop(id: nat)
      modifies this
      ensures View() == old(View()).(responseCompleted := false, pendingComplete := false, queued := [], requestId := id,
                                     received := [], starts := old(starts) + 1, hop := id)
      ensures loader == old(loader)
    {
      responseCompleted, pendingComplete, queued, requestId := false, false, [], id;
      received, starts, hop := [], starts + 1, id;
    }

    /** LoaderStrategy::remove of this load's loader, and cancel(). */
    method Remove()
      requires Ready()
      modifies this, strategy`loads, strategy`registry, strategy`cancelled
      ensures Ready() && OthersKept(owner, old(strategy.loads), strategy.loads) && Ctx() == RL.Remove(old(Ctx()))
      ensures strategy.loads == old(strategy.loads) - {owner}
    {
      assert owner in strategy.loads ==> Held(strategy.loads, this);
      LeaveFits(strategy, strategy.clients, strategy.loads, strategy.registry, owner);
      if owner in strategy.loads {
        strategy.loads := strategy.loads - {owner};
        loader := null;
        var id := requestId;
        requestId := 0;
        if id != 0 {
          strategy.CancelRequest(id);
        }
      }
    }

    /** Call into the loader, which may cancel before it returns. */
    method CallLoader(call: RL.Call, cancels: bool)
      requires Ready()
      modifies this, strategy`loads, strategy`registry, strategy`cancelled
      ensures Ready() && OthersKept(owner, old(strategy.loads), strategy.loads) && Ctx() == RL.RemoveIf(RL.Called(old(Ctx()), call), cancels)
    {
      calls := calls + [call];
      if cancels {
        Remove();
      }
    }

    /** The done callback drops the load from m_loads, by its loader. */
    method NotifyDone()
      requires Ready()
      modifies this`hasDone, strategy`loads
      ensures Ready() && OthersKept(owner, old(strategy.loads), strategy.loads) && Ctx() == RL.NotifyDone(old(Ctx()))
    {
      if hasDone {
        hasDone := false;
        if loader != null {
          strategy.loads := strategy.loads - {loader};
        }
      }
    }

    method DidFailInternal()
      requires Ready()
      modifies this, strategy`loads, strategy`registry, strategy`cancelled
      ensures Ready() && OthersKept(owner, old(strategy.loads), strategy.loads) && Ctx() == RL.FailLoad(old(Ctx()))
    {
      var told := loader;
      NotifyDone();
      if told != null {
        CallLoader(RL.DidFail, false);
      }
    }

    method FinishLoading()
      requires Ready()
      modifies this, strategy`loads, strategy`registry, strategy`cancelled
      ensures Ready() && OthersKept(owner, old(strategy.loads), strategy.loads) && Ctx() == RL.FinishLoading(old(Ctx()))
    {
      NotifyDone();
      CallLoader(RL.DidFinishLoading, false);
    }

    /** The response handler: flush what was queued, then finish if the body had
        already ended. */
    method ResponseHandled(a: RL.Answer)
      requires Ready()
      modifies this, strategy`loads, strategy`registry, strategy`cancelled
      ensures Ready() && OthersKept(owner, old(strategy.loads), strategy.loads) && Ctx() == RL.ResponseHandled(old(Ctx()), a)
    {
      var bufs := queued;
      responseCompleted, queued := true, [];
      ghost var start := Ctx();
      var i, k := 0, a.cancelAt;
      while i < |bufs| && loader != null
        invariant i <= |bufs| && Ready() && OthersKept(owner, old(strategy.loads), strategy.loads)
        invariant RL.Deliver(Ctx(), bufs[i..], k) == RL.Deliver(start, bufs, a.cancelAt)
        invariant pendingComplete == old(pendingComplete)
      {
        CallLoader(RL.DidReceiveBuffer(bufs[i]), k == 0);
        k := if k == 0 then 0 else k - 1;
        i := i + 1;
      }
      if pendingComplete && loader != null {
        FinishLoading();
      }
    }

    method TellLoader(a: RL.Answer)
      requires Ready()
      modifies this, strategy`loads, strategy`registry, strategy`cancelled
      ensures Ready() && OthersKept(owner, old(strategy.loads), strategy.loads) && Ctx() == RL.ToLoader(old(Ctx()), a)
    {
      CallLoader(RL.DidReceiveResponse, a.cancelFirst);
      if a.now {
        ResponseHandled(a);
      } else {
        handlers := handlers + 1;
      }
      if a.cancelLast {
        Remove();
      }
    }

    /** The redirect limit and the scheme of the target first; then the loader is
        asked. */
    method PerformRedirect(httpFamily: bool, a: RL.Answer)
      requires Ready()
      modifies this, strategy`loads, strategy`registry, strategy`lastId, strategy`cancelled
      ensures Ready() && OthersKept(owner, old(strategy.loads), strategy.loads) && Ctx() == RL.PerformRedirect(old(Ctx()), me, httpFamily, a)
    {
      ghost var before := Ctx();
      var tooMany := redirectCount > RL.MAX_REDIRECTS;
      redirectCount := redirectCount + 1;
      LoadExact.RedirectIs(before, Ctx(), me, httpFamily, a);
      if tooMany || !httpFamily {
        DidFailInternal();
      } else {
        AskLoader(a);
      }
    }

    method AskLoader(a: RL.Answer)
      requires Ready()
      modifies this, strategy`loads, strategy`registry, strategy`lastId, strategy`cancelled
      ensures Ready() && OthersKept(owner, old(strategy.loads), strategy.loads) && Ctx() == RL.Ask(old(Ctx()), me, a)
    {
      CallLoader(RL.WillSendRequest, a.cancelFirst);
      if a.now {
        Decided(a.allow);
      } else {
        decisions := decisions + 1;
      }
      if a.cancelLast {
        Remove();
      }
    }

    method Decided(allow: bool)
      requires Ready()
      modifies this, strategy`loads, strategy`registry, strategy`lastId, strategy`cancelled
      ensures Ready() && OthersKept(owner, old(strategy.loads), strategy.loads) && Ctx() == RL.Decided(old(Ctx()), me, allow)
    {
      if !allow || loader == null {
        NotifyDone();
      } else {
        StartBridgeRequest();
      }
    }

    method NetDidReceiveResponse(a: RL.Answer)
      requires Ready()
      modifies this, strategy`loads, strategy`registry, strategy`lastId, strategy`cancelled
      ensures Ready() && OthersKept(owner, old(strategy.loads), strategy.loads) && Ctx() == RL.OnResponse(old(Ctx()), a)
    {
      if loader != null {
        TellLoader(a);
      }
    }

    /** A chunk waits until the response is handled; then it is handed over at once. */
    method NetDidReceiveData(bytes: seq<Byte>, a: RL.Answer)
      requires Ready()
      modifies this, strategy`loads, strategy`registry, strategy`lastId, strategy`cancelled
      ensures Ready() && OthersKept(owner, old(strategy.loads), strategy.loads) && Ctx() == RL.OnData(old(Ctx()), bytes, a)
    {
      if loader != null {
        received := received + [bytes];
        if !responseCompleted {
          queued := queued + [bytes];
        } else {
          CallLoader(RL.DidReceiveBuffer(bytes), a.cancelFirst);
        }
      }
    }

    method NetDidComplete()
      requires Ready()
      modifies this, strategy`loads, strategy`registry, strategy`lastId, strategy`cancelled
      ensures Ready() && OthersKept(owner, old(strategy.loads), strategy.loads) && Ctx() == RL.OnComplete(old(Ctx()))
    {
      requestId := 0;
      if loader != null {
        if !responseCompleted {
          pendingComplete := true;
        } else {
          FinishLoading();
        }
      }
    }

    method NetDidFail()
      requires Ready()
      modifies this, strategy`loads, strategy`registry, strategy`lastId, strategy`cancelled
      ensures Ready() && OthersKept(owner, old(strategy.loads), strategy.loads) && Ctx() == RL.OnFail(old(Ctx()))
    {
      requestId := 0;
      if loader != null {
        DidFailInternal();
      }
    }

    method NetDidReceiveRedirect(status: int, location: bool, httpFamily: bool, a: RL.Answer)
      requires Ready()
      modifies this, strategy`loads, strategy`registry, strategy`lastId, strategy`cancelled
      ensures Ready() && OthersKept(owner, old(strategy.loads), strategy.loads) && Ctx() == RL.OnRedirect(old(Ctx()), me, status, location, httpFamily, a)
    {
      requestId := 0;
      if loader != null {
        if !RL.ShouldRedirect(status, location) {
          TellLoader(a);
          NetDidComplete();
        } else {
          PerformRedirect(httpFamily, a);
        }
      }
    }

    /** The loader's late answers. */
    method LateHandler(a: RL.Answer)
      requires Ready()
      modifies this, strategy`loads, strategy`registry, strategy`lastId, strategy`cancelled
      ensures Ready() && OthersKept(owner, old(strategy.loads), strategy.loads) && Ctx() == RL.LateHandler(old(Ctx()), a)
    {
      if handlers > 0 {
        handlers := handlers - 1;
        ResponseHandled(a);
        if a.cancelLast {
          Remove();
        }
      }
    }

    method LateDecision(a: RL.Answer)
      requires Ready()
      modifies this, strategy`loads, strategy`registry, strategy`lastId, strategy`cancelled
      ensures Ready() && OthersKept(owner, old(strategy.loads), strategy.loads) && Ctx() == RL.LateDecision(old(Ctx()), me, a)
    {
      if decisions > 0 {
        decisions := decisions - 1;
        Decided(a.allow);
      }
    }
  }

  /** The maps point at scheduled loads, m_loads at each by its own loader; no two
      loads share a loader. */
  ghost predicate MapsFit(s: LoaderStrategy, clients: seq<BibResourceLoad>, loads: map<ResourceLoader, BibResourceLoad>,
                          registry: map<nat, BibResourceLoad>) {
    && (forall i :: 0 <= i < |clients| ==> clients[i].me == i && clients[i].strategy == s)
    && (forall c, d :: c in clients && d in clients && c.owner == d.owner ==> c == d)
    && (forall r :: r in loads ==> loads[r] in clients && loads[r].owner == r)
    && (forall id :: id in registry ==> registry[id] in clients)
  }

  /** m_loads holds this load. */
  predicate Held(loads: map<ResourceLoader, BibResourceLoad>, load: BibResourceLoad) {
    load.owner in loads && loads[load.owner] == load
  }

  ghost function ViewsOf(clients: seq<BibResourceLoad>, loads: map<ResourceLoader, BibResourceLoad>): (views: seq<RL.Load>)
    reads clients
    ensures |views| == |clients| && forall i :: 0 <= i < |clients| ==> views[i] == clients[i].Fields(Held(loads, clients[i]))
  {
    if clients == [] then []
    else
      var last := clients[|clients| - 1];
      ViewsOf(clients[..|clients| - 1], loads) + [last.Fields(Held(loads, last))]
  }

  /** m_loads changed for one loader only. */
  predicate OthersKept(r: ResourceLoader, loads: map<ResourceLoader, BibResourceLoad>,
                       loads': map<ResourceLoader, BibResourceLoad>) {
    loads' - {r} == loads - {r}
  }

  lemma StillHeld(r: ResourceLoader, loads: map<ResourceLoader, BibResourceLoad>,
                  loads': map<ResourceLoader, BibResourceLoad>, load: BibResourceLoad)
    requires OthersKept(r, loads, loads') && load.owner != r
    ensures Held(loads', load) == Held(loads, load)
  {
    assert load.owner in loads <==> load.owner in loads - {r};
    assert load.owner in loads' <==> load.owner in loads' - {r};
  }

  ghost function Names(registry: map<nat, BibResourceLoad>): map<nat, RL.ClientId> {
    map id | id in registry :: registry[id].me
  }

  lemma NamesAdd(registry: map<nat, BibResourceLoad>, id: nat, load: BibResourceLoad)
    ensures Names(registry[id := load]) == Names(registry)[id := load.me]
  {
  }

  lemma NamesDrop(registry: map<nat, BibResourceLoad>, id: nat)
    ensures Names(registry - {id}) == Names(registry) - {id}
  {
  }

  lemma RegistryFits(s: LoaderStrategy, clients: seq<BibResourceLoad>, loads: map<ResourceLoader, BibResourceLoad>,
                     registry: map<nat, BibResourceLoad>, id: nat, load: BibResourceLoad)
    requires MapsFit(s, clients, loads, registry) && load in clients
    ensures MapsFit(s, clients, loads, registry[id := load])
  {
  }

  lemma DropFits(s: LoaderStrategy, clients: seq<BibResourceLoad>, loads: map<ResourceLoader, BibResourceLoad>,
                 registry: map<nat, BibResourceLoad>, id: nat)
    requires MapsFit(s, clients, loads, registry)
    ensures MapsFit(s, clients, loads, registry - {id})
  {
  }

  lemma LeaveFits(s: LoaderStrategy, clients: seq<BibResourceLoad>, loads: map<ResourceLoader, BibResourceLoad>,
                  registry: map<nat, BibResourceLoad>, r: ResourceLoader)
    requires MapsFit(s, clients, loads, registry)
    ensures MapsFit(s, clients, loads - {r}, registry)
  {
  }

  /** EmbedderLoaderStrategy with the bridge's client registry. */
  class LoaderStrategy {
    var loads: map<ResourceLoader, BibResourceLoad>    // m_loads
    var registry: map<nat, BibResourceLoad>            // netClientRegistry
    var lastId: nat                                    // s_nextRequestId
    ghost var clients: seq<BibResourceLoad>            // every load ever scheduled
    ghost var ended: seq<nat>
    ghost var cancelled: seq<nat>
    ghost var history: seq<N.NetEvent>

    ghost function Bridge(): RL.Bridge
      reads `registry, `lastId, `ended, `cancelled
    {
      RL.Bridge(Names(registry), lastId, ended, cancelled)
    }

    ghost predicate Shape()
      reads `clients, `loads, `registry, `lastId, clients
    {
      && MapsFit(this, clients, loads, registry)
      && (forall c :: c in clients ==> c.loader == null || c.loader == c.owner)
      && (forall id :: id in registry ==> 0 < id <= lastId)
    }

    /** netBridgeStart: a fresh id for the load. */
    method Start(load: BibResourceLoad) returns (id: nat)
      requires Shape() && load in clients
      modifies this`registry, this`lastId
      ensures Shape() && Bridge() == old(Bridge()).Start(load.me)
      ensures id == lastId > old(lastId) && id !in old(registry) && registry == old(registry)[id := load]
    {
      NamesAdd(registry, lastId + 1, load);
      RegistryFits(this, clients, loads, registry, lastId + 1, load);
      lastId := lastId + 1;
      id := lastId;
      registry := registry[id := load];
    }

    /** netBridgeCancel: nobody hears of the id again. */
    method CancelRequest(id: nat)
      requires Shape()
      modifies this`registry, this`cancelled
      ensures Shape() && Bridge() == old(Bridge()).Cancel(id)
      ensures registry == old(registry) - {id}
    {
      NamesDrop(registry, id);
      DropFits(this, clients, loads, registry, id);
      if id in registry {
        registry := registry - {id};
        cancelled := cancelled + [id];
      } else {
        assert registry - {id} == registry;
      }
    }

    /** A terminal message takes the registration with it. */
    method Take(id: nat)
      requires Shape() && id in registry
      modifies this`registry, this`ended
      ensures Shape() && Bridge() == old(Bridge()).Take(id)
      ensures registry == old(registry) - {id}
    {
      NamesDrop(registry, id);
      DropFits(this, clients, loads, registry, id);
      registry := registry - {id};
      ended := ended + [id];
    }

    /** Every load ever scheduled, with what m_loads says of it. */
    ghost function Views(): (views: seq<RL.Load>)
      reads `clients, `loads, clients
      ensures |views| == |clients| && forall i :: 0 <= i < |clients| ==> views[i] == clients[i].Fields(Held(loads, clients[i]))
    {
      ViewsOf(clients, loads)
    }

    /** The heap is the state of the network that its history leads to. */
    ghost predicate Valid()
      reads this, clients
    {
      Shape() && Agrees(N.NetRun(history), Bridge(), Views())
    }

    constructor ()
      ensures Valid() && history == [] && loads == map[] && registry == map[] && clients == []
    {
      loads, registry, lastId, clients, ended, cancelled, history := map[], map[], 0, [], [], [], [];
      new;
      assert Bridge() == N.NO_NET.b;
    }

    /** What has just been done to the heap goes down in its history. */
    ghost method Record(e: N.NetEvent)
      requires Shape() && Agrees(N.NetStep(N.NetRun(history), e), Bridge(), Views())
      modifies `history
      ensures Valid() && history == old(history) + [e]
    {
      OneMore(history, e, Bridge(), Views());
      history := history + [e];
    }

    /** Every registered object is a load with a loader, held by m_loads, waiting for
        exactly this id: no raw pointer in the registry dangles. */
    lemma RegisteredAreHeld()
      requires Valid()
      ensures forall id :: id in registry ==>
                registry[id].loader != null && Held(loads, registry[id]) && registry[id].requestId == id
    {
      var n := N.NetRun(history);
      N.RegistryIsSafe(history);
      forall id | id in registry
        ensures registry[id].loader != null && Held(loads, registry[id]) && registry[id].requestId == id
      {
        var load := registry[id];
        assert clients[load.me] == load && n.b.registry[id] == load.me;
        assert LoadSafety.Safe(RL.Ctx(n.b, n.loads[load.me]), load.me);
      }
    }

    /** With an orderly host, what the object's loader was given is exactly what the
        host said for the object's last hop.  While it has its loader, that was told
        the load finished exactly when the body is complete and the response handled,
        which it is when the host answered and the loader owes no answer; and it was
        told the load failed exactly when a failure was heard. */
    lemma {:induction false} Delivers(load: BibResourceLoad)
      requires Valid() && load in clients && N.OrderlyRun(history)
      ensures var chunks := Delivery.Chunks(HostFetch.Said(history, load.hop));
              && LoadExact.Buffers(load.calls) <= chunks
              && (load.loader != null && load.hasDone && load.responseCompleted ==> LoadExact.Buffers(load.calls) == chunks)
              && (RL.DidFinishLoading in load.calls ==> LoadExact.Buffers(load.calls) == chunks)
              && LoadExact.Terminals(load.calls) <= 1
      ensures var said := HostFetch.Said(history, load.hop);
              load.loader != null ==>
                && (RL.DidFinishLoading in load.calls <==> Delivery.Completed(said) && load.responseCompleted)
                && (load.responseCompleted <==> Finishing.Answered(said) && load.handlers == 0)
      ensures RL.DidFail in load.calls <==> Outcomes.HeardFailure(history, load.me)
    {
      assert clients[load.me] == load;
      Delivery.BodyIsExact(history, load.me);
      FinishCounts(load.calls);
      Outcomes.FailsExactlyWhen(history, load.me);
      if load.loader != null { Finishing.FinishesExactlyWhen(history, load.me); }
    }

    /** The loader's late answer to didReceiveResponse. */
    method ResponseAnswered(load: BibResourceLoad, a: RL.Answer)
      requires Valid() && load in clients
      modifies load, this
      ensures Valid() && clients == old(clients) && history == old(history) + [N.Loader(load.me, RL.Handled(a))]
    {
      ghost var before, b, was, ev := Views(), Bridge(), loads, RL.Handled(a);
      assert OthersSame(this, load, before, was);
      load.LateHandler(a);
      LoadStepped(this, load, ev, N.NetRun(history), b, before, was);
      Record(N.Loader(load.me, ev));
    }

    /** The loader's late answer about a redirect. */
    method RedirectAnswered(load: BibResourceLoad, a: RL.Answer)
      requires Valid() && load in clients
      modifies load, this
      ensures Valid() && clients == old(clients) && history == old(history) + [N.Loader(load.me, RL.PolicyDecides(a))]
    {
      ghost var before, b, was, ev := Views(), Bridge(), loads, RL.PolicyDecides(a);
      assert OthersSame(this, load, before, was);
      load.LateDecision(a);
      LoadStepped(this, load, ev, N.NetRun(history), b, before, was);
      Record(N.Loader(load.me, ev));
    }

    /** LoaderStrategy::remove.  From here on the loader is in no map and hears of no
        request: m_loads has no load for it, and the registry none of its ids. */
    method RemoveLoader(r: ResourceLoader)
      requires Valid()
      modifies loads.Values, this
      ensures Valid() && clients == old(clients) && loads == old(loads) - {r}
      ensures r !in old(loads) ==> history == old(history) && registry == old(registry)
      ensures r in old(loads) ==>
                var load := old(loads)[r];
                && load.loader == null && load.requestId == 0 && load.calls == old(load.calls)
                && history == old(history) + [N.Loader(load.me, RL.Cancels)]
                && forall id :: id in registry ==> registry[id] != load
    {
      if r in loads {
        var load := loads[r];
        HeldIsOpen(load);
        CancelLoad(load);
        RegisteredAreHeld();
      }
    }

    method CancelLoad(load: BibResourceLoad)
      requires Valid() && load in clients && Held(loads, load)
      modifies load, this
      ensures Valid() && clients == old(clients) && loads == old(loads) - {load.owner}
      ensures history == old(history) + [N.Loader(load.me, RL.Cancels)]
      ensures load.loader == null && load.requestId == 0 && load.calls == old(load.calls)
    {
      ghost var before, b, was := Views(), Bridge(), loads;
      assert OthersSame(this, load, before, was);
      load.Remove();
      LoadStepped(this, load, RL.Cancels, N.NetRun(history), b, before, was);
      Record(N.Loader(load.me, RL.Cancels));
    }

    lemma HeldIsOpen(load: BibResourceLoad)
      requires Valid() && load in clients
      ensures Held(loads, load) ==> load.loader != null && load.hasDone
    {
      var n := N.NetRun(history);
      N.RegistryIsSafe(history);
      assert clients[load.me] == load;
      assert LoadSafety.Safe(RL.Ctx(n.b, n.loads[load.me]), load.me);
    }

    /** A host message reaches the engine.  For an id the registry does not hold it
        does nothing; a terminal one takes the id out of the registry. */
    method Says(id: nat, m: RL.Msg, a: RL.Answer)
      requires Valid()
      modifies registry.Values, this
      ensures Valid() && clients == old(clients) && history == old(history) + [N.Says(id, m, a)]
      ensures id !in old(registry) ==> Bridge() == old(Bridge()) && Views() == old(Views()) && registry == old(registry)
      ensures m.Done? || m.Fail? || m.Redirect? || (m.Response? && !m.ok) ==> id !in registry
    {
      if id in registry {
        Hear(registry[id], id, m, a);
        if id in ended { EndedIsGone(id); }
      } else {
        Unheard(N.NetRun(history), Bridge(), Views(), id, m, a);
        Record(N.Says(id, m, a));
      }
    }

    method Hear(load: BibResourceLoad, id: nat, m: RL.Msg, a: RL.Answer)
      requires Valid() && load in clients && id in registry && registry[id] == load
      modifies load, this
      ensures Valid() && clients == old(clients) && history == old(history) + [N.Says(id, m, a)]
      ensures m.Done? || m.Fail? || m.Redirect? || (m.Response? && !m.ok) ==> id in ended
    {
      ghost var before, b, was := Views(), Bridge(), loads;
      assert OthersSame(this, load, before, was);
      Dispatch(load, id, m, a);
      LoadHeard(this, load, id, m, a, N.NetRun(history), b, before, was);
      Record(N.Says(id, m, a));
    }

    /** An id that was ended is in the registry no more. */
    lemma EndedIsGone(id: nat)
      requires Valid() && id in ended
      ensures id !in registry
    {
      N.RegistryIsSafe(history);
      assert N.NetRun(history).b == Bridge();
    }

    /** The five dispatchers, for a message whose id is registered to the load. */
    method Dispatch(load: BibResourceLoad, id: nat, m: RL.Msg, a: RL.Answer)
      requires Shape() && load in clients && id in registry && registry[id] == load
      modifies load, this`loads, this`registry, this`lastId, this`cancelled, this`ended
      ensures Shape() && OthersKept(load.owner, old(loads), loads)
      ensures load.Ctx() == RL.Step(old(load.Ctx()), load.me, RL.Hears(id, m, a))
      ensures m.Done? || m.Fail? || m.Redirect? || (m.Response? && !m.ok) ==> id in ended
    {
      match m
      case Data(bytes) => load.NetDidReceiveData(bytes, a);
      case Response(ok) =>
        if ok {
          load.NetDidReceiveResponse(a);
        } else {
          Take(id);
          load.NetDidFail();
        }
      case Done =>
        Take(id);
        load.NetDidComplete();
      case Fail =>
        Take(id);
        load.NetDidFail();
      case Redirect(ok, status, location, httpFamily) =>
        Take(id);
        if ok {
          load.NetDidReceiveRedirect(status, location, httpFamily, a);
        } else {
          load.NetDidFail();
        }
    }

    /** scheduleLoad: a new load enters m_loads and starts under a fresh id. */
    method ScheduleLoad(r: ResourceLoader) returns (load: BibResourceLoad)
      requires Valid() && forall c :: c in clients ==> c.owner != r
      modifies this
      ensures Valid() && fresh(load) && clients == old(clients) + [load] && loads == old(loads)[r := load]
      ensures load.requestId !in old(registry) && registry == old(registry)[load.requestId := load]
      ensures history == old(history) + [N.Schedule(|old(clients)|)]
    {
      load := new BibResourceLoad(this, r, |clients|);
      StartNew(load);
    }

    method StartNew(load: BibResourceLoad)
      requires Valid() && load.strategy == this && load.me == |clients| && load.loader == load.owner
      requires load.Fields(true) == RL.NEW_LOAD && forall c :: c in clients ==> c.owner != load.owner
      modifies load, `clients, `loads, `registry, `lastId, `history
      ensures Valid() && clients == old(clients) + [load] && loads == old(loads)[load.owner := load]
      ensures load.requestId !in old(registry) && registry == old(registry)[load.requestId := load]
      ensures history == old(history) + [N.Schedule(load.me)]
    {
      ghost var b, before, was, earlier, n := Bridge(), Views(), loads, clients, N.NetRun(history);
      assert load !in earlier && AsBefore(earlier, before, was);
      StartEntered(load);
      LoadScheduled(this, load, n, b, earlier, before, was, load.me);
      Record(N.Schedule(load.me));
    }

    method StartEntered(load: BibResourceLoad)
      requires Shape() && load.strategy == this && load.me == |clients| && load.loader == load.owner
      requires load.Fields(true) == RL.NEW_LOAD && forall c :: c in clients ==> c.owner != load.owner
      modifies load, `clients, `loads, `registry, `lastId
      ensures Shape() && clients == old(clients) + [load] && loads == old(loads)[load.owner := load]
      ensures load.requestId !in old(registry) && registry == old(registry)[load.requestId := load]
      ensures load.Ctx() == RL.StartRequest(RL.Ctx(old(Bridge()), RL.NEW_LOAD), load.me)
    {
      Enter(load);
      load.StartBridgeRequest();
    }

    method Enter(load: BibResourceLoad)
      requires Shape() && load.strategy == this && load.me == |clients| && load.loader == load.owner
      requires load.Fields(true) == RL.NEW_LOAD && forall c :: c in clients ==> c.owner != load.owner
      modifies `clients, `loads
      ensures Shape() && clients == old(clients) + [load] && loads == old(loads)[load.owner := load]
      ensures load.Ctx() == RL.Ctx(Bridge(), RL.NEW_LOAD)
    {
      ScheduleFits(this, clients, loads, registry, load);
      clients, loads := clients + [load], loads[load.owner := load];
    }
  }

  /** The state of a network with these loads and no beacons. */
  ghost predicate Agrees(n: N.Net, b: RL.Bridge, views: seq<RL.Load>) {
    && n.b == b && n.pings == map[]
    && (forall c: nat :: c in n.loads <==> c < |views|)
    && (forall i :: 0 <= i < |views| ==> n.loads[i] == views[i])
  }

  lemma NetStepped(n: N.Net, b: RL.Bridge, views: seq<RL.Load>, b': RL.Bridge, views': seq<RL.Load>, k: nat, ev: RL.Event)
    requires Agrees(n, b, views) && k < |views| == |views'| && !ev.Hears?
    requires RL.Ctx(b', views'[k]) == RL.Step(RL.Ctx(b, views[k]), k, ev)
    requires forall i :: 0 <= i < |views| && i != k ==> views'[i] == views[i]
    ensures Agrees(N.NetStep(n, N.Loader(k, ev)), b', views')
  {
  }

  /** Others' fields are as they were before, when m_loads was `was`. */
  ghost predicate OthersSame(s: LoaderStrategy, load: BibResourceLoad, before: seq<RL.Load>, was: map<ResourceLoader, BibResourceLoad>)
    reads s`clients, set c | c in s.clients && c != load
  {
    |before| == |s.clients| &&
    forall i :: 0 <= i < |s.clients| && s.clients[i] != load ==> before[i] == s.clients[i].Fields(Held(was, s.clients[i]))
  }

  lemma OthersViewed(s: LoaderStrategy, load: BibResourceLoad, before: seq<RL.Load>, was: map<ResourceLoader, BibResourceLoad>)
    requires s.Shape() && load in s.clients && OthersSame(s, load, before, was) && OthersKept(load.owner, was, s.loads)
    ensures load.me < |s.clients| && s.clients[load.me] == load && s.Views()[load.me] == load.View()
    ensures forall i :: 0 <= i < |before| && i != load.me ==> s.Views()[i] == before[i]
  {
    OnlyOne(s.clients, load, was, s.loads);
  }

  /** A step of one load is a step of the network. */
  lemma LoadStepped(s: LoaderStrategy, load: BibResourceLoad, ev: RL.Event, n: N.Net, b: RL.Bridge, before: seq<RL.Load>,
                    was: map<ResourceLoader, BibResourceLoad>)
    requires s.Shape() && load in s.clients && OthersSame(s, load, before, was) && OthersKept(load.owner, was, s.loads)
    requires Agrees(n, b, before) && load.me < |before| && !ev.Hears?
    requires load.Ctx() == RL.Step(RL.Ctx(b, before[load.me]), load.me, ev)
    ensures Agrees(N.NetStep(n, N.Loader(load.me, ev)), s.Bridge(), s.Views())
  {
    OthersViewed(s, load, before, was);
    NetStepped(n, b, before, s.Bridge(), s.Views(), load.me, ev);
  }

  /** Other loads are to m_loads what they were. */
  lemma OnlyOne(clients: seq<BibResourceLoad>, load: BibResourceLoad, loads: map<ResourceLoader, BibResourceLoad>,
                loads': map<ResourceLoader, BibResourceLoad>)
    requires load in clients && OthersKept(load.owner, loads, loads')
    requires forall c, d :: c in clients && d in clients && c.owner == d.owner ==> c == d
    ensures forall d :: d in clients && d != load ==> Held(loads', d) == Held(loads, d)
  {
    forall d | d in clients && d != load ensures Held(loads', d) == Held(loads, d) {
      StillHeld(load.owner, loads, loads', d);
    }
  }

  lemma OneMore(history: seq<N.NetEvent>, e: N.NetEvent, b: RL.Bridge, views: seq<RL.Load>)
    requires Agrees(N.NetStep(N.NetRun(history), e), b, views)
    ensures Agrees(N.NetRun(history + [e]), b, views)
  {
    assert (history + [e])[..|history|] == history;
  }

  lemma ScheduleFits(s: LoaderStrategy, clients: seq<BibResourceLoad>, loads: map<ResourceLoader, BibResourceLoad>,
                     registry: map<nat, BibResourceLoad>, load: BibResourceLoad)
    requires MapsFit(s, clients, loads, registry) && load.strategy == s && load.me == |clients|
    requires forall c :: c in clients ==> c.owner != load.owner
    ensures MapsFit(s, clients + [load], loads[load.owner := load], registry)
  {
  }

  /** A message for a registered load is a step of the network. */
  lemma LoadHeard(s: LoaderStrategy, load: BibResourceLoad, id: nat, m: RL.Msg, a: RL.Answer, n: N.Net, b: RL.Bridge,
                  before: seq<RL.Load>, was: map<ResourceLoader, BibResourceLoad>)
    requires s.Shape() && load in s.clients && OthersSame(s, load, before, was) && OthersKept(load.owner, was, s.loads)
    requires Agrees(n, b, before) && load.me < |before| && id in b.registry && b.registry[id] == load.me
    requires load.Ctx() == RL.Step(RL.Ctx(b, before[load.me]), load.me, RL.Hears(id, m, a))
    ensures Agrees(N.NetStep(n, N.Says(id, m, a)), s.Bridge(), s.Views())
  {
    OthersViewed(s, load, before, was);
    NetHeard(n, b, before, s.Bridge(), s.Views(), load.me, id, m, a);
  }

  lemma NetHeard(n: N.Net, b: RL.Bridge, views: seq<RL.Load>, b': RL.Bridge, views': seq<RL.Load>, k: nat,
                 id: nat, m: RL.Msg, a: RL.Answer)
    requires Agrees(n, b, views) && k < |views| == |views'| && id in b.registry && b.registry[id] == k
    requires RL.Ctx(b', views'[k]) == RL.Step(RL.Ctx(b, views[k]), k, RL.Hears(id, m, a))
    requires forall i :: 0 <= i < |views| && i != k ==> views'[i] == views[i]
    ensures Agrees(N.NetStep(n, N.Says(id, m, a)), b', views')
  {
    Acknowledgements.HearIs(n, id, m, a, k);
  }

  /** These loads' fields are as they were before, when m_loads was `was`. */
  ghost predicate AsBefore(earlier: seq<BibResourceLoad>, before: seq<RL.Load>, was: map<ResourceLoader, BibResourceLoad>)
    reads earlier
  {
    |before| == |earlier| && forall i :: 0 <= i < |earlier| ==> before[i] == earlier[i].Fields(Held(was, earlier[i]))
  }

  lemma LoadScheduled(s: LoaderStrategy, load: BibResourceLoad, n: N.Net, b: RL.Bridge, earlier: seq<BibResourceLoad>,
                      before: seq<RL.Load>, was: map<ResourceLoader, BibResourceLoad>, k: nat)
    requires k == |before| && s.Shape() && Agrees(n, b, before) && s.clients == earlier + [load] && AsBefore(earlier, before, was)
    requires forall c :: c in earlier ==> c.owner != load.owner
    requires s.loads == was[load.owner := load] && load.Ctx() == RL.StartRequest(RL.Ctx(b, RL.NEW_LOAD), k)
    ensures Agrees(N.NetStep(n, N.Schedule(k)), s.Bridge(), s.Views())
  {
    assert s.clients[|before|] == load;
    forall i | 0 <= i < |before| ensures s.Views()[i] == before[i] {
      assert s.clients[i] == earlier[i] && earlier[i] in earlier;
    }
  }

  lemma Unheard(n: N.Net, b: RL.Bridge, views: seq<RL.Load>, id: nat, m: RL.Msg, a: RL.Answer)
    requires Agrees(n, b, views) && id !in b.registry
    ensures Agrees(N.NetStep(n, N.Says(id, m, a)), b, views)
  {
  }

  lemma {:induction false} FinishCounts(calls: seq<RL.Call>)
    ensures RL.DidFinishLoading in calls <==> LoadExact.Finishes(calls) > 0
    decreases |calls|
  {
    if calls != [] { FinishCounts(calls[..|calls| - 1]); }
  }
}
