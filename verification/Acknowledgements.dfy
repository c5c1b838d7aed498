/** What the engine acknowledges to the host, which paces itself by it. */
module Acknowledgements {
  import opened Basics
  import opened ResourceLoad
  import opened LoadSafety
  import opened LoadExact
  import opened Network
  import opened HostFetch
  import opened Delivery

  // ----- every id ---------------------------------------------------------------

  /** The messages of a run that reach a client through id. */
  function Heard(evs: seq<NetEvent>, id: nat): seq<Msg>
    decreases |evs|
  {
    if evs == [] then []
    else
      var most, e := evs[..|evs| - 1], evs[|evs| - 1];
      Heard(most, id) + if Reaches(NetRun(most), e, id) then [e.m] else []
  }

  predicate Reaches(n: Net, e: NetEvent, id: nat) { e.Says? && e.id == id && id in n.b.registry }

  lemma StepAcks(n: Net, e: NetEvent, id: nat)
    ensures AckedOf(NetStep(n, e), id) == AckedOf(n, id) + if Reaches(n, e, id) && e.m.Data? then |e.m.bytes| else 0
  {
  }

  lemma HeardLength(msgs: seq<Msg>, m: Msg)
    ensures |Body(msgs + [m])| == |Body(msgs)| + if m.Data? then |m.bytes| else 0
  {
    BodyMore(msgs, m);
  }

  /** With any host: what is acknowledged for an id, be it a load's earlier hop or a
      beacon, is the length of the data that reached its client, late and repeated
      messages never counting. */
  lemma {:induction false} AcksAreExact(evs: seq<NetEvent>, id: nat)
    ensures AckedOf(NetRun(evs), id) == |Body(Heard(evs, id))|
    decreases |evs|
  {
    if evs != [] {
      var most, e := evs[..|evs| - 1], evs[|evs| - 1];
      AcksAreExact(most, id);
      StepAcks(NetRun(most), e, id);
      if Reaches(NetRun(most), e, id) {
        HeardLength(Heard(most, id), e.m);
      } else {
        assert Heard(most, id) + [] == Heard(most, id);
      }
    }
  }

  // ----- with an orderly host, everything but what a cancel cut off -------------

  lemma PingCounts(b: Bridge, p: Ping, c: ClientId, id: nat, m: Msg)
    requires IdsOnce(b) && PingOwned(b, p, c) && id in b.registry && b.registry[id] == c
    ensures var b' := PingHears(b, p, id, m).0;
            && b'.ended == b.ended + (if EndsRequest(m) then [id] else [])
            && (Accounted(b) ==> Accounted(b')) && b'.lastId == b.lastId && b'.registry.Keys <= b.registry.Keys
  {
  }

  /** What an event does to the bridge. */
  ghost predicate BridgeStep(b: Bridge, b': Bridge, e: NetEvent) {
    && b'.ended == b.ended + (if e.Says? && e.id in b.registry && EndsRequest(e.m) then [e.id] else [])
    && (Accounted(b) ==> Accounted(b'))
    && (forall id :: id in b'.registry ==> id in b.registry || id > b.lastId)
  }

  lemma LoadBridge(n: Net, c: ClientId, ev: Event)
    requires NetSafe(n) && c in n.loads
    ensures var b' := StepLoad(n, c, ev).b;
            && b'.ended == n.b.ended + (if Brings(Ctx(n.b, n.loads[c]), c, ev) && EndsRequest(ev.m) then [ev.id] else [])
            && (Accounted(n.b) ==> Accounted(b'))
            && (forall id :: id in b'.registry ==> id in n.b.registry || id > n.b.lastId)
  {
    StepCounts(Ctx(n.b, n.loads[c]), c, ev);
    OnlyNewIds(Ctx(n.b, n.loads[c]), c, ev);
  }

  lemma HearBridge(n: Net, id: nat, m: Msg, a: Answer)
    requires NetSafe(n)
    ensures BridgeStep(n.b, Hear(n, id, m, a).b, Says(id, m, a))
  {
    if id in n.b.registry {
      var c := n.b.registry[id];
      if c in n.loads { LoadBridge(n, c, Hears(id, m, a)); } else { PingCounts(n.b, n.pings[c], c, id, m); }
    }
  }

  lemma StepBridge(n: Net, e: NetEvent)
    requires NetSafe(n)
    ensures BridgeStep(n.b, NetStep(n, e).b, e)
  {
    match e
    case Says(id, m, a) => HearBridge(n, id, m, a);
    case Loader(c, ev) => if c in n.loads && !ev.Hears? { LoadBridge(n, c, ev); }
    case _ =>
  }

  /** The response among the messages has headers that parse. */
  predicate Parse(msgs: seq<Msg>) { forall m :: m in msgs && m.Response? ==> m.ok }

  /** How much of what is said for id has been heard. */
  ghost predicate HeardSo(b: Bridge, phases: map<nat, Phase>, id: nat, heard: seq<Msg>, said: seq<Msg>) {
    && heard <= said
    && (id in b.registry ==> heard == said)
    && (id in b.ended && Parse(said) ==> heard == said && PhaseOf(phases, id) == Closed)
  }

  lemma HeardStep(n: Net, e: NetEvent, n': Net, id: nat, heard: seq<Msg>, said: seq<Msg>)
    requires NetSafe(n) && Orderly(n, e) && HeardSo(n.b, n.phases, id, heard, said)
    requires n' == NetStep(n, e) && BridgeStep(n.b, n'.b, e) && (id > n.b.lastId ==> said == [])
    ensures HeardSo(n'.b, n'.phases, id, heard + (if Reaches(n, e, id) then [e.m] else []), SaidWith(said, e, id))
  {
    assert heard + [] == heard;
    if e.Says? { HearIds(n, e.id, e.m, e.a); }
  }

  lemma {:induction false} HeardRun(evs: seq<NetEvent>, id: nat)
    requires OrderlyRun(evs)
    ensures HeardSo(NetRun(evs).b, NetRun(evs).phases, id, Heard(evs, id), Said(evs, id))
    ensures Accounted(NetRun(evs).b)
    decreases |evs|
  {
    if evs != [] {
      var most, e := evs[..|evs| - 1], evs[|evs| - 1];
      var n := NetRun(most);
      HeardRun(most, id);
      RegistryIsSafe(most);
      StepBridge(n, e);
      if id > n.b.lastId { UnbegunIsSilent(most, id); }
      HeardStep(n, e, NetRun(evs), id, Heard(most, id), Said(most, id));
    }
  }

  /** With an orderly host: what reaches a client is a first part of what is said for its
      request.  Unless the request is cancelled or ended early by a response that
      does not parse, every byte said is acknowledged, and a host waiting for its
      window is not left waiting. */
  lemma {:induction false} EveryByteIsAcked(evs: seq<NetEvent>, id: nat)
    requires OrderlyRun(evs)
    ensures Heard(evs, id) <= Said(evs, id)
    ensures 0 < id <= NetRun(evs).b.lastId && id !in NetRun(evs).b.cancelled && Parse(Said(evs, id)) ==>
              AckedOf(NetRun(evs), id) == |Body(Said(evs, id))|
  {
    HeardRun(evs, id);
    AcksAreExact(evs, id);
  }

  // ----- what the load received ---------------------------------------------------

  /** An id that is some load's hop is registered to nobody else. */
  ghost predicate HopIsOwn(b: Bridge, hop: nat, c: ClientId) { hop in b.registry ==> b.registry[hop] == c }

  ghost predicate AckExact(n: Net, l: Load) { AckedOf(n, l.hop) == |Joined(l.received)| }

  ghost predicate Acks(n: Net) {
    && (forall id :: id in n.acked ==> id <= n.b.lastId)
    && (forall c :: c in n.loads ==> HopIsOwn(n.b, n.loads[c].hop, c) && AckExact(n, n.loads[c]))
  }

  lemma JoinedLength(chunks: seq<seq<Byte>>, bytes: seq<Byte>)
    ensures |Joined(chunks + [bytes])| == |Joined(chunks)| + |bytes|
  {
    assert (chunks + [bytes])[..|chunks|] == chunks;
  }

  lemma OtherHopOwn(b: Bridge, b': Bridge, l: Load, c: ClientId, d: ClientId)
    requires OthersKept(b, b', c) && c != d && HopIsOwn(b, l.hop, d) && l.hop <= b.lastId
    requires forall id :: id in b'.registry && b'.registry[id] == c ==> id in b.registry || id > b.lastId
    ensures HopIsOwn(b', l.hop, d)
  {
  }

  /** The ids an event registers to a load are new. */
  lemma OnlyNewIds(x: Ctx, c: ClientId, ev: Event)
    requires Safe(x, c)
    ensures forall id :: id in Step(x, c, ev).b.registry && Step(x, c, ev).b.registry[id] == c ==>
              id in x.b.registry || id > x.b.lastId
    ensures OthersKept(x.b, Step(x, c, ev).b, c)
  {
    StepFine(x, c, ev);
  }

  lemma OwnHopOwn(x: Ctx, c: ClientId, ev: Event)
    requires Safe(x, c) && HopIsOwn(x.b, x.l.hop, c)
    ensures HopIsOwn(Step(x, c, ev).b, Step(x, c, ev).l.hop, c)
  {
    StepFine(x, c, ev);
  }

  /** What one event does to a load's acknowledged bytes. */
  lemma OwnAcks(x: Ctx, c: ClientId, ev: Event, acked: nat)
    requires Safe(x, c) && acked == |Joined(x.l.received)|
    ensures var l' := Step(x, c, ev).l;
            if l'.hop == x.l.hop
            then |Joined(l'.received)| == acked + if Brings(x, c, ev) && ev.m.Data? then |ev.m.bytes| else 0
            else l'.hop > x.b.lastId && l'.received == []
    ensures Brings(x, c, ev) ==> ev.id == x.l.hop
  {
    StepFine(x, c, ev);
    BroughtReceived(x, c, ev);
    if Brings(x, c, ev) && ev.m.Data? { JoinedLength(x.l.received, ev.m.bytes); }
  }

  /** A step of load c leaves the others' hops and acknowledgements alone. */
  lemma OtherAcks(n: Net, c: ClientId, ev: Event, d: ClientId, acked: map<nat, nat>)
    requires NetSafe(n) && Acks(n) && c in n.loads && d in n.loads && d != c
    requires forall id :: id != n.loads[c].hop && id in n.acked ==> id in acked && acked[id] == n.acked[id]
    requires forall id :: id in acked ==> id in n.acked || (id == n.loads[c].hop && Brings(Ctx(n.b, n.loads[c]), c, ev))
    requires n.acked != acked ==> Brings(Ctx(n.b, n.loads[c]), c, ev) && ev.id == n.loads[c].hop
    ensures HopIsOwn(Step(Ctx(n.b, n.loads[c]), c, ev).b, n.loads[d].hop, d)
    ensures AckExact(n.(acked := acked), n.loads[d])
  {
    var x := Ctx(n.b, n.loads[c]);
    OnlyNewIds(x, c, ev);
    assert Safe(Ctx(n.b, n.loads[d]), d);
    OtherHopOwn(n.b, Step(x, c, ev).b, n.loads[d], c, d);
    assert HopIsOwn(n.b, n.loads[d].hop, d);
  }

  lemma LoaderAcks(n: Net, c: ClientId, ev: Event)
    requires NetSafe(n) && Acks(n) && c in n.loads && !ev.Hears?
    ensures Acks(StepLoad(n, c, ev))
  {
    var x, n' := Ctx(n.b, n.loads[c]), StepLoad(n, c, ev);
    LoaderIds(n, c, ev);
    OwnHopOwn(x, c, ev);
    OwnAcks(x, c, ev, AckedOf(n, x.l.hop));
    forall d | d in n'.loads ensures HopIsOwn(n'.b, n'.loads[d].hop, d) && AckExact(n', n'.loads[d]) {
      if d != c { OtherAcks(n, c, ev, d, n.acked); }
    }
  }

  lemma HearIs(n: Net, id: nat, m: Msg, a: Answer, c: ClientId)
    requires id in n.b.registry && n.b.registry[id] == c && c in n.loads
    ensures var n', x' := Hear(n, id, m, a), Step(Ctx(n.b, n.loads[c]), c, Hears(id, m, a));
            && n'.b == x'.b && n'.loads == n.loads[c := x'.l]
            && n'.acked == if m.Data? then n.acked[id := AckedOf(n, id) + |m.bytes|] else n.acked
  {
  }

  lemma OwnAckExact(n: Net, n': Net, x: Ctx, c: ClientId, ev: Event)
    requires NetSafe(n) && Acks(n) && c in n.loads && x == Ctx(n.b, n.loads[c]) && Brings(x, c, ev)
    requires n'.acked == if ev.m.Data? then n.acked[ev.id := AckedOf(n, ev.id) + |ev.m.bytes|] else n.acked
    ensures AckExact(n', Step(x, c, ev).l) && ev.id == x.l.hop
  {
    OwnAcks(x, c, ev, AckedOf(n, x.l.hop));
  }

  lemma OtherHeardAcks(n: Net, n': Net, c: ClientId, ev: Event, d: ClientId)
    requires NetSafe(n) && Acks(n) && c in n.loads && d in n.loads && d != c
    requires Brings(Ctx(n.b, n.loads[c]), c, ev) && ev.id == n.loads[c].hop && n'.b == Step(Ctx(n.b, n.loads[c]), c, ev).b
    requires n'.acked == if ev.m.Data? then n.acked[ev.id := AckedOf(n, ev.id) + |ev.m.bytes|] else n.acked
    ensures HopIsOwn(n'.b, n.loads[d].hop, d) && AckExact(n', n.loads[d])
  {
    OtherAcks(n, c, ev, d, n'.acked);
    assert AckedOf(n', n.loads[d].hop) == AckedOf(n.(acked := n'.acked), n.loads[d].hop);
  }

  lemma HeardAcks(n: Net, n': Net, x: Ctx, x': Ctx, c: ClientId, ev: Event)
    requires NetSafe(n) && Acks(n) && c in n.loads && x == Ctx(n.b, n.loads[c]) && Brings(x, c, ev)
    requires x' == Step(x, c, ev) && n'.b == x'.b && n'.loads == n.loads[c := x'.l] && n.b.lastId <= x'.b.lastId
    requires n'.acked == if ev.m.Data? then n.acked[ev.id := AckedOf(n, ev.id) + |ev.m.bytes|] else n.acked
    ensures Acks(n')
  {
    OwnHopOwn(x, c, ev);
    OwnAckExact(n, n', x, c, ev);
    assert ev.id <= n.b.lastId;
    forall d | d in n.loads && d != c ensures HopIsOwn(n'.b, n.loads[d].hop, d) && AckExact(n', n.loads[d]) {
      OtherHeardAcks(n, n', c, ev, d);
    }
    AllAcks(n, n', c);
  }

  lemma HearLoadAcks(n: Net, id: nat, m: Msg, a: Answer, c: ClientId)
    requires NetSafe(n) && Acks(n) && id in n.b.registry && n.b.registry[id] == c && c in n.loads
    ensures Acks(Hear(n, id, m, a))
  {
    var x := Ctx(n.b, n.loads[c]);
    HearIs(n, id, m, a, c);
    HearIds(n, id, m, a);
    HeardAcks(n, Hear(n, id, m, a), x, Step(x, c, Hears(id, m, a)), c, Hears(id, m, a));
  }

  lemma AllAcks(n: Net, n': Net, c: ClientId)
    requires n.b.lastId <= n'.b.lastId && n'.loads.Keys == n.loads.Keys && c in n.loads
    requires forall id :: id in n'.acked ==> id <= n.b.lastId
    requires HopIsOwn(n'.b, n'.loads[c].hop, c) && AckExact(n', n'.loads[c])
    requires forall d :: d in n.loads && d != c ==>
               n'.loads[d] == n.loads[d] && HopIsOwn(n'.b, n.loads[d].hop, d) && AckExact(n', n.loads[d])
    ensures Acks(n')
  {
  }

  lemma HearPingAcks(n: Net, id: nat, m: Msg, a: Answer, c: ClientId)
    requires NetSafe(n) && Acks(n) && id in n.b.registry && n.b.registry[id] == c && c !in n.loads
    ensures Acks(Hear(n, id, m, a))
  {
    var n' := Hear(n, id, m, a);
    forall d | d in n'.loads ensures HopIsOwn(n'.b, n'.loads[d].hop, d) && AckExact(n', n'.loads[d]) {
      assert HopIsOwn(n.b, n.loads[d].hop, d);
    }
  }

  lemma NewClientAcks(n: Net, e: NetEvent)
    requires NetSafe(n) && Acks(n) && (e.Schedule? || e.Beacon?)
    ensures Acks(NetStep(n, e))
  {
    var n' := NetStep(n, e);
    forall d | d in n'.loads ensures HopIsOwn(n'.b, n'.loads[d].hop, d) && AckExact(n', n'.loads[d]) {
      if d in n.loads {
        assert Safe(Ctx(n.b, n.loads[d]), d);
      }
    }
  }

  lemma {:induction false} RunAcks(evs: seq<NetEvent>)
    ensures Acks(NetRun(evs))
    decreases |evs|
  {
    if evs != [] {
      var n, e := NetRun(evs[..|evs| - 1]), evs[|evs| - 1];
      RunAcks(evs[..|evs| - 1]);
      RegistryIsSafe(evs[..|evs| - 1]);
      match e
      case Schedule(c) => NewClientAcks(n, e);
      case Beacon(c) => NewClientAcks(n, e);
      case Loader(c, ev) => if c in n.loads && !ev.Hears? { LoaderAcks(n, c, ev); }
      case Says(id, m, a) =>
        if id in n.b.registry {
          var c := n.b.registry[id];
          if c in n.loads { HearLoadAcks(n, id, m, a, c); } else { HearPingAcks(n, id, m, a, c); }
        }
    }
  }

  /** With any host: what is acknowledged for a load's last hop is what the load
      received there. */
  lemma {:induction false} HopAcksAreReceived(evs: seq<NetEvent>, c: ClientId)
    requires c in NetRun(evs).loads
    ensures var l := NetRun(evs).loads[c]; AckedOf(NetRun(evs), l.hop) == |Joined(l.received)|
  {
    RunAcks(evs);
  }

  lemma GoneStep(n: Net, e: NetEvent, id: nat)
    requires NetSafe(n) && id <= n.b.lastId && id !in n.b.registry
    ensures var n' := NetStep(n, e);
            id <= n'.b.lastId && id !in n'.b.registry && AckedOf(n', id) == AckedOf(n, id)
  {
    StepAcks(n, e, id);
    StepBridge(n, e);
    match e
    case Says(i, m, a) => HearIds(n, i, m, a);
    case Loader(c, ev) => if c in n.loads { LoaderIds(n, c, ev); }
    case _ =>
  }

  /** And it stays so when the load goes on to other hops: for each hop, the bytes
      acknowledged are for ever those the load had received when the hop was over. */
  lemma {:induction false} EarlierHopAcks(evs: seq<NetEvent>, more: seq<NetEvent>, c: ClientId)
    requires c in NetRun(evs).loads && NetRun(evs).loads[c].hop !in NetRun(evs).b.registry
    ensures var l, n' := NetRun(evs).loads[c], NetRun(evs + more);
            l.hop !in n'.b.registry && l.hop <= n'.b.lastId && AckedOf(n', l.hop) == |Joined(l.received)|
    decreases |more|
  {
    if more == [] {
      assert evs + more == evs;
      HopAcksAreReceived(evs, c);
      RegistryIsSafe(evs);
      assert Safe(Ctx(NetRun(evs).b, NetRun(evs).loads[c]), c);
    } else {
      var most, e := more[..|more| - 1], more[|more| - 1];
      EarlierHopAcks(evs, most, c);
      RegistryIsSafe(evs + most);
      GoneStep(NetRun(evs + most), e, NetRun(evs).loads[c].hop);
      assert evs + more == (evs + most) + [e];
      assert (evs + most + [e])[..|evs + most|] == evs + most;
    }
  }
}
