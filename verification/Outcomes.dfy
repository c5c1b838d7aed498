/** How a load ends for its loader: the failures it is told of, and that it ends at all
    unless its loader gives it up. */
module Outcomes {
  import opened Basics
  import opened ResourceLoad
  import opened LoadSafety
  import opened LoadExact
  import opened Network
  import opened HostFetch
  import opened Delivery
  import opened Redirects
  import opened Finishing

  // ----- failures, with any host --------------------------------------------------------

  predicate FailedBy(n: Net, redirects: nat, e: NetEvent, c: ClientId) {
    e.Says? && e.id in n.b.registry && n.b.registry[e.id] == c && FailsLoad(e.m, redirects)
  }

  /** The run brings load c a failure, a message that does not parse, or a redirect it
      must not follow. */
  predicate HeardFailure(evs: seq<NetEvent>, c: ClientId)
    decreases |evs|
  {
    evs != [] &&
    (HeardFailure(evs[..|evs| - 1], c) ||
     FailedBy(NetRun(evs[..|evs| - 1]), RedirectsHeard(evs[..|evs| - 1], c), evs[|evs| - 1], c))
  }

  ghost predicate FailedSo(n: Net, c: ClientId, heard: bool) {
    && (c in n.loads ==> (ToldFailed(n.loads[c]) <==> heard))
    && (c !in n.loads && c !in n.pings ==> !heard)
  }

  lemma LoadFailed(n: Net, c: ClientId, ev: Event)
    requires NetSafe(n) && c in n.loads
    ensures ToldFailed(StepLoad(n, c, ev).loads[c]) <==>
            ToldFailed(n.loads[c]) || (Brings(Ctx(n.b, n.loads[c]), c, ev) && FailsLoad(ev.m, n.loads[c].redirectCount))
  {
    StepCounts(Ctx(n.b, n.loads[c]), c, ev);
  }

  lemma OwnFailed(n: Net, e: NetEvent, c: ClientId, heard: bool)
    requires NetSafe(n) && FailedSo(n, c, heard) && c in n.loads && About(n, e, c)
    ensures FailedSo(NetStep(n, e), c, heard || FailedBy(n, n.loads[c].redirectCount, e, c))
  {
    LoadFailed(n, c, if e.Says? then Hears(e.id, e.m, e.a) else e.ev);
  }

  lemma StepFailed(n: Net, e: NetEvent, c: ClientId, heard: bool, redirects: nat)
    requires NetSafe(n) && FailedSo(n, c, heard) && Counted(n, c, redirects)
    ensures FailedSo(NetStep(n, e), c, heard || FailedBy(n, redirects, e, c))
  {
    if c in n.loads {
      if About(n, e, c) { OwnFailed(n, e, c, heard); } else { OtherEvent(n, e, c); }
    } else if c !in n.pings {
      AbsentFails(n, e, c, redirects);
    }
  }

  lemma AbsentFails(n: Net, e: NetEvent, c: ClientId, redirects: nat)
    requires NetSafe(n) && c !in n.loads && c !in n.pings
    ensures !FailedBy(n, redirects, e, c)
    ensures c in NetStep(n, e).loads ==> !ToldFailed(NetStep(n, e).loads[c])
  {
  }

  lemma {:induction false} RunFailed(evs: seq<NetEvent>, c: ClientId)
    ensures FailedSo(NetRun(evs), c, HeardFailure(evs, c))
    decreases |evs|
  {
    if evs != [] {
      var most := evs[..|evs| - 1];
      RunFailed(most, c);
      CountsRedirects(most, c);
      RegistryIsSafe(most);
      StepFailed(NetRun(most), evs[|evs| - 1], c, HeardFailure(most, c), RedirectsHeard(most, c));
    }
  }

  /** With any host: a load is told it failed if and only if it heard of a failure, a
      message that does not parse, or a redirect past the limit or to a scheme it may
      not follow. */
  lemma {:induction false} FailsExactlyWhen(evs: seq<NetEvent>, c: ClientId)
    requires c in NetRun(evs).loads
    ensures DidFail in NetRun(evs).loads[c].calls <==> HeardFailure(evs, c)
  {
    RunFailed(evs, c);
  }

  // ----- loaders that do not cancel ---------------------------------------------------------

  /** The loader cancels during none of the callbacks of the event. */
  predicate Patient(l: Load, ev: Event) {
    match ev
    case Cancels => false
    case Hears(_, _, a) => !a.cancelFirst && !a.cancelLast && a.cancelAt >= |l.queued|
    case Handled(a) => !a.cancelFirst && !a.cancelLast && a.cancelAt >= |l.queued|
    case PolicyDecides(a) => true
  }

  lemma {:induction false} PatientDeliver(x: Ctx, bufs: seq<seq<Byte>>, cancelAt: nat)
    requires cancelAt >= |bufs|
    ensures Deliver(x, bufs, cancelAt).l.hasLoader == x.l.hasLoader
    decreases |bufs|
  {
    if bufs != [] && x.l.hasLoader {
      PatientDeliver(Called(x, DidReceiveBuffer(bufs[0])), bufs[1..], cancelAt - 1);
    }
  }

  lemma PatientHandled(x: Ctx, a: Answer)
    requires a.cancelAt >= |x.l.queued|
    ensures ResponseHandled(x, a).l.hasLoader == x.l.hasLoader
  {
    PatientDeliver(x.(l := x.l.(responseCompleted := true, queued := [])), x.l.queued, a.cancelAt);
  }

  lemma PatientToLoader(x: Ctx, a: Answer)
    requires !a.cancelFirst && !a.cancelLast && a.cancelAt >= |x.l.queued|
    ensures ToLoader(x, a).l.hasLoader == x.l.hasLoader
  {
    if a.now { PatientHandled(Called(x, DidReceiveResponse), a); }
  }

  lemma PatientRedirect(x: Ctx, c: ClientId, httpFamily: bool, a: Answer)
    requires !a.cancelFirst && !a.cancelLast
    ensures PerformRedirect(x, c, httpFamily, a).l.hasLoader == x.l.hasLoader
  {
  }

  lemma PatientTerminated(x: Ctx, c: ClientId, m: Msg, a: Answer)
    requires !a.cancelFirst && !a.cancelLast && a.cancelAt >= |x.l.queued|
    ensures Terminated(x, c, m, a).l.hasLoader == x.l.hasLoader
  {
    if m.Redirect? && m.ok {
      PatientRedirect(x.(l := x.l.(requestId := 0)), c, m.httpFamily, a);
      PatientToLoader(x.(l := x.l.(requestId := 0)), a);
    }
  }

  /** Only the loader gives a load up. */
  lemma PatientStep(x: Ctx, c: ClientId, ev: Event)
    requires Safe(x, c) && Patient(x.l, ev)
    ensures Step(x, c, ev).l.hasLoader == x.l.hasLoader
  {
    match ev
    case Hears(id, m, a) =>
      if Brings(x, c, ev) {
        if EndsRequest(m) {
          TerminalIs(x, c, m, a);
          PatientTerminated(Ended(x), c, m, a);
        } else if m.Response? {
          PatientToLoader(x, a);
        }
      }
    case Handled(a) => if x.l.handlers > 0 { PatientHandled(x.(l := x.l.(handlers := x.l.handlers - 1)), a); }
    case PolicyDecides(a) =>
    case Cancels =>
  }

  /** The loader of c cancels nowhere in the run. */
  predicate NeverCancels(evs: seq<NetEvent>, c: ClientId)
    decreases |evs|
  {
    evs == [] ||
    (NeverCancels(evs[..|evs| - 1], c) &&
     var n, e := NetRun(evs[..|evs| - 1]), evs[|evs| - 1];
     c in n.loads && About(n, e, c) ==> Patient(n.loads[c], AsSeen(e)))
  }

  lemma PatientNetStep(n: Net, e: NetEvent, c: ClientId)
    requires NetSafe(n) && c in NetStep(n, e).loads
    requires c in n.loads ==> n.loads[c].hasLoader
    requires c in n.loads && About(n, e, c) ==> Patient(n.loads[c], AsSeen(e))
    ensures NetStep(n, e).loads[c].hasLoader
  {
    if c in n.loads {
      if About(n, e, c) { PatientStep(Ctx(n.b, n.loads[c]), c, AsSeen(e)); } else { OtherEvent(n, e, c); }
    }
  }

  /** A load whose loader never cancels keeps it, whatever the host says. */
  lemma {:induction false} KeepsItsLoader(evs: seq<NetEvent>, c: ClientId)
    requires c in NetRun(evs).loads && NeverCancels(evs, c)
    ensures NetRun(evs).loads[c].hasLoader
    decreases |evs|
  {
    if evs != [] {
      var most, e := evs[..|evs| - 1], evs[|evs| - 1];
      RegistryIsSafe(most);
      if c in NetRun(most).loads { KeepsItsLoader(most, c); }
      PatientNetStep(NetRun(most), e, c);
    }
  }

  /** So, unless its loader cancels, every load of which the host has said all and whose
      loader owes no answer has ended as the host said: finished with the whole body,
      or told of the failure. */
  lemma {:induction false} PatientLoadsEnd(evs: seq<NetEvent>, c: ClientId)
    requires OrderlyRun(evs) && c in NetRun(evs).loads && NeverCancels(evs, c) && NetRun(evs).loads[c].handlers == 0
    ensures var l := NetRun(evs).loads[c];
            var said := Said(evs, l.hop);
            && (Finishes(l.calls) == 1 <==> Completed(said) && Answered(said))
            && (Finishes(l.calls) == 1 ==> Buffers(l.calls) == Chunks(said))
            && (DidFail in l.calls <==> HeardFailure(evs, c))
  {
    KeepsItsLoader(evs, c);
    FinishesExactlyWhen(evs, c);
    BodyIsExact(evs, c);
    FailsExactlyWhen(evs, c);
  }

  /** From the server to the page, for every fetch that goes well.  If the host ran one
      fetch for the load's last hop to its end, the reply parses and its body does not
      break, and the loader neither cancels nor owes an answer, then the loader was told
      the load finished and has the whole body. */
  lemma {:induction false} GoodFetchesArrive(evs: seq<NetEvent>, c: ClientId, f: Fetch)
    requires OrderlyRun(evs) && c in NetRun(evs).loads && NeverCancels(evs, c) && NetRun(evs).loads[c].handlers == 0
    requires f.Reply? && f.parses && !f.breaks && !IsRedirect(f)
    requires var said := Said(evs, NetRun(evs).loads[c].hop); Posts(f, said) && Whole(f, said)
    ensures var l := NetRun(evs).loads[c]; Finishes(l.calls) == 1 && Joined(Buffers(l.calls)) == Joined(f.chunks)
  {
    PatientLoadsEnd(evs, c);
    WholeBodyDelivered(evs, c, f, Said(evs, NetRun(evs).loads[c].hop));
  }

  // ----- beacons -------------------------------------------------------------------------

  /** A beacon is sent, and completes once: in any run, a new one is registered under a
      fresh id; any message but data for that id ends it, calls its completion handler
      and takes the registration; and it has completed exactly when it is registered no
      more. */
  lemma {:induction false} BeaconsCompleteOnce(evs: seq<NetEvent>, c: ClientId)
    ensures var n, n' := NetRun(evs), NetRun(evs + [Beacon(c)]);
            c !in n.loads && c !in n.pings ==>
              c in n'.pings && n.b.lastId + 1 in n'.b.registry && n'.b.registry[n.b.lastId + 1] == c
    ensures var n := NetRun(evs);
            c in n.pings ==> n.pings[c].completions == (if c in n.b.registry.Values then 0 else 1)
  {
    RegistryIsSafe(evs);
    assert (evs + [Beacon(c)])[..|evs|] == evs;
    var n := NetRun(evs);
    if c in n.pings {
      assert PingOwned(n.b, n.pings[c], c);
      if n.pings[c].requestId != 0 { assert n.b.registry[n.pings[c].requestId] in n.b.registry.Values; }
    }
  }

  lemma {:induction false} AnythingEndsABeacon(evs: seq<NetEvent>, id: nat, m: Msg, a: Answer)
    requires id in NetRun(evs).b.registry && NetRun(evs).b.registry[id] in NetRun(evs).pings && !m.Data?
    ensures var n, n' := NetRun(evs), NetRun(evs + [Says(id, m, a)]);
            var c := n.b.registry[id];
            c in n'.pings && n'.pings[c].completions == 1 && id !in n'.b.registry
  {
    RegistryIsSafe(evs);
    assert (evs + [Says(id, m, a)])[..|evs|] == evs;
  }
}
