/** What the loader gets from a host that keeps bib-net.js's order: per request, a
    redirect or failure, or a response, then data, then done or failure. */
module LoadExact {
  import opened Basics
  import opened ResourceLoad
  import opened LoadSafety

  /** How far the host is with one request. */
  datatype Phase = Sent | Streaming | Closed

  predicate Legal(ph: Phase, m: Msg) {
    match ph
    case Sent => m.Response? || m.Redirect? || m.Fail?
    case Streaming => m.Data? || m.Done? || m.Fail?
    case Closed => false
  }

  function After(ph: Phase, m: Msg): Phase {
    if m.Response? || m.Data? then Streaming else Closed
  }

  /** The chunks handed to the loader, in order. */
  function Buffers(calls: seq<Call>): seq<seq<Byte>>
    decreases |calls|
  {
    if calls == [] then []
    else
      var last := calls[|calls| - 1];
      Buffers(calls[..|calls| - 1]) + if last.DidReceiveBuffer? then [last.bytes] else []
  }

  predicate Terminal(c: Call) { c.DidFinishLoading? || c.DidFail? }

  function Terminals(calls: seq<Call>): nat
    decreases |calls|
  {
    if calls == [] then 0 else Terminals(calls[..|calls| - 1]) + if Terminal(calls[|calls| - 1]) then 1 else 0
  }

  function Finishes(calls: seq<Call>): nat
    decreases |calls|
  {
    if calls == [] then 0
    else Finishes(calls[..|calls| - 1]) + if calls[|calls| - 1].DidFinishLoading? then 1 else 0
  }

  lemma CallsAppend(calls: seq<Call>, c: Call)
    ensures Buffers(calls + [c]) == Buffers(calls) + if c.DidReceiveBuffer? then [c.bytes] else []
    ensures Terminals(calls + [c]) == Terminals(calls) + if Terminal(c) then 1 else 0
    ensures Finishes(calls + [c]) == Finishes(calls) + if c.DidFinishLoading? then 1 else 0
  {
    assert (calls + [c])[..|calls|] == calls;
  }

  lemma {:induction false} FinishesAreTerminals(calls: seq<Call>)
    ensures Finishes(calls) <= Terminals(calls)
    decreases |calls|
  {
    if calls != [] { FinishesAreTerminals(calls[..|calls| - 1]); }
  }

  /** The body promise: what the loader got is, chunk by chunk and in order, the
      beginning of what the last hop received; at most one of didFinishLoading and
      didFail was called; and after didFinishLoading the loader has it all. */
  ghost predicate BodyExact(l: Load) {
    && Buffers(l.calls) <= l.received
    && Terminals(l.calls) <= 1
    && (Finishes(l.calls) > 0 ==> Buffers(l.calls) == l.received)
    && (l.hasDone ==> Terminals(l.calls) == 0)
  }

  /** Nothing of the current hop has come yet. */
  predicate Blank(l: Load) {
    l.handlers == 0 && !l.responseCompleted && !l.pendingComplete && l.queued == [] && l.received == [] && Buffers(l.calls) == []
  }

  /** The states of a load that still has its loader. */
  ghost predicate Working(l: Load, ph: Phase) {
    && l.handlers <= 1
    && (if l.responseCompleted then l.handlers == 0 && l.queued == [] && Buffers(l.calls) == l.received
        else l.queued == l.received && Buffers(l.calls) == [])
    && (l.requestId != 0 ==> (ph == Sent && Blank(l)) || (ph == Streaming && (l.responseCompleted || l.handlers == 1)))
    && (l.decisions == 1 ==> Blank(l))
    && (l.pendingComplete && l.hasDone ==> l.handlers == 1)
    && (l.pendingComplete && l.handlers == 1 ==> l.hasDone)
    && (Finishes(l.calls) > 0 ==> l.responseCompleted)
    && (l.handlers == 1 && !l.hasDone ==> Terminals(l.calls) == 1)
  }

  /** An open load is never stuck: a request is live, a redirect is being decided,
      or completion waits for the response handler. */
  predicate Progress(l: Load) { Open(l) ==> l.requestId != 0 || l.decisions == 1 || (l.pendingComplete && l.handlers == 1) }

  ghost predicate Core(l: Load, ph: Phase) { BodyExact(l) && (l.hasLoader ==> Working(l, ph)) }

  ghost predicate Exact(l: Load, ph: Phase) { Core(l, ph) && Progress(l) }

  // ----- handing over -------------------------------------------------------

  /** Deliver hands over some first part of the buffers, all of it unless the
      loader cancels. */
  lemma {:induction false} DeliverHandsOver(x: Ctx, bufs: seq<seq<Byte>>, cancelAt: nat)
    requires x.l.hasLoader
    ensures var l' := Deliver(x, bufs, cancelAt).l;
            && Buffers(x.l.calls) <= Buffers(l'.calls) <= Buffers(x.l.calls) + bufs
            && (l'.hasLoader ==> Buffers(l'.calls) == Buffers(x.l.calls) + bufs)
            && Terminals(l'.calls) == Terminals(x.l.calls) && Finishes(l'.calls) == Finishes(x.l.calls)
    decreases |bufs|
  {
    if bufs != [] {
      var called := Called(x, DidReceiveBuffer(bufs[0]));
      var y := RemoveIf(called, cancelAt == 0);
      CallsAppend(x.l.calls, DidReceiveBuffer(bufs[0]));
      assert y.l.calls == called.l.calls;
      if y.l.hasLoader {
        DeliverHandsOver(y, bufs[1..], if cancelAt == 0 then 0 else cancelAt - 1);
        assert Buffers(x.l.calls) + [bufs[0]] + bufs[1..] == Buffers(x.l.calls) + bufs;
      } else {
        assert Buffers(x.l.calls) + [bufs[0]] <= Buffers(x.l.calls) + bufs;
      }
    }
  }

  lemma FinishExact(x: Ctx)
    requires BodyExact(x.l) && x.l.hasLoader && x.l.hasDone && Buffers(x.l.calls) == x.l.received
    ensures BodyExact(FinishLoading(x).l) && !FinishLoading(x).l.hasDone
    ensures Buffers(FinishLoading(x).l.calls) == x.l.received
  {
    CallsAppend(x.l.calls, DidFinishLoading);
  }

  lemma FailExact(x: Ctx)
    requires BodyExact(x.l) && (x.l.hasLoader ==> x.l.hasDone)
    ensures BodyExact(FailLoad(x).l) && !FailLoad(x).l.hasDone
    ensures Buffers(FailLoad(x).l.calls) == Buffers(x.l.calls) && Finishes(FailLoad(x).l.calls) == Finishes(x.l.calls)
  {
    CallsAppend(x.l.calls, DidFail);
  }

  // ----- every operation --------------------------------------------------------

  lemma RemoveExact(x: Ctx, c: ClientId, ph: Phase)
    requires Owned(x, c) && Core(x.l, ph)
    ensures Core(Remove(x).l, ph) && Remove(x).l.calls == x.l.calls
    ensures Progress(x.l) ==> Exact(Remove(x).l, ph)
  {
  }

  /** The handler of the current hop's response runs. */
  lemma HandledExact(x: Ctx, c: ClientId, a: Answer)
    requires Safe(x, c) && BodyExact(x.l)
    requires x.l.hasLoader ==>
               x.l.handlers == 0 && !x.l.responseCompleted && x.l.queued == x.l.received && Buffers(x.l.calls) == [] &&
               x.l.decisions == 0 && Finishes(x.l.calls) == 0 && (x.l.pendingComplete ==> x.l.hasDone)
    ensures Core(ResponseHandled(x, a).l, Streaming)
    ensures (Open(x.l) ==> x.l.requestId != 0 || x.l.pendingComplete) ==> Progress(ResponseHandled(x, a).l)
    ensures ResponseHandled(x, a).l.hasLoader ==> x.l.hasLoader && ResponseHandled(x, a).l.responseCompleted
    ensures ResponseHandled(x, a).l.requestId == x.l.requestId || ResponseHandled(x, a).l.requestId == 0
  {
    var start := x.(l := x.l.(responseCompleted := true, queued := []));
    var flushed := Deliver(start, x.l.queued, a.cancelAt);
    DeliverFine(start, c, x.l.queued, a.cancelAt);
    if x.l.hasLoader {
      DeliverHandsOver(start, x.l.queued, a.cancelAt);
      assert [] + x.l.queued == x.l.queued;
      if flushed.l.hasLoader && flushed.l.pendingComplete {
        FinishExact(flushed);
      }
    }
  }

  /** The loader is told of the first response of a hop. */
  lemma ToLoaderExact(x: Ctx, c: ClientId, a: Answer)
    requires Safe(x, c) && BodyExact(x.l) && Open(x.l) && Blank(x.l) && x.l.decisions == 0
    ensures var l' := ToLoader(x, a).l;
            && Core(l', Streaming)
            && (l'.hasLoader ==> Open(l') && l'.requestId == x.l.requestId && !l'.pendingComplete && l'.decisions == 0 &&
                                 (l'.responseCompleted || l'.handlers == 1))
  {
    var called := Called(x, DidReceiveResponse);
    CallsAppend(x.l.calls, DidReceiveResponse);
    FinishesAreTerminals(x.l.calls);
    CalledFine(x, c, DidReceiveResponse);
    var told := RemoveIf(called, a.cancelFirst);
    RemoveFine(called, c);
    assert told.l.calls == called.l.calls && BodyExact(told.l);
    var answered := if a.now then ResponseHandled(told, a) else told.(l := told.l.(handlers := told.l.handlers + 1));
    if a.now {
      HandledFine(told, c, a);
      HandledExact(told, c, a);
      HandledSilent(told, c, a);
    }
    RemoveExact(answered, c, Streaming);
  }

  /** Without a completion pending, the handler only hands over. */
  lemma HandledSilent(x: Ctx, c: ClientId, a: Answer)
    requires Safe(x, c) && !x.l.pendingComplete
    ensures var l' := ResponseHandled(x, a).l; l'.hasDone == x.l.hasDone && !l'.pendingComplete && l'.decisions == x.l.decisions
    ensures var l' := ResponseHandled(x, a).l; l'.hasLoader ==> l'.requestId == x.l.requestId
  {
    var start := x.(l := x.l.(responseCompleted := true, queued := []));
    DeliverFine(start, c, x.l.queued, a.cancelAt);
  }

  lemma DecidedExact(x: Ctx, c: ClientId, allow: bool)
    requires Safe(x, c) && BodyExact(x.l) && x.l.decisions == 0 && x.l.requestId == 0
    requires x.l.hasLoader ==> Open(x.l) && Blank(x.l) && Working(x.l, Sent)
    ensures Exact(Decided(x, c, allow).l, Sent)
  {
  }

  lemma RedirectIs(x: Ctx, counted: Ctx, c: ClientId, httpFamily: bool, a: Answer)
    requires counted == x.(l := x.l.(redirectCount := x.l.redirectCount + 1))
    ensures PerformRedirect(x, c, httpFamily, a) ==
            if x.l.redirectCount > MAX_REDIRECTS || !httpFamily then FailLoad(counted) else Ask(counted, c, a)
  {
  }

  lemma RedirectExact(x: Ctx, c: ClientId, httpFamily: bool, a: Answer)
    requires Safe(x, c) && BodyExact(x.l) && Open(x.l) && Blank(x.l) && Working(x.l, Sent)
    requires x.l.requestId == 0 && x.l.decisions == 0
    ensures Exact(PerformRedirect(x, c, httpFamily, a).l, Sent)
  {
    var counted := x.(l := x.l.(redirectCount := x.l.redirectCount + 1));
    CountedFine(x, c);
    RedirectIs(x, counted, c, httpFamily, a);
    CountedExact(x.l, counted.l);
    RefusedExact(counted);
    if x.l.redirectCount <= MAX_REDIRECTS {
      AskedExact(counted, c, a);
    }
  }

  lemma RefusedExact(x: Ctx)
    requires BodyExact(x.l) && Open(x.l) && Blank(x.l) && x.l.requestId == 0 && x.l.decisions == 0
    ensures Exact(FailLoad(x).l, Sent)
  {
    FailExact(x);
    FinishesAreTerminals(x.l.calls);
    FailedExact(x);
  }

  lemma CountedExact(l: Load, l': Load)
    requires l' == l.(redirectCount := l.redirectCount + 1) && BodyExact(l) && Blank(l) && Working(l, Sent)
    ensures BodyExact(l') && Blank(l') && Working(l', Sent)
  {
  }

  lemma FailedExact(x: Ctx)
    requires BodyExact(FailLoad(x).l) && Open(x.l) && Blank(x.l) && x.l.requestId == 0 && x.l.decisions == 0
    requires Finishes(FailLoad(x).l.calls) == Finishes(x.l.calls) && Buffers(FailLoad(x).l.calls) == []
    requires Finishes(x.l.calls) == 0
    ensures Exact(FailLoad(x).l, Sent)
  {
  }

  /** The loader is asked about the redirect, and may answer now. */
  lemma AskedExact(x: Ctx, c: ClientId, a: Answer)
    requires Safe(x, c) && BodyExact(x.l) && Open(x.l) && Blank(x.l) && Working(x.l, Sent)
    requires x.l.requestId == 0 && x.l.decisions == 0 && Budget(x.l.(decisions := 1))
    ensures Exact(Ask(x, c, a).l, Sent)
  {
    var called := Called(x, WillSendRequest);
    var asked := RemoveIf(called, a.cancelFirst);
    CallsAppend(x.l.calls, WillSendRequest);
    CalledFine(x, c, WillSendRequest);
    RemoveFine(called, c);
    DecideExact(asked, c, a);
    DecideFine(asked, c, a);
    RemoveExact(Decide(asked, c, a), c, Sent);
  }

  lemma DecideExact(x: Ctx, c: ClientId, a: Answer)
    requires Safe(x, c) && BodyExact(x.l) && x.l.requestId == 0 && x.l.decisions == 0
    requires x.l.hasLoader ==> Open(x.l) && Blank(x.l) && Working(x.l, Sent)
    ensures Exact(Decide(x, c, a).l, Sent)
  {
    if a.now { DecidedExact(x, c, a.allow); }
  }

  /** A host message for the load's live request. */
  lemma HeardExact(x: Ctx, c: ClientId, m: Msg, a: Answer, ph: Phase)
    requires Safe(x, c) && Exact(x.l, ph) && x.l.requestId != 0 && Legal(ph, m)
    ensures var l' := Dispatch(x, c, x.l.requestId, m, a).l;
            Exact(l', if l'.requestId == x.l.requestId then After(ph, m) else Sent)
  {
    if m.Data? {
      DataExact(x, c, m.bytes, a);
    } else if m.Response? && m.ok {
      ToLoaderExact(x, c, a);
      IdlePhase(OnResponse(x, a).l, Streaming, Sent);
    } else {
      EndedExact(x, c, m, a, ph);
      IdlePhase(Dispatch(x, c, x.l.requestId, m, a).l, Sent, After(ph, m));
    }
  }

  lemma IdlePhase(l: Load, ph: Phase, ph': Phase)
    ensures l.requestId == 0 && Exact(l, ph) ==> Exact(l, ph')
  {
  }

  lemma DoneExact(x: Ctx, c: ClientId)
    requires Safe(x, c) && Exact(x.l, Streaming) && x.l.requestId != 0
    ensures Exact(OnComplete(Ended(x)).l, Sent) && OnComplete(Ended(x)).l.requestId == 0
  {
    if x.l.responseCompleted { FinishExact(Ended(x)); }
  }

  lemma FailedMessageExact(x: Ctx, c: ClientId, ph: Phase)
    requires Safe(x, c) && Exact(x.l, ph) && x.l.requestId != 0
    ensures Exact(OnFail(Ended(x)).l, Sent) && OnFail(Ended(x)).l.requestId == 0
  {
    FailExact(Ended(x));
  }

  lemma RedirectedExact(x: Ctx, c: ClientId, m: Msg, a: Answer)
    requires Safe(x, c) && Exact(x.l, Sent) && x.l.requestId != 0 && m.Redirect?
    ensures var l' := OnRedirect(Ended(x), c, m.status, m.location, m.httpFamily, a).l;
            Exact(l', Sent) && l'.requestId != x.l.requestId
  {
    var ended := Ended(x);
    EndedFine(x, c);
    RedirectedFine(ended, c, m, a);
    if ShouldRedirect(m.status, m.location) {
      RedirectExact(ended, c, m.httpFamily, a);
    } else {
      SurfacedExact(ended, c, a);
    }
  }

  /** A terminal message. */
  lemma EndedExact(x: Ctx, c: ClientId, m: Msg, a: Answer, ph: Phase)
    requires Safe(x, c) && Exact(x.l, ph) && x.l.requestId != 0 && Legal(ph, m)
    requires m.Done? || m.Fail? || m.Redirect? || (m.Response? && !m.ok)
    ensures Exact(Dispatch(x, c, x.l.requestId, m, a).l, Sent)
    ensures Dispatch(x, c, x.l.requestId, m, a).l.requestId != x.l.requestId
  {
    TerminalIs(x, c, m, a);
    if m.Done? {
      DoneExact(x, c);
    } else if m.Redirect? && m.ok {
      RedirectedExact(x, c, m, a);
    } else {
      FailedMessageExact(x, c, ph);
    }
  }

  lemma SurfacedExact(x: Ctx, c: ClientId, a: Answer)
    requires Safe(x, c) && BodyExact(x.l) && Open(x.l) && Blank(x.l) && x.l.requestId == 0 && x.l.decisions == 0
    ensures Exact(OnComplete(ToLoader(x, a)).l, Sent)
  {
    var told := ToLoader(x, a);
    ToLoaderExact(x, c, a);
    if told.l.hasLoader && told.l.responseCompleted { FinishExact(told); }
  }

  lemma DataExact(x: Ctx, c: ClientId, bytes: seq<Byte>, a: Answer)
    requires Safe(x, c) && Exact(x.l, Streaming) && x.l.requestId != 0
    ensures Exact(OnData(x, bytes, a).l, Streaming)
  {
    var got := x.(l := x.l.(received := x.l.received + [bytes]));
    if x.l.responseCompleted {
      CallsAppend(x.l.calls, DidReceiveBuffer(bytes));
      assert x.l.calls + [DidReceiveBuffer(bytes)] == Called(got, DidReceiveBuffer(bytes)).l.calls;
    }
  }

  /** The loader answers late. */
  lemma LateExact(x: Ctx, c: ClientId, a: Answer, ph: Phase)
    requires Safe(x, c) && Exact(x.l, ph)
    ensures Exact(LateHandler(x, a).l, ph) && (LateHandler(x, a).l.requestId == x.l.requestId || LateHandler(x, a).l.requestId == 0)
  {
    if x.l.handlers > 0 {
      var fewer := x.(l := x.l.(handlers := x.l.handlers - 1));
      HandledFine(fewer, c, a);
      HandledExact(fewer, c, a);
      assert ResponseHandled(fewer, a).l.requestId != 0 ==> ph == Streaming;
      assert Core(ResponseHandled(fewer, a).l, ph);
      RemoveExact(ResponseHandled(fewer, a), c, ph);
    }
  }

  lemma DecisionExact(x: Ctx, c: ClientId, a: Answer, ph: Phase)
    requires Safe(x, c) && Exact(x.l, ph)
    ensures var l' := LateDecision(x, c, a).l; Exact(l', if l'.requestId == x.l.requestId then ph else Sent)
  {
    if x.l.decisions > 0 {
      var fewer := x.(l := x.l.(decisions := x.l.decisions - 1));
      if x.l.hasLoader {
        assert Working(fewer.l, Sent);
      }
      DecidedExact(fewer, c, a.allow);
    }
  }

  // ----- silence after the end -------------------------------------------------

  /** No call follows didFinishLoading or didFail. */
  predicate QuietEnd(calls: seq<Call>) {
    Terminals(calls) == 0 || Terminal(calls[|calls| - 1])
  }

  /** The response handler of a load that has already failed completes with body
      bytes still queued: nothing cleared m_loader, so they are flushed. */
  predicate LateFlush(l: Load, ev: Event) {
    ev.Handled? && l.handlers > 0 && l.hasLoader && !l.hasDone && l.queued != []
  }

  lemma HandledQuiet(x: Ctx, c: ClientId, a: Answer)
    requires Safe(x, c) && Terminals(x.l.calls) == 0
    ensures QuietEnd(ResponseHandled(x, a).l.calls)
  {
    var start := x.(l := x.l.(responseCompleted := true, queued := []));
    if x.l.hasLoader { DeliverHandsOver(start, x.l.queued, a.cancelAt); }
  }

  lemma ToLoaderQuiet(x: Ctx, c: ClientId, a: Answer)
    requires Safe(x, c) && Open(x.l) && !x.l.pendingComplete && x.l.decisions == 0
    ensures ToLoader(x, a).l.hasDone
  {
    var called := Called(x, DidReceiveResponse);
    CalledFine(x, c, DidReceiveResponse);
    RemoveFine(called, c);
    if a.now { HandledSilent(RemoveIf(called, a.cancelFirst), c, a); }
  }

  lemma HeardQuiet(x: Ctx, c: ClientId, m: Msg, a: Answer, ph: Phase)
    requires Safe(x, c) && Exact(x.l, ph) && x.l.requestId != 0 && Legal(ph, m)
    ensures QuietEnd(Dispatch(x, c, x.l.requestId, m, a).l.calls)
  {
    var ended := Ended(x);
    HeardExact(x, c, m, a, ph);
    EndedFine(x, c);
    if m.Response? && m.ok {
      ToLoaderQuiet(x, c, a);
    } else if m.Redirect? && m.ok && !ShouldRedirect(m.status, m.location) {
      ToLoaderQuiet(ended, c, a);
    } else if m.Redirect? && m.ok {
      RedirectQuiet(ended, c, m.httpFamily, a);
    }
  }

  lemma RedirectQuiet(x: Ctx, c: ClientId, httpFamily: bool, a: Answer)
    requires Terminals(x.l.calls) == 0
    ensures QuietEnd(PerformRedirect(x, c, httpFamily, a).l.calls)
  {
    var counted := x.(l := x.l.(redirectCount := x.l.redirectCount + 1));
    RedirectIs(x, counted, c, httpFamily, a);
    FailQuiet(counted);
    AskQuiet(counted, c, a);
  }

  lemma FailQuiet(x: Ctx)
    requires Terminals(x.l.calls) == 0
    ensures QuietEnd(FailLoad(x).l.calls)
  {
  }

  lemma AskQuiet(x: Ctx, c: ClientId, a: Answer)
    requires Terminals(x.l.calls) == 0
    ensures QuietEnd(Ask(x, c, a).l.calls)
  {
    CallsAppend(x.l.calls, WillSendRequest);
    assert Ask(x, c, a).l.calls == x.l.calls + [WillSendRequest];
  }

  /** For a load in any reachable state and any event of an orderly host: the end
      stays silent unless the event is a late flush, and a late flush always
      breaks it. */
  lemma SilenceBrokenOnlyByLateFlush(x: Ctx, c: ClientId, ev: Event, ph: Phase)
    requires Safe(x, c) && Exact(x.l, ph) && QuietEnd(x.l.calls)
    requires ev.Hears? && x.l.requestId != 0 && ev.id == x.l.requestId ==> Legal(ph, ev.m)
    ensures QuietEnd(Step(x, c, ev).l.calls) <==> !LateFlush(x.l, ev)
  {
    match ev
    case Hears(id, m, a) => if id in x.b.registry && x.b.registry[id] == c { HeardQuiet(x, c, m, a, ph); }
    case Handled(a) => if x.l.handlers > 0 { LateHandlerQuiet(x, c, a, ph); }
    case PolicyDecides(a) =>
    case Cancels =>
  }

  lemma LateHandlerQuiet(x: Ctx, c: ClientId, a: Answer, ph: Phase)
    requires Safe(x, c) && Exact(x.l, ph) && QuietEnd(x.l.calls) && x.l.handlers > 0
    ensures QuietEnd(LateHandler(x, a).l.calls) <==> !LateFlush(x.l, Handled(a))
  {
    var fewer := x.(l := x.l.(handlers := x.l.handlers - 1));
    HandledFine(fewer, c, a);
    RemoveFine(ResponseHandled(fewer, a), c);
    if Terminals(x.l.calls) == 0 {
      HandledQuiet(fewer, c, a);
    } else if x.l.hasLoader {
      var start := fewer.(l := fewer.l.(responseCompleted := true, queued := []));
      DeliverFine(start, c, x.l.queued, a.cancelAt);
      if x.l.queued != [] {
        LastDelivered(start, x.l.queued, a.cancelAt);
      }
    }
  }

  lemma {:induction false} LastDelivered(x: Ctx, bufs: seq<seq<Byte>>, cancelAt: nat)
    requires x.l.hasLoader && bufs != []
    ensures var calls := Deliver(x, bufs, cancelAt).l.calls;
            calls != [] && calls[|calls| - 1].DidReceiveBuffer? && Terminals(calls) == Terminals(x.l.calls)
    decreases |bufs|
  {
    var y := RemoveIf(Called(x, DidReceiveBuffer(bufs[0])), cancelAt == 0);
    CallsAppend(x.l.calls, DidReceiveBuffer(bufs[0]));
    if bufs[1..] != [] && y.l.hasLoader {
      LastDelivered(y, bufs[1..], if cancelAt == 0 then 0 else cancelAt - 1);
    } else {
      assert Deliver(y, bufs[1..], if cancelAt == 0 then 0 else cancelAt - 1) == y;
    }
  }
}
