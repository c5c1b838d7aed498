/** What holds of a load whatever the host says: late, repeated or ill-formed
    messages included. */
module LoadSafety {
  import opened Basics
  import opened ResourceLoad

  /** Ids are fresh, and an id leaves the registry for good, by one terminal
      message or by one cancel. */
  ghost predicate IdsOnce(b: Bridge) {
    && (forall id :: id in b.registry ==> 0 < id <= b.lastId && id !in b.ended && id !in b.cancelled)
    && (forall id :: id in b.ended || id in b.cancelled ==> 0 < id <= b.lastId)
    && (forall id: nat :: multiset(b.ended)[id] + multiset(b.cancelled)[id] <= 1)
  }

  /** A load open to the loader: neither cancelled nor told it is over. */
  predicate Open(l: Load) { l.hasLoader && l.hasDone }

  /** The registry's raw pointers to c are safe: c's one live request is its own,
      and while it has one, or a redirect under decision, m_loads holds c. */
  ghost predicate Owned(x: Ctx, c: ClientId) {
    && (x.l.inLoads <==> Open(x.l))
    && (forall id :: id in x.b.registry && x.b.registry[id] == c ==> id == x.l.requestId)
    && (x.l.requestId != 0 ==> x.l.requestId in x.b.registry && x.b.registry[x.l.requestId] == c)
    && (x.l.requestId != 0 ==> Open(x.l) && x.l.decisions == 0 && !x.l.pendingComplete)
    && (x.l.requestId != 0 ==> x.l.requestId == x.l.hop) && x.l.hop <= x.b.lastId
    && x.l.decisions <= 1
    && (x.l.decisions == 1 && x.l.hasLoader ==> Open(x.l) && !x.l.pendingComplete)
  }

  /** Every request but the first was paid for by a redirect within the limit. */
  predicate Budget(l: Load) {
    l.starts + l.decisions <= 1 + if l.redirectCount <= MAX_REDIRECTS then l.redirectCount else MAX_REDIRECTS + 1
  }

  ghost predicate Safe(x: Ctx, c: ClientId) { IdsOnce(x.b) && Owned(x, c) && Budget(x.l) }

  /** Registrations of other clients are left alone. */
  ghost predicate OthersKept(b: Bridge, b': Bridge, c: ClientId) {
    && b.lastId <= b'.lastId
    && (forall id :: id in b.registry && b.registry[id] != c ==> id in b'.registry && b'.registry[id] == b.registry[id])
    && (forall id :: id in b'.registry && b'.registry[id] != c ==> id in b.registry && b.registry[id] == b'.registry[id])
  }

  /** A load stays on its hop, with the chunks it received there, or goes on to a new
      one with none. */
  predicate HopKept(x: Ctx, x': Ctx) {
    (x'.l.hop == x.l.hop && x'.l.received == x.l.received) || (x'.l.hop > x.b.lastId && x'.l.received == [])
  }

  /** What every operation keeps: safety, the other clients, silence once the
      loader is gone (no callback, no new request), the done callback spent once
      spent, that a load's request is the one it had, none, or new, and the hop. */
  ghost predicate Fine(x: Ctx, x': Ctx, c: ClientId) {
    && Safe(x', c) && OthersKept(x.b, x'.b, c) && HopKept(x, x')
    && (x'.l.hasDone ==> x.l.hasDone)
    && (x'.l.requestId == x.l.requestId || x'.l.requestId == 0 || x'.l.requestId > x.b.lastId)
    && (!x.l.hasLoader ==> !x'.l.hasLoader && x'.l.calls == x.l.calls && x'.l.starts == x.l.starts)
  }

  lemma FineThenFine(x: Ctx, y: Ctx, z: Ctx, c: ClientId)
    requires Fine(x, y, c) && Fine(y, z, c)
    ensures Fine(x, z, c)
  {
  }

  /** One more callback to a loader that is there. */
  lemma CalledFine(x: Ctx, c: ClientId, call: Call)
    requires Safe(x, c) && x.l.hasLoader
    ensures Fine(x, Called(x, call), c)
  {
  }

  lemma StartFine(x: Ctx, c: ClientId)
    requires Safe(x, c) && Open(x.l) && x.l.requestId == 0 && x.l.decisions == 0 && Budget(x.l.(decisions := 1))
    ensures Fine(x, StartRequest(x, c), c)
  {
  }

  lemma RemoveFine(x: Ctx, c: ClientId)
    requires Safe(x, c)
    ensures Fine(x, Remove(x), c) && !Remove(x).l.inLoads
    ensures var l := Remove(x).l; (Open(x.l) ==> !l.hasLoader) && l == x.l.(inLoads := false, hasLoader := l.hasLoader, requestId := l.requestId)
  {
    if x.l.inLoads && x.l.requestId != 0 {
      CancelIds(x.b, x.l.requestId);
    }
  }

  lemma CancelIds(b: Bridge, id: nat)
    requires IdsOnce(b) && id in b.registry
    ensures IdsOnce(b.Cancel(id))
  {
    var b' := b.Cancel(id);
    assert multiset(b'.cancelled) == multiset(b.cancelled) + multiset{id};
    assert id !in multiset(b.ended) && id !in multiset(b.cancelled);
  }

  lemma TakeIds(b: Bridge, id: nat)
    requires IdsOnce(b) && id in b.registry
    ensures IdsOnce(b.Take(id))
  {
    var b' := b.Take(id);
    assert multiset(b'.ended) == multiset(b.ended) + multiset{id};
    assert id !in multiset(b.ended) && id !in multiset(b.cancelled);
  }

  /** The state a terminal callback starts from: registration taken, id cleared. */
  function Ended(x: Ctx): Ctx { Ctx(x.b.Take(x.l.requestId), x.l.(requestId := 0)) }

  lemma EndedFine(x: Ctx, c: ClientId)
    requires Safe(x, c) && x.l.requestId != 0
    ensures Fine(x, Ended(x), c)
  {
    TakeIds(x.b, x.l.requestId);
  }

  lemma NotifyDoneFine(x: Ctx, c: ClientId)
    requires Safe(x, c) && x.l.requestId == 0 && (x.l.decisions == 0 || !x.l.hasLoader)
    ensures Fine(x, NotifyDone(x), c)
  {
  }

  lemma FailFine(x: Ctx, c: ClientId)
    requires Safe(x, c) && x.l.requestId == 0 && x.l.decisions == 0
    ensures Fine(x, FailLoad(x), c)
  {
    NotifyDoneFine(x, c);
  }

  lemma FinishFine(x: Ctx, c: ClientId)
    requires Safe(x, c) && x.l.requestId == 0 && x.l.decisions == 0 && x.l.hasLoader
    ensures Fine(x, FinishLoading(x), c)
  {
    NotifyDoneFine(x, c);
  }

  /** Fields that handing buffers over does not touch. */
  predicate SameDelivery(l: Load, l': Load) {
    && l'.decisions == l.decisions && l'.pendingComplete == l.pendingComplete && l'.handlers == l.handlers
    && l'.queued == l.queued && l'.responseCompleted == l.responseCompleted && l'.hasDone == l.hasDone
    && l'.redirectCount == l.redirectCount && l'.starts == l.starts && l'.received == l.received
    && l'.hop == l.hop
    && (l'.hasLoader ==> l.hasLoader && l'.requestId == l.requestId && l'.inLoads == l.inLoads)
  }

  lemma DeliverOneFine(x: Ctx, c: ClientId, buf: seq<Byte>, cancels: bool)
    requires Safe(x, c) && x.l.hasLoader
    ensures var y := RemoveIf(Called(x, DidReceiveBuffer(buf)), cancels); Fine(x, y, c) && SameDelivery(x.l, y.l)
  {
    var called := Called(x, DidReceiveBuffer(buf));
    CalledFine(x, c, DidReceiveBuffer(buf));
    if cancels {
      RemoveFine(called, c);
    }
  }

  lemma {:induction false} DeliverFine(x: Ctx, c: ClientId, bufs: seq<seq<Byte>>, cancelAt: nat)
    requires Safe(x, c)
    ensures Fine(x, Deliver(x, bufs, cancelAt), c) && SameDelivery(x.l, Deliver(x, bufs, cancelAt).l)
    decreases |bufs|
  {
    if bufs != [] && x.l.hasLoader {
      var y := RemoveIf(Called(x, DidReceiveBuffer(bufs[0])), cancelAt == 0);
      var rest := if cancelAt == 0 then 0 else cancelAt - 1;
      DeliverOneFine(x, c, bufs[0], cancelAt == 0);
      DeliverFine(y, c, bufs[1..], rest);
      FineThenFine(x, y, Deliver(y, bufs[1..], rest), c);
    }
  }

  lemma HandledFine(x: Ctx, c: ClientId, a: Answer)
    requires Safe(x, c)
    ensures Fine(x, ResponseHandled(x, a), c)
  {
    var start := x.(l := x.l.(responseCompleted := true, queued := []));
    var flushed := Deliver(start, x.l.queued, a.cancelAt);
    DeliverFine(start, c, x.l.queued, a.cancelAt);
    if flushed.l.pendingComplete && flushed.l.hasLoader {
      FinishFine(flushed, c);
      FineThenFine(start, flushed, FinishLoading(flushed), c);
    }
  }

  lemma ToLoaderFine(x: Ctx, c: ClientId, a: Answer)
    requires Safe(x, c) && x.l.hasLoader && x.l.decisions == 0 && !x.l.pendingComplete
    ensures Fine(x, ToLoader(x, a), c)
    ensures ToLoader(x, a).l.decisions == 0 && (x.l.requestId == 0 ==> ToLoader(x, a).l.requestId == 0)
  {
    var called := Called(x, DidReceiveResponse);
    CalledFine(x, c, DidReceiveResponse);
    var told := RemoveIf(called, a.cancelFirst);
    if a.cancelFirst { RemoveFine(called, c); }
    FineThenFine(x, called, told, c);
    var answered := if a.now then ResponseHandled(told, a) else told.(l := told.l.(handlers := told.l.handlers + 1));
    if a.now { HandledFine(told, c, a); HandledKeeps(told, c, a); }
    FineThenFine(x, told, answered, c);
    if a.cancelLast { RemoveFine(answered, c); }
    FineThenFine(x, answered, RemoveIf(answered, a.cancelLast), c);
  }

  lemma HandledKeeps(x: Ctx, c: ClientId, a: Answer)
    requires Safe(x, c)
    ensures ResponseHandled(x, a).l.decisions == x.l.decisions
    ensures x.l.requestId == 0 ==> ResponseHandled(x, a).l.requestId == 0
  {
    var start := x.(l := x.l.(responseCompleted := true, queued := []));
    DeliverFine(start, c, x.l.queued, a.cancelAt);
  }

  lemma DecidedFine(x: Ctx, c: ClientId, allow: bool)
    requires Safe(x, c) && x.l.requestId == 0 && x.l.decisions == 0 && Budget(x.l.(decisions := 1))
    requires x.l.hasLoader ==> Open(x.l)
    ensures Fine(x, Decided(x, c, allow), c)
  {
    if !allow || !x.l.hasLoader {
      NotifyDoneFine(x, c);
    } else {
      StartFine(x, c);
    }
  }

  lemma CountedFine(x: Ctx, c: ClientId)
    requires Safe(x, c) && x.l.decisions == 0
    ensures Fine(x, x.(l := x.l.(redirectCount := x.l.redirectCount + 1)), c)
    ensures x.l.redirectCount <= MAX_REDIRECTS ==> Budget(x.l.(redirectCount := x.l.redirectCount + 1, decisions := 1))
  {
  }

  lemma RedirectFine(x: Ctx, c: ClientId, httpFamily: bool, a: Answer)
    requires Safe(x, c) && x.l.requestId == 0 && x.l.decisions == 0 && Open(x.l) && !x.l.pendingComplete
    ensures Fine(x, PerformRedirect(x, c, httpFamily, a), c)
  {
    var counted := x.(l := x.l.(redirectCount := x.l.redirectCount + 1));
    CountedFine(x, c);
    CountedRedirectFine(x, counted, c, httpFamily, a);
    FineThenFine(x, counted, PerformRedirect(x, c, httpFamily, a), c);
  }

  lemma CountedRedirectFine(x: Ctx, counted: Ctx, c: ClientId, httpFamily: bool, a: Answer)
    requires counted == x.(l := x.l.(redirectCount := x.l.redirectCount + 1)) && Safe(counted, c)
    requires x.l.requestId == 0 && x.l.decisions == 0 && Open(x.l) && !x.l.pendingComplete
    requires x.l.redirectCount <= MAX_REDIRECTS ==> Budget(counted.l.(decisions := 1))
    ensures Fine(counted, PerformRedirect(x, c, httpFamily, a), c)
  {
    if x.l.redirectCount > MAX_REDIRECTS || !httpFamily {
      FailFine(counted, c);
      assert PerformRedirect(x, c, httpFamily, a) == FailLoad(counted);
    } else {
      AskedFine(counted, c, a);
      assert PerformRedirect(x, c, httpFamily, a) == Ask(counted, c, a);
    }
  }

  /** The loader is asked about a redirect within the limit. */
  lemma AskedFine(x: Ctx, c: ClientId, a: Answer)
    requires Safe(x, c) && x.l.requestId == 0 && x.l.decisions == 0 && Open(x.l) && !x.l.pendingComplete
    requires Budget(x.l.(decisions := 1))
    ensures Fine(x, Ask(x, c, a), c)
  {
    var called := Called(x, WillSendRequest);
    var asked := RemoveIf(called, a.cancelFirst);
    var answered := Decide(asked, c, a);
    CalledFine(x, c, WillSendRequest);
    RemoveFine(called, c);
    FineThenFine(x, called, asked, c);
    DecideFine(asked, c, a);
    FineThenFine(x, asked, answered, c);
    RemoveFine(answered, c);
    FineThenFine(x, answered, RemoveIf(answered, a.cancelLast), c);
  }

  lemma DecideFine(x: Ctx, c: ClientId, a: Answer)
    requires Safe(x, c) && x.l.requestId == 0 && x.l.decisions == 0 && !x.l.pendingComplete
    requires Budget(x.l.(decisions := 1)) && (x.l.hasLoader ==> Open(x.l))
    ensures Fine(x, Decide(x, c, a), c)
  {
    if a.now { DecidedFine(x, c, a.allow); }
  }

  lemma CompleteFine(x: Ctx, c: ClientId)
    requires Safe(x, c) && x.l.requestId == 0 && x.l.decisions == 0 && Open(x.l)
    ensures Fine(x, OnComplete(x), c)
  {
    if x.l.responseCompleted { FinishFine(x, c); }
  }

  lemma RedirectedFine(x: Ctx, c: ClientId, m: Msg, a: Answer)
    requires Safe(x, c) && x.l.requestId == 0 && x.l.decisions == 0 && Open(x.l) && !x.l.pendingComplete && m.Redirect?
    ensures Fine(x, OnRedirect(x, c, m.status, m.location, m.httpFamily, a), c)
  {
    if ShouldRedirect(m.status, m.location) {
      RedirectFine(x, c, m.httpFamily, a);
    } else {
      SurfacedFine(x, c, a);
    }
  }

  /** What a terminal message does, once the registration is taken. */
  function Terminated(x: Ctx, c: ClientId, m: Msg, a: Answer): Ctx {
    match m
    case Done => OnComplete(x)
    case Redirect(ok, status, location, httpFamily) =>
      if ok then OnRedirect(x, c, status, location, httpFamily, a) else OnFail(x)
    case _ => OnFail(x)
  }

  lemma TerminalIs(x: Ctx, c: ClientId, m: Msg, a: Answer)
    requires m.Done? || m.Fail? || (m.Response? && !m.ok) || m.Redirect?
    ensures Dispatch(x, c, x.l.requestId, m, a) == Terminated(Ended(x), c, m, a)
  {
  }

  lemma TerminatedFine(x: Ctx, c: ClientId, m: Msg, a: Answer)
    requires Safe(x, c) && x.l.requestId == 0 && x.l.decisions == 0 && Open(x.l) && !x.l.pendingComplete
    ensures Fine(x, Terminated(x, c, m, a), c)
  {
    if m.Done? {
      CompleteFine(x, c);
    } else if m.Redirect? && m.ok {
      RedirectedFine(x, c, m, a);
    } else {
      FailFine(x, c);
    }
  }

  lemma TerminalFine(x: Ctx, c: ClientId, m: Msg, a: Answer)
    requires Safe(x, c) && x.l.requestId != 0 && (m.Done? || m.Fail? || (m.Response? && !m.ok) || m.Redirect?)
    ensures Fine(x, Dispatch(x, c, x.l.requestId, m, a), c)
  {
    EndedFine(x, c);
    TerminatedFine(Ended(x), c, m, a);
    TerminalIs(x, c, m, a);
    FineThenFine(x, Ended(x), Terminated(Ended(x), c, m, a), c);
  }

  /** A 3xx that is no redirect, surfaced as a complete response. */
  lemma SurfacedFine(x: Ctx, c: ClientId, a: Answer)
    requires Safe(x, c) && x.l.requestId == 0 && x.l.decisions == 0 && Open(x.l) && !x.l.pendingComplete
    ensures Fine(x, OnComplete(ToLoader(x, a)), c)
  {
    var told := ToLoader(x, a);
    ToLoaderFine(x, c, a);
    if told.l.hasLoader {
      if told.l.responseCompleted { FinishFine(told, c); }
      assert Fine(told, OnComplete(told), c);
    }
    FineThenFine(x, told, OnComplete(told), c);
  }

  /** x with a heard chunk entered in its history, when it reaches a loader. */
  function WithChunk(x: Ctx, m: Msg): Ctx {
    if m.Data? && x.l.hasLoader then x.(l := x.l.(received := x.l.received + [m.bytes])) else x
  }

  /** Whether an event brings load c the message m. */
  predicate Brings(x: Ctx, c: ClientId, ev: Event) {
    ev.Hears? && ev.id in x.b.registry && x.b.registry[ev.id] == c
  }

  /** x with the chunk an event brings. */
  function Brought(x: Ctx, c: ClientId, ev: Event): Ctx { if Brings(x, c, ev) then WithChunk(x, ev.m) else x }

  lemma DataFine(x: Ctx, c: ClientId, bytes: seq<Byte>, a: Answer)
    requires Safe(x, c)
    ensures Fine(WithChunk(x, Data(bytes)), OnData(x, bytes, a), c)
  {
    if x.l.hasLoader {
      var got := WithChunk(x, Data(bytes));
      assert Safe(got, c);
      if x.l.responseCompleted {
        DeliverOneFine(got, c, bytes, a.cancelFirst);
      }
    }
  }

  lemma HearsFine(x: Ctx, c: ClientId, id: nat, m: Msg, a: Answer)
    requires Safe(x, c) && id in x.b.registry && x.b.registry[id] == c
    ensures Fine(WithChunk(x, m), Dispatch(x, c, id, m, a), c)
  {
    if m.Data? {
      DataFine(x, c, m.bytes, a);
    } else if m.Response? && m.ok {
      ToLoaderFine(x, c, a);
    } else {
      TerminalFine(x, c, m, a);
    }
  }

  lemma LateHandlerFine(x: Ctx, c: ClientId, a: Answer)
    requires Safe(x, c)
    ensures Fine(x, LateHandler(x, a), c)
  {
    if x.l.handlers > 0 {
      var fewer := x.(l := x.l.(handlers := x.l.handlers - 1));
      var handled := ResponseHandled(fewer, a);
      HandledFine(fewer, c, a);
      RemoveFine(handled, c);
      FineThenFine(fewer, handled, RemoveIf(handled, a.cancelLast), c);
    }
  }

  lemma LateDecisionFine(x: Ctx, c: ClientId, a: Answer)
    requires Safe(x, c)
    ensures Fine(x, LateDecision(x, c, a), c)
  {
    if x.l.decisions > 0 {
      DecidedFine(x.(l := x.l.(decisions := x.l.decisions - 1)), c, a.allow);
    }
  }

  lemma StepFine(x: Ctx, c: ClientId, ev: Event)
    requires Safe(x, c)
    ensures Fine(Brought(x, c, ev), Step(x, c, ev), c)
  {
    match ev
    case Hears(id, m, a) => if Brings(x, c, ev) { HearsFine(x, c, id, m, a); }
    case Handled(a) => LateHandlerFine(x, c, a);
    case PolicyDecides(a) => LateDecisionFine(x, c, a);
    case Cancels => RemoveFine(x, c);
  }

  // ----- what only a host message changes ---------------------------------------

  /** Whether m ends its request. */
  predicate EndsRequest(m: Msg) { m.Done? || m.Fail? || m.Redirect? || (m.Response? && !m.ok) }

  /** Whether m is a redirect to be followed. */
  predicate Redirecting(m: Msg) { m.Redirect? && m.ok && ShouldRedirect(m.status, m.location) }

  /** Every id begun is registered, ended or cancelled. */
  ghost predicate Accounted(b: Bridge) {
    forall id :: 0 < id <= b.lastId ==> id in b.registry || id in b.ended || id in b.cancelled
  }

  /** Whether m fails a load that has seen this many redirects. */
  predicate FailsLoad(m: Msg, redirects: nat) {
    || m.Fail? || (m.Response? && !m.ok) || (m.Redirect? && !m.ok)
    || (Redirecting(m) && (redirects > MAX_REDIRECTS || !m.httpFamily))
  }

  predicate ToldFailed(l: Load) { DidFail in l.calls }

  /** No id is ended, no redirect counted, no id forgotten, and no failure told. */
  ghost predicate CountsKept(x: Ctx, x': Ctx) {
    && x'.b.ended == x.b.ended && x'.l.redirectCount == x.l.redirectCount && (Accounted(x.b) ==> Accounted(x'.b))
    && (ToldFailed(x'.l) <==> ToldFailed(x.l))
  }

  lemma RemoveCounts(x: Ctx, cancels: bool)
    ensures CountsKept(x, RemoveIf(x, cancels))
  {
  }

  lemma {:induction false} DeliverCounts(x: Ctx, bufs: seq<seq<Byte>>, cancelAt: nat)
    ensures CountsKept(x, Deliver(x, bufs, cancelAt))
    decreases |bufs|
  {
    if bufs != [] && x.l.hasLoader {
      var called := Called(x, DidReceiveBuffer(bufs[0]));
      RemoveCounts(called, cancelAt == 0);
      DeliverCounts(RemoveIf(called, cancelAt == 0), bufs[1..], if cancelAt == 0 then 0 else cancelAt - 1);
    }
  }

  lemma HandledCounts(x: Ctx, a: Answer)
    ensures CountsKept(x, ResponseHandled(x, a))
  {
    DeliverCounts(x.(l := x.l.(responseCompleted := true, queued := [])), x.l.queued, a.cancelAt);
  }

  lemma ToLoaderCounts(x: Ctx, a: Answer)
    ensures CountsKept(x, ToLoader(x, a))
  {
    var told := RemoveIf(Called(x, DidReceiveResponse), a.cancelFirst);
    RemoveCounts(Called(x, DidReceiveResponse), a.cancelFirst);
    HandledCounts(told, a);
    RemoveCounts(if a.now then ResponseHandled(told, a) else told.(l := told.l.(handlers := told.l.handlers + 1)), a.cancelLast);
  }

  lemma DecidedCounts(x: Ctx, c: ClientId, allow: bool)
    ensures CountsKept(x, Decided(x, c, allow))
  {
  }

  lemma AskCounts(x: Ctx, c: ClientId, a: Answer)
    ensures CountsKept(x, Ask(x, c, a))
  {
    var asked := RemoveIf(Called(x, WillSendRequest), a.cancelFirst);
    RemoveCounts(Called(x, WillSendRequest), a.cancelFirst);
    DecidedCounts(asked, c, a.allow);
    RemoveCounts(Decide(asked, c, a), a.cancelLast);
  }

  lemma CompleteCounts(x: Ctx)
    ensures CountsKept(x, OnComplete(x))
  {
  }

  lemma SurfacedCounts(x: Ctx, a: Answer)
    ensures CountsKept(x, OnComplete(ToLoader(x, a)))
  {
    ToLoaderCounts(x, a);
    CompleteCounts(ToLoader(x, a));
  }

  /** What a message that ends the request does to the counts. */
  ghost predicate CountsEnded(x: Ctx, x': Ctx, m: Msg) {
    && x'.b.ended == x.b.ended && (Accounted(x.b) ==> Accounted(x'.b))
    && x'.l.redirectCount == x.l.redirectCount + (if Redirecting(m) then 1 else 0)
    && (ToldFailed(x'.l) <==> ToldFailed(x.l) || FailsLoad(m, x.l.redirectCount))
  }

  lemma OnRedirectCounts(x: Ctx, c: ClientId, m: Msg, a: Answer)
    requires x.l.hasLoader && x.l.requestId == 0 && m.Redirect? && m.ok
    ensures CountsEnded(x, OnRedirect(x, c, m.status, m.location, m.httpFamily, a), m)
  {
    assert x.(l := x.l.(requestId := 0)) == x;
    if Redirecting(m) {
      RedirectCounts(x, c, m.httpFamily, a);
    } else {
      SurfacedCounts(x, a);
    }
  }

  lemma OnFailCounts(x: Ctx, m: Msg)
    requires x.l.hasLoader && (m.Fail? || (m.Response? && !m.ok) || (m.Redirect? && !m.ok))
    ensures CountsEnded(x, OnFail(x), m)
  {
  }

  lemma TerminatedCounts(x: Ctx, c: ClientId, m: Msg, a: Answer)
    requires x.l.hasLoader && x.l.requestId == 0 && EndsRequest(m)
    ensures CountsEnded(x, Terminated(x, c, m, a), m)
  {
    if m.Done? {
      CompleteCounts(x);
    } else if m.Redirect? && m.ok {
      OnRedirectCounts(x, c, m, a);
    } else {
      OnFailCounts(x, m);
    }
  }

  lemma RedirectCounts(x: Ctx, c: ClientId, httpFamily: bool, a: Answer)
    requires x.l.hasLoader
    ensures var x' := PerformRedirect(x, c, httpFamily, a);
            && x'.b.ended == x.b.ended && (Accounted(x.b) ==> Accounted(x'.b))
            && x'.l.redirectCount == x.l.redirectCount + 1
            && (ToldFailed(x'.l) <==> ToldFailed(x.l) || x.l.redirectCount > MAX_REDIRECTS || !httpFamily)
  {
    var counted := x.(l := x.l.(redirectCount := x.l.redirectCount + 1));
    AskCounts(counted, c, a);
  }

  lemma DispatchCounts(x: Ctx, c: ClientId, m: Msg, a: Answer)
    requires Safe(x, c) && x.l.requestId != 0
    ensures var x' := Dispatch(x, c, x.l.requestId, m, a);
            && x'.b.ended == x.b.ended + (if EndsRequest(m) then [x.l.requestId] else [])
            && x'.l.redirectCount == x.l.redirectCount + (if Redirecting(m) then 1 else 0)
            && (Accounted(x.b) ==> Accounted(x'.b))
            && (ToldFailed(x'.l) <==> ToldFailed(x.l) || FailsLoad(m, x.l.redirectCount))
  {
    if EndsRequest(m) {
      TerminalIs(x, c, m, a);
      TerminatedCounts(Ended(x), c, m, a);
      TakeAccounts(x.b, x.l.requestId);
    } else if m.Response? {
      ToLoaderCounts(x, a);
    }
  }

  lemma TakeAccounts(b: Bridge, id: nat)
    ensures Accounted(b) ==> Accounted(b.Take(id))
  {
  }

  /** An event ends an id, counts a redirect, or tells the loader of a failure, exactly
      when it brings the load a message that does. */
  lemma StepCounts(x: Ctx, c: ClientId, ev: Event)
    requires Safe(x, c)
    ensures var x' := Step(x, c, ev);
            && x'.b.ended == x.b.ended + (if Brings(x, c, ev) && EndsRequest(ev.m) then [ev.id] else [])
            && x'.l.redirectCount == x.l.redirectCount + (if Brings(x, c, ev) && Redirecting(ev.m) then 1 else 0)
            && (Accounted(x.b) ==> Accounted(x'.b))
            && (ToldFailed(x'.l) <==> ToldFailed(x.l) || (Brings(x, c, ev) && FailsLoad(ev.m, x.l.redirectCount)))
  {
    match ev
    case Hears(id, m, a) => if Brings(x, c, ev) { DispatchCounts(x, c, m, a); }
    case Handled(a) =>
      if x.l.handlers > 0 {
        var fewer := x.(l := x.l.(handlers := x.l.handlers - 1));
        HandledCounts(fewer, a);
        RemoveCounts(ResponseHandled(fewer, a), a.cancelLast);
      }
    case PolicyDecides(a) => if x.l.decisions > 0 { DecidedCounts(x.(l := x.l.(decisions := x.l.decisions - 1)), c, a.allow); }
    case Cancels => RemoveCounts(x, true);
  }
}
