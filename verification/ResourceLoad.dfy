/** One network load: BibResourceLoad driven by a host bridge on one side and a
    WebCore ResourceLoader on the other.  The loader may answer a callback at
    once or later, and may cancel the load during any callback. */
module ResourceLoad {
  import opened Basics

  /** A callback into the loader. */
  datatype Call =
    | DidReceiveResponse
    | DidReceiveBuffer(bytes: seq<Byte>)
    | WillSendRequest
    | DidFinishLoading
    | DidFail

  type ClientId = nat

  /** The bridge's registry of clients by request id, and its id counter; the ids
      that were ended by a terminal message, and those cancelled. */
  datatype Bridge = Bridge(registry: map<nat, ClientId>, lastId: nat, ended: seq<nat>, cancelled: seq<nat>) {

    /** netBridgeStart: register the client under a fresh id. */
    function Start(c: ClientId): Bridge { this.(registry := registry[lastId + 1 := c], lastId := lastId + 1) }

    /** netBridgeCancel. */
    function Cancel(id: nat): Bridge {
      if id in registry then this.(registry := registry - {id}, cancelled := cancelled + [id]) else this
    }

    /** A terminal message takes the registration with it. */
    function Take(id: nat): Bridge {
      if id in registry then this.(registry := registry - {id}, ended := ended + [id]) else this
    }
  }

  /** The fields of a load.  requestId is 0 when no request is live.  handlers and
      decisions are the answers the loader still owes: to didReceiveResponse and
      to willSendRequest.  The last four are history: every callback made, the
      chunks received on the current hop, the bridge requests started, and the id
      of the last of them. */
  datatype Load = Load(
    hasLoader: bool, inLoads: bool, hasDone: bool, requestId: nat,
    queued: seq<seq<Byte>>, responseCompleted: bool, pendingComplete: bool, redirectCount: nat,
    handlers: nat, decisions: nat,
    calls: seq<Call>, received: seq<seq<Byte>>, starts: nat, hop: nat)

  const NEW_LOAD: Load := Load(true, true, true, 0, [], false, false, 0, 0, 0, [], [], 0, 0)

  /** A load with the bridge it talks to. */
  datatype Ctx = Ctx(b: Bridge, l: Load)

  /** How the loader behaves in one event: whether it cancels on entry to the
      callback, answers at once (and how), or cancels on the way out; and the
      buffer of a flush during which it cancels (none when past the end). */
  datatype Answer = Answer(cancelFirst: bool, now: bool, allow: bool, cancelLast: bool, cancelAt: nat)

  function Called(x: Ctx, call: Call): Ctx { x.(l := x.l.(calls := x.l.calls + [call])) }

  /** startBridgeRequest. */
  function StartRequest(x: Ctx, c: ClientId): Ctx {
    Ctx(x.b.Start(c),
        x.l.(responseCompleted := false, pendingComplete := false, queued := [], requestId := x.b.lastId + 1,
             received := [], starts := x.l.starts + 1, hop := x.b.lastId + 1))
  }

  /** LoaderStrategy::remove: take the load out of m_loads and cancel it. */
  function Remove(x: Ctx): Ctx {
    if !x.l.inLoads then x
    else
      var l := x.l.(inLoads := false, hasLoader := false, requestId := 0);
      Ctx(if x.l.requestId != 0 then x.b.Cancel(x.l.requestId) else x.b, l)
  }

  function RemoveIf(x: Ctx, cancels: bool): Ctx { if cancels then Remove(x) else x }

  /** The done callback, once: drop the load from m_loads. */
  function NotifyDone(x: Ctx): Ctx {
    if !x.l.hasDone then x
    else x.(l := x.l.(hasDone := false, inLoads := x.l.inLoads && !x.l.hasLoader))
  }

  /** didFailInternal: the re-entrant remove() of didFail finds nothing left. */
  function FailLoad(x: Ctx): Ctx {
    var done := NotifyDone(x);
    if x.l.hasLoader then Called(done, DidFail) else done
  }

  function FinishLoading(x: Ctx): Ctx { Called(NotifyDone(x), DidFinishLoading) }

  /** Hand the buffers over one by one, stopping when a callback cancels. */
  function Deliver(x: Ctx, bufs: seq<seq<Byte>>, cancelAt: nat): Ctx
    decreases |bufs|
  {
    if bufs == [] || !x.l.hasLoader then x
    else Deliver(RemoveIf(Called(x, DidReceiveBuffer(bufs[0])), cancelAt == 0), bufs[1..],
                 if cancelAt == 0 then 0 else cancelAt - 1)
  }

  /** The response handler completes: flushQueued. */
  function ResponseHandled(x: Ctx, a: Answer): Ctx {
    var flushed := Deliver(x.(l := x.l.(responseCompleted := true, queued := [])), x.l.queued, a.cancelAt);
    if flushed.l.pendingComplete && flushed.l.hasLoader then FinishLoading(flushed) else flushed
  }

  /** The loader gets the response; its handler runs now or later. */
  function ToLoader(x: Ctx, a: Answer): Ctx {
    var told := RemoveIf(Called(x, DidReceiveResponse), a.cancelFirst);
    var answered := if a.now then ResponseHandled(told, a) else told.(l := told.l.(handlers := told.l.handlers + 1));
    RemoveIf(answered, a.cancelLast)
  }

  /** The loader's pending handler completes. */
  function LateHandler(x: Ctx, a: Answer): Ctx {
    if x.l.handlers == 0 then x
    else RemoveIf(ResponseHandled(x.(l := x.l.(handlers := x.l.handlers - 1)), a), a.cancelLast)
  }

  const MAX_REDIRECTS: nat := 20

  /** The status codes that are redirects, given a Location. */
  predicate ShouldRedirect(status: int, location: bool) {
    300 <= status < 400 && status != 300 && status != 304 && status != 305 && status != 306 && location
  }

  /** performRedirect. */
  function PerformRedirect(x: Ctx, c: ClientId, httpFamily: bool, a: Answer): Ctx {
    var counted := x.(l := x.l.(redirectCount := x.l.redirectCount + 1));
    if x.l.redirectCount > MAX_REDIRECTS || !httpFamily then FailLoad(counted)
    else Ask(counted, c, a)
  }

  /** The loader is asked about the redirect. */
  function Ask(x: Ctx, c: ClientId, a: Answer): Ctx {
    RemoveIf(Decide(RemoveIf(Called(x, WillSendRequest), a.cancelFirst), c, a), a.cancelLast)
  }

  /** The redirect policy decides now, or will. */
  function Decide(x: Ctx, c: ClientId, a: Answer): Ctx {
    if a.now then Decided(x, c, a.allow) else x.(l := x.l.(decisions := x.l.decisions + 1))
  }

  /** The redirect policy has decided. */
  function Decided(x: Ctx, c: ClientId, allow: bool): Ctx {
    if !allow || !x.l.hasLoader then NotifyDone(x) else StartRequest(x, c)
  }

  function LateDecision(x: Ctx, c: ClientId, a: Answer): Ctx {
    if x.l.decisions == 0 then x
    else Decided(x.(l := x.l.(decisions := x.l.decisions - 1)), c, a.allow)
  }

  // ----- the bridge callbacks ------------------------------------------------

  function OnResponse(x: Ctx, a: Answer): Ctx { if !x.l.hasLoader then x else ToLoader(x, a) }

  function OnData(x: Ctx, bytes: seq<Byte>, a: Answer): Ctx {
    if !x.l.hasLoader then x
    else
      var got := x.(l := x.l.(received := x.l.received + [bytes]));
      if !x.l.responseCompleted then got.(l := got.l.(queued := got.l.queued + [bytes]))
      else RemoveIf(Called(got, DidReceiveBuffer(bytes)), a.cancelFirst)
  }

  function OnComplete(x: Ctx): Ctx {
    var ended := x.(l := x.l.(requestId := 0));
    if !x.l.hasLoader then ended
    else if !x.l.responseCompleted then ended.(l := ended.l.(pendingComplete := true))
    else FinishLoading(ended)
  }

  function OnFail(x: Ctx): Ctx {
    var ended := x.(l := x.l.(requestId := 0));
    if !x.l.hasLoader then ended else FailLoad(ended)
  }

  /** A redirect, or a 3xx without a usable Location, surfaced as a response that
      is already complete. */
  function OnRedirect(x: Ctx, c: ClientId, status: int, location: bool, httpFamily: bool, a: Answer): Ctx {
    var ended := x.(l := x.l.(requestId := 0));
    if !x.l.hasLoader then ended
    else if !ShouldRedirect(status, location) then OnComplete(ToLoader(ended, a))
    else PerformRedirect(ended, c, httpFamily, a)
  }

  // ----- messages through the registry -----------------------------------------

  /** What the host posts for a request id.  ok is whether the headers parse. */
  datatype Msg =
    | Response(ok: bool)
    | Data(bytes: seq<Byte>)
    | Done
    | Fail
    | Redirect(ok: bool, status: int, location: bool, httpFamily: bool)

  /** The five dispatchers, for a message whose id is registered to c: a terminal
      message takes the registration first. */
  function Dispatch(x: Ctx, c: ClientId, id: nat, m: Msg, a: Answer): Ctx {
    var taken := x.(b := x.b.Take(id));
    match m
    case Response(ok) => if ok then OnResponse(x, a) else OnFail(taken)
    case Data(bytes) => OnData(x, bytes, a)
    case Done => OnComplete(taken)
    case Fail => OnFail(taken)
    case Redirect(ok, status, location, httpFamily) =>
      if ok then OnRedirect(taken, c, status, location, httpFamily, a) else OnFail(taken)
  }

  /** What can happen to load c.  Hears is a host message for any id: it reaches
      the load only while the registry holds that id for it. */
  datatype Event =
    | Hears(id: nat, m: Msg, a: Answer)
    | Handled(a: Answer)
    | PolicyDecides(a: Answer)
    | Cancels

  function Step(x: Ctx, c: ClientId, ev: Event): Ctx {
    match ev
    case Hears(id, m, a) => if id in x.b.registry && x.b.registry[id] == c then Dispatch(x, c, id, m, a) else x
    case Handled(a) => LateHandler(x, a)
    case PolicyDecides(a) => LateDecision(x, c, a)
    case Cancels => Remove(x)
  }
}
