/** The whole frame pipeline as a state machine: the engine's cached framebuffer,
    one frame in flight, the worker's transfer buffer and the host canvas.  A run
    is any sequence of events in any order. */
module Pipeline {
  import opened Basics
  import opened Geometry
  import opened Damage
  import opened Framebuffer
  import opened Surface

  /** What the worker posts to the main thread: the full-width rows [y, y+h) in
      a transferred buffer of bufLen bytes. */
  datatype FrameMsg = FrameMsg(bufLen: nat, fbW: nat, fbH: nat, stride: nat, x: int, y: int, w: int, h: int, rows: Image)

  datatype Canvas = Canvas(w: nat, h: nat, img: Image)

  /** Present a band.  The canvas takes the frame's size, losing its content when
      that differs, and then the band's rows. */
  function Draw(c: Canvas, m: FrameMsg): (c': Canvas)
    ensures c'.w == m.fbW && c'.h == m.fbH && IsImage(c'.img, c'.w, c'.h)
    ensures forall x, y :: 0 <= x < m.fbW && 0 <= y < m.fbH ==>
              c'.img[y][x] == DrawnAt(c, m, x, y)
  {
    Canvas(m.fbW, m.fbH, Build(m.fbW, m.fbH, (x, y) => DrawnAt(c, m, x, y)))
  }

  function DrawnAt(c: Canvas, m: FrameMsg, x: int, y: int): Pixel {
    if m.y <= y < m.y + m.h then At(m.rows, x, y - m.y)
    else if c.w == m.fbW && c.h == m.fbH then At(c.img, x, y)
    else BLANK
  }

  datatype Event =
    | Reported(report: Report)
    | Scroll(call: ScrollCall)
    | Tick(env: PaintEnv)
    | Readback(env: PaintEnv)
    | SetViewport(w: int, h: int, page: (int, int) -> Pixel, garbage: (int, int) -> Pixel)
    | HostPresents
    | BufferReturns

  datatype Pipe = Pipe(e: Engine, firstFramePushed: bool, inFlight: bool, frameBuf: Option<nat>,
                       toMain: seq<FrameMsg>, toWorker: seq<nat>, canvas: Canvas) {

    /** What the user sees once the frame in flight has been presented. */
    function Displayed(): Canvas {
      if toMain == [] then canvas else Draw(canvas, toMain[0])
    }
  }

  /** engine-worker.js bibFrame: reuse the transfer buffer or make one that fits
      any band, copy the band's rows in, and give it away. */
  function BibFrame(p: Pipe, box: IntRect): Pipe
    requires box.h >= 0
  {
    var stride := p.e.w * 4;
    var capacity := p.e.h * stride;
    var bufLen := if p.frameBuf.None? || p.frameBuf.value < capacity then capacity else p.frameBuf.value;
    var msg := FrameMsg(bufLen, p.e.w, p.e.h, stride, box.x, box.y, box.w, box.h, Band(p.e.fb, p.e.w, box.y, box.h));
    p.(inFlight := true, frameBuf := None, toMain := p.toMain + [msg])
  }

  /** bibPushFrameIfDirty. */
  ghost function Push(p: Pipe, env: PaintEnv): Pipe
    requires p.e.Sized()
  {
    if p.inFlight then p
    else
      var (e', box) := Render(p.e, !p.firstFramePushed, env);
      if box.None? then p.(e := e')
      else if box.value.w <= 0 || box.value.h <= 0 then p.(e := e', firstFramePushed := true)
      else BibFrame(p.(e := e', firstFramePushed := true), box.value)
  }

  /** bibRunReadback: the forced render consumed the damage without pushing, so
      the whole frame is armed for upload. */
  ghost function RequestReadback(p: Pipe, env: PaintEnv): Pipe
    requires p.e.Sized()
  {
    var (e', box) := Render(p.e, true, env);
    p.(e := if box.Some? then e'.Uploading(e'.Frame()) else e')
  }

  /** bib_set_viewport at device pixel ratio 1: an out-of-range or unchanged size
      is ignored; otherwise the framebuffer is new (its content is garbage), the
      page is laid out anew and the whole frame is damaged. */
  function Resize(e: Engine, w: int, h: int, page: (int, int) -> Pixel, garbage: (int, int) -> Pixel): Engine {
    if w < 1 || h < 1 || w > 8192 || h > 8192 || (w == e.w && h == e.h) then e
    else Engine(w, h, Build(w, h, page), Build(w, h, garbage), [], false, EMPTY).Damaged(FrameRect(w, h))
  }

  /** The main thread takes the frame message, presents it and sends the buffer
      back. */
  function Present(p: Pipe): Pipe {
    if p.toMain == [] then p
    else p.(canvas := Draw(p.canvas, p.toMain[0]), toMain := p.toMain[1..], toWorker := p.toWorker + [p.toMain[0].bufLen])
  }

  /** engine-worker.js frameReturned. */
  function Return(p: Pipe): Pipe {
    if p.toWorker == [] then p
    else p.(frameBuf := if p.toWorker[0] > 0 then Some(p.toWorker[0]) else p.frameBuf,
            toWorker := p.toWorker[1..], inFlight := false)
  }

  ghost function Step(p: Pipe, ev: Event): (p': Pipe)
    requires p.e.Sized()
    ensures p'.e.Sized()
  {
    match ev
    case Reported(report) => p.(e := Apply(p.e, report))
    case Scroll(call) => p.(e := ScrollBlit(p.e, call))
    case Tick(env) => Push(p, env)
    case Readback(env) => RequestReadback(p, env)
    case SetViewport(w, h, page, garbage) => p.(e := Resize(p.e, w, h, page, garbage))
    case HostPresents => Present(p)
    case BufferReturns => Return(p)
  }

  ghost function Run(p: Pipe, evs: seq<Event>): (p': Pipe)
    requires p.e.Sized()
    ensures p'.e.Sized()
    decreases |evs|
  {
    if evs == [] then p else Step(Run(p, evs[..|evs| - 1]), evs[|evs| - 1])
  }

  // ----- the invariant --------------------------------------------------------

  /** The band lies inside the frame it was cut from and inside its buffer. */
  ghost predicate BandFits(m: FrameMsg) {
    && 0 <= m.y && 0 < m.h && m.y + m.h <= m.fbH && 0 <= m.x && 0 < m.w && m.x + m.w <= m.fbW
    && IsImage(m.rows, m.fbW, m.h)
    && m.stride == m.fbW * 4 && m.h * m.stride <= m.bufLen
  }

  /** A frame pixel nothing is owed for is on the display as it is in the
      framebuffer. */
  ghost predicate InSync(p: Pipe)
    requires p.e.Sized()
  {
    forall x, y :: p.e.InFrame(x, y) && !p.e.Awaiting(x, y) ==>
      && p.Displayed().w == p.e.w && p.Displayed().h == p.e.h
      && At(p.Displayed().img, x, y) == p.e.fb[y][x]
  }

  ghost predicate OneInFlight(p: Pipe) {
    && |p.toMain| + |p.toWorker| == (if p.inFlight then 1 else 0)
    && (p.inFlight ==> p.frameBuf.None?)
    && (forall m :: m in p.toMain ==> BandFits(m))
  }

  ghost predicate Inv(p: Pipe) {
    && p.e.Valid() && p.e.Coherent()
    && OneInFlight(p)
    && IsImage(p.canvas.img, p.canvas.w, p.canvas.h)
    && (p.firstFramePushed ==> InSync(p))
  }

  /** Before the first push: a coherent engine, and nothing outstanding. */
  ghost predicate Initial(p: Pipe) {
    && p.e.Valid() && p.e.Coherent() && IsImage(p.canvas.img, p.canvas.w, p.canvas.h)
    && !p.firstFramePushed && !p.inFlight && p.toMain == [] && p.toWorker == []
  }

  /** The boot globals are such a state, whatever the framebuffer holds. */
  lemma BootIsInitial(w: nat, h: nat, page: Image, garbage: Image, canvas: Canvas)
    requires 1 <= w <= 8192 && 1 <= h <= 8192 && IsImage(page, w, h) && IsImage(garbage, w, h)
    requires IsImage(canvas.img, canvas.w, canvas.h)
    ensures Initial(Pipe(Engine(w, h, page, garbage, [IntRect(0, 0, 0x10_0000, 0x10_0000)], true, EMPTY),
                         false, false, None, [], [], canvas))
  {
    var slots := [IntRect(0, 0, 0x10_0000, 0x10_0000)];
    forall x, y | 0 <= x < w && 0 <= y < h ensures Covers(slots, x, y) {
      assert slots[0].Has(x, y);
    }
  }

  // ----- every step keeps it -----------------------------------------------------

  /** Steps of the engine that push nothing. */
  lemma EngineStepKeeps(p: Pipe, e': Engine)
    requires Inv(p) && e'.Valid() && e'.Coherent() && e'.w == p.e.w && e'.h == p.e.h && LosesNothing(p.e, e', None)
    ensures Inv(p.(e := e'))
  {
  }

  lemma ReportStepKeeps(p: Pipe, r: Report)
    requires Inv(p)
    ensures Inv(p.(e := Apply(p.e, r)))
  {
    ApplyGrows(p.e, r);
    EngineStepKeeps(p, Apply(p.e, r));
  }

  lemma EverythingOwed(p: Pipe, e': Engine)
    requires Inv(p) && e'.Valid() && e'.Coherent()
    requires forall x, y :: e'.InFrame(x, y) ==> e'.Awaiting(x, y)
    ensures Inv(p.(e := e'))
  {
  }

  lemma ReadbackKeeps(p: Pipe, env: PaintEnv)
    requires Inv(p)
    ensures Inv(RequestReadback(p, env))
  {
    var (e', box) := Render(p.e, true, env);
    RenderKeeps(p.e, true, env);
    if box.Some? {
      var e'' := e'.Uploading(e'.Frame());
      forall x, y | e''.InFrame(x, y) ensures e''.Awaiting(x, y) {
        assert e'.Frame().Has(x, y);
      }
      EverythingOwed(p, e'');
    } else {
      EngineStepKeeps(p, e');
    }
  }

  lemma ResizeKeeps(p: Pipe, w: int, h: int, page: (int, int) -> Pixel, garbage: (int, int) -> Pixel)
    requires Inv(p)
    ensures Inv(p.(e := Resize(p.e, w, h, page, garbage)))
  {
    var e' := Resize(p.e, w, h, page, garbage);
    if e' != p.e {
      DamagedKeeps(Engine(w, h, Build(w, h, page), Build(w, h, garbage), [], false, EMPTY), FrameRect(w, h));
      forall x, y | e'.InFrame(x, y) ensures e'.Awaiting(x, y) {
        assert FrameRect(w, h).Has(x, y);
      }
      EverythingOwed(p, e');
    }
  }

  lemma BandFitsBuffer(h: nat, fbH: nat, stride: nat)
    requires h <= fbH
    ensures h * stride <= fbH * stride
  {
    MulMonotone(h, fbH, stride);
  }

  /** The display is the framebuffer, at every pixel, damage pending or not. */
  ghost predicate ShowsFramebuffer(p: Pipe) {
    p.Displayed() == Canvas(p.e.w, p.e.h, p.e.fb)
  }

  /** Pushing a rendered box: the display with the band over it is the
      framebuffer. */
  lemma BibFrameKeeps(p: Pipe, e': Engine, box: IntRect, forced: bool)
    requires Inv(p) && !p.inFlight && (forced || p.firstFramePushed)
    requires e'.Valid() && e'.Coherent() && e'.w == p.e.w && e'.h == p.e.h
    requires !box.Empty() && e'.Frame().Contains(box)
    requires LosesNothing(p.e, e', Some(box))
    requires forced ==> forall x, y :: e'.InFrame(x, y) ==> box.Has(x, y)
    ensures Inv(BibFrame(p.(e := e', firstFramePushed := true), box))
    ensures ShowsFramebuffer(BibFrame(p.(e := e', firstFramePushed := true), box))
  {
    var p' := BibFrame(p.(e := e', firstFramePushed := true), box);
    var m := p'.toMain[0];
    BandFitsBuffer(box.h, e'.h, e'.w * 4);
    assert p'.Displayed() == Draw(p.canvas, m);
    forall x, y | e'.InFrame(x, y)
      ensures At(p'.Displayed().img, x, y) == e'.fb[y][x]
    {
      if m.y <= y < m.y + m.h {
        assert At(m.rows, x, y - m.y) == At(e'.fb, x, y);
      } else {
        assert !box.Has(x, y);
        assert At(p.canvas.img, x, y) == p.e.fb[y][x];
      }
    }
    SameImage(p'.Displayed().img, e'.fb, e'.w, e'.h);
  }

  lemma PushKeeps(p: Pipe, env: PaintEnv)
    requires Inv(p)
    ensures Inv(Push(p, env))
  {
    if !p.inFlight {
      var (e', box) := Render(p.e, !p.firstFramePushed, env);
      RenderKeeps(p.e, !p.firstFramePushed, env);
      if box.None? {
        EngineStepKeeps(p, e');
      } else {
        BibFrameKeeps(p, e', box.value, !p.firstFramePushed);
      }
    }
  }

  /** Every frame that goes out brings the whole display up to date, not the
      undamaged part alone: a page that is damaged again by its own painting is
      still shown as last painted. */
  lemma PushShowsFramebuffer(p: Pipe, env: PaintEnv)
    requires Inv(p) && !p.inFlight && Render(p.e, !p.firstFramePushed, env).1.Some?
    ensures Push(p, env).inFlight && Push(p, env).toMain != [] && ShowsFramebuffer(Push(p, env))
  {
    var (e', box) := Render(p.e, !p.firstFramePushed, env);
    RenderKeeps(p.e, !p.firstFramePushed, env);
    BibFrameKeeps(p, e', box.value, !p.firstFramePushed);
  }

  lemma PresentKeeps(p: Pipe)
    requires Inv(p)
    ensures Inv(Present(p))
  {
  }

  lemma ReturnKeeps(p: Pipe)
    requires Inv(p)
    ensures Inv(Return(p))
  {
  }

  lemma StepKeeps(p: Pipe, ev: Event)
    requires Inv(p)
    ensures Inv(Step(p, ev))
  {
    match ev
    case Reported(report) => ReportStepKeeps(p, report);
    case Scroll(call) => ScrollKeeps(p.e, call); EngineStepKeeps(p, ScrollBlit(p.e, call));
    case Tick(env) => PushKeeps(p, env);
    case Readback(env) => ReadbackKeeps(p, env);
    case SetViewport(w, h, page, garbage) => ResizeKeeps(p, w, h, page, garbage);
    case HostPresents => PresentKeeps(p);
    case BufferReturns => ReturnKeeps(p);
  }

  // ----- the theorems about runs ----------------------------------------------------

  /** Every reachable state satisfies the invariant. */
  lemma {:induction false} RunKeeps(p: Pipe, evs: seq<Event>)
    requires Initial(p)
    ensures Inv(Run(p, evs))
    decreases |evs|
  {
    if evs != [] {
      RunKeeps(p, evs[..|evs| - 1]);
      StepKeeps(Run(p, evs[..|evs| - 1]), evs[|evs| - 1]);
    }
  }

  /** The cache agrees with repainting everything: in any reachable state with a
      frame pushed and nothing damaged, to upload or in flight, the canvas is the
      full repaint, pixel for pixel. */
  lemma {:induction false} SettledIsExact(p: Pipe, evs: seq<Event>)
    requires Initial(p)
    requires var s := Run(p, evs); s.firstFramePushed && !s.e.frameDirty && s.e.upload.Empty() && !s.inFlight
    ensures var s := Run(p, evs); s.canvas == Canvas(s.e.w, s.e.h, s.e.truth)
  {
    RunKeeps(p, evs);
    ExactWhenNothingOwed(Run(p, evs));
  }

  /** In any reachable state with nothing damaged, pushed or not, the framebuffer is
      the full repaint. */
  lemma {:induction false} UndamagedIsExact(p: Pipe, evs: seq<Event>)
    requires Initial(p) && !Run(p, evs).e.frameDirty
    ensures Run(p, evs).e.fb == Run(p, evs).e.truth
  {
    RunKeeps(p, evs);
    var e := Run(p, evs).e;
    SameImage(e.fb, e.truth, e.w, e.h);
  }

  lemma ExactWhenNothingOwed(s: Pipe)
    requires Inv(s) && s.firstFramePushed && s.e.damage == [] && s.e.upload.Empty() && !s.inFlight
    ensures s.canvas == Canvas(s.e.w, s.e.h, s.e.truth)
  {
    forall x, y | s.e.InFrame(x, y)
      ensures s.canvas.w == s.e.w && s.canvas.h == s.e.h && At(s.canvas.img, x, y) == s.e.truth[y][x]
    {
      assert !s.e.Awaiting(x, y);
    }
    assert s.e.InFrame(0, 0);
    SameImage(s.canvas.img, s.e.truth, s.e.w, s.e.h);
  }

  /** And it gets there: from any reachable state, once the outstanding buffer is
      back, one undisturbed tick and its present bring the canvas to the full
      repaint. */
  lemma {:induction false} QuietTickConverges(p: Pipe, evs: seq<Event>)
    requires Initial(p)
    ensures var s := Run(p, evs);
            var s' := Run(s, [HostPresents, BufferReturns, Tick(QUIET), HostPresents, BufferReturns]);
            s'.e.truth == s.e.truth && s'.canvas == Canvas(s.e.w, s.e.h, s.e.truth)
  {
    RunKeeps(p, evs);
    var s := Run(p, evs);
    var drained := Delivered(s);
    DeliveredKeeps(s);
    var pushed := Push(drained, QUIET);
    QuietPush(drained);
    DeliveredKeeps(pushed);
    ExactWhenNothingOwed(Delivered(pushed));
    RunFive(s, HostPresents, BufferReturns, Tick(QUIET), HostPresents, BufferReturns);
  }

  lemma {:induction false} RunFrom(p: Pipe, first: seq<Event>, rest: seq<Event>)
    requires p.e.Sized()
    ensures Run(p, first + rest) == Run(Run(p, first), rest)
    decreases |rest|
  {
    var all := first + rest;
    if rest == [] {
      assert all == first;
    } else {
      RunFrom(p, first, rest[..|rest| - 1]);
      assert all[..|all| - 1] == first + rest[..|rest| - 1];
    }
  }

  /** Until the host presents it, nothing touches the frame in flight. */
  lemma {:induction false} InFlightStays(s: Pipe, evs: seq<Event>)
    requires s.e.Sized() && s.inFlight && s.toWorker == [] && forall ev :: ev in evs ==> !ev.HostPresents?
    ensures Run(s, evs) == s.(e := Run(s, evs).e)
    decreases |evs|
  {
    if evs != [] {
      InFlightStays(s, evs[..|evs| - 1]);
      assert evs[|evs| - 1] in evs;
    }
  }

  lemma PresentAfter(s: Pipe, evs: seq<Event>)
    requires Inv(s) && s.inFlight && s.toMain != [] && forall ev :: ev in evs ==> !ev.HostPresents?
    ensures Present(Run(s, evs)).canvas == s.Displayed()
  {
    InFlightStays(s, evs);
  }

  lemma RunOne(p: Pipe, evs: seq<Event>, ev: Event)
    requires p.e.Sized()
    ensures Run(p, evs + [ev]) == Step(Run(p, evs), ev)
  {
    assert (evs + [ev])[..|evs|] == evs;
  }

  /** Progress in any run: when the gate is open and a tick renders a frame, then
      the host's next present makes the canvas the framebuffer of that tick, pixel
      for pixel, whatever else happens in between. */
  lemma {:induction false} PresentShowsTheTick(p: Pipe, evs: seq<Event>, env: PaintEnv, meanwhile: seq<Event>)
    requires Initial(p) && !Run(p, evs).inFlight
    requires Render(Run(p, evs).e, !Run(p, evs).firstFramePushed, env).1.Some?
    requires forall ev :: ev in meanwhile ==> !ev.HostPresents?
    ensures var s := Run(p, evs + [Tick(env)]);
            Run(p, evs + [Tick(env)] + meanwhile + [HostPresents]).canvas == Canvas(s.e.w, s.e.h, s.e.fb)
  {
    var s := Run(p, evs);
    RunKeeps(p, evs);
    PushKeeps(s, env);
    PushShowsFramebuffer(s, env);
    PresentAfter(Push(s, env), meanwhile);
    RunOne(p, evs, Tick(env));
    RunFrom(p, evs + [Tick(env)], meanwhile);
    RunOne(p, evs + [Tick(env)] + meanwhile, HostPresents);
  }

  /** The frame in flight is presented and its buffer comes back. */
  function Delivered(p: Pipe): Pipe { Return(Present(p)) }

  lemma DeliveredKeeps(p: Pipe)
    requires Inv(p)
    ensures Inv(Delivered(p)) && !Delivered(p).inFlight
    ensures Delivered(p).e == p.e && Delivered(p).firstFramePushed == p.firstFramePushed
  {
    PresentKeeps(p);
    ReturnKeeps(Present(p));
  }

  lemma QuietPush(p: Pipe)
    requires Inv(p) && !p.inFlight
    ensures var p' := Push(p, QUIET);
            Inv(p') && p'.firstFramePushed && p'.e.damage == [] && p'.e.upload.Empty() && p'.e.truth == p.e.truth &&
            p'.e.w == p.e.w && p'.e.h == p.e.h
  {
    PushKeeps(p, QUIET);
    QuietRender(p.e, !p.firstFramePushed);
  }

  lemma RunFive(s: Pipe, a: Event, b: Event, c: Event, d: Event, f: Event)
    requires s.e.Sized()
    ensures Run(s, [a, b, c, d, f]) == Step(Step(Step(Step(Step(s, a), b), c), d), f)
  {
    assert [a, b, c, d, f][..4] == [a, b, c, d] && [a, b, c, d][..3] == [a, b, c];
    assert [a, b, c][..2] == [a, b] && [a, b][..1] == [a] && [a][..0] == [];
    assert Run(s, [a]) == Step(s, a);
    assert Run(s, [a, b]) == Step(Step(s, a), b);
    assert Run(s, [a, b, c]) == Step(Step(Step(s, a), b), c);
  }

  /** Backpressure: in every reachable state at most one frame message or
      returned buffer is outstanding, exactly while the flag says so, and every
      band lies inside its frame and its buffer, across any resizes. */
  lemma {:induction false} OneFrameInFlight(p: Pipe, evs: seq<Event>)
    requires Initial(p)
    ensures var s := Run(p, evs);
            && |s.toMain| + |s.toWorker| == (if s.inFlight then 1 else 0)
            && (forall m :: m in s.toMain ==> BandFits(m))
  {
    RunKeeps(p, evs);
  }
}
