/** The pipeline gets somewhere: a tick that can paint brings the page as laid out to
    the canvas, and a resize takes effect. */
module Progress {
  import opened Basics
  import opened Geometry
  import opened Damage
  import opened Framebuffer
  import opened Surface
  import opened Rendering
  import opened Pipeline

  /** The outside world lets a render through: there is a view, no paint fails and none
      reports anything.  Layout may report whatever it likes. */
  ghost predicate Works(e: Engine, force: bool, env: PaintEnv)
    requires e.Sized()
  {
    env.hasView && Silent(env) && ToPaint(ApplyAll(e, env.layout), force) <= env.failAt
  }

  /** What a full repaint gives once the render has run its layout, which it does if
      one is forced or anything is owed. */
  ghost function LaidTruth(e: Engine, force: bool, env: PaintEnv): Image
    requires e.Sized()
  {
    if force || Anything(e) then ApplyAll(e, env.layout).truth else e.truth
  }

  ghost predicate Shows(p: Pipe, page: Image) { p.Displayed() == Canvas(p.e.w, p.e.h, page) }

  /** With nothing in the frame owed to the host, the display is the page. */
  lemma SyncedShows(p: Pipe, page: Image)
    requires Inv(p) && p.firstFramePushed && IsImage(page, p.e.w, p.e.h)
    requires forall x, y :: p.e.InFrame(x, y) && !p.e.Awaiting(x, y) ==> page[y][x] == p.e.fb[y][x]
    requires !Visibly(p.e)
    ensures Shows(p, page)
  {
    var c := p.Displayed();
    forall x, y | p.e.InFrame(x, y) ensures c.w == p.e.w && c.h == p.e.h && At(c.img, x, y) == page[y][x] {
      assert !p.e.Awaiting(x, y);
    }
    assert p.e.InFrame(0, 0);
    SameImage(c.img, page, p.e.w, p.e.h);
  }

  /** A push that renders nothing, because nothing in the frame is owed. */
  lemma IdlePush(p: Pipe, env: PaintEnv)
    requires Inv(p) && !p.inFlight && Works(p.e, !p.firstFramePushed, env)
    requires !Reports(p.e, !p.firstFramePushed, env)
    ensures Shows(Push(p, env), LaidTruth(p.e, !p.firstFramePushed, env)) && p.firstFramePushed
    ensures Push(p, env) == p.(e := Push(p, env).e)
  {
    ReportsExactlyWhen(p.e, !p.firstFramePushed, env);
    AnythingIsTrigger(p.e);
    PushKeeps(p, env);
    if Anything(p.e) {
      var laid := ApplyAll(p.e, env.layout);
      RenderIs(p.e, false, env, laid);
      SnapshotWhenVisible(laid, false);
      forall x, y | p.e.InFrame(x, y) ensures laid.truth[y][x] == p.e.fb[y][x] && !p.e.Awaiting(x, y) {
        assert !laid.Awaiting(x, y);
      }
      SyncedShows(p, laid.truth);
    } else {
      forall x, y | p.e.InFrame(x, y) ensures !p.e.Awaiting(x, y) { }
      SyncedShows(p, p.e.truth);
    }
  }

  lemma WorkingPush(p: Pipe, env: PaintEnv)
    requires Inv(p) && !p.inFlight && Works(p.e, !p.firstFramePushed, env)
    ensures Shows(Push(p, env), LaidTruth(p.e, !p.firstFramePushed, env))
    ensures Push(p, env).e.w == p.e.w && Push(p, env).e.h == p.e.h
  {
    var force := !p.firstFramePushed;
    ReportsExactlyWhen(p.e, force, env);
    if Reports(p.e, force, env) {
      FrameShowsThePage(p.e, force, env);
      PushShowsFramebuffer(p, env);
      RenderKeeps(p.e, force, env);
    } else {
      IdlePush(p, env);
    }
  }

  lemma PresentShown(p: Pipe)
    ensures Pipeline.Present(p).canvas == p.Displayed()
  {
  }

  /** Every tick that can paint shows the page.  In any run, with the gate open and a
      view, if no paint fails or reports, then after the tick and the host's next
      present the canvas is a full repaint of the page as layout left it, whatever
      layout reported. */
  lemma {:induction false} WorkingTickShowsThePage(p: Pipe, evs: seq<Event>, env: PaintEnv)
    requires Initial(p) && !Run(p, evs).inFlight && Works(Run(p, evs).e, !Run(p, evs).firstFramePushed, env)
    ensures var s := Run(p, evs);
            Run(p, evs + [Tick(env)] + [HostPresents]).canvas ==
            Canvas(s.e.w, s.e.h, LaidTruth(s.e, !s.firstFramePushed, env))
  {
    var s := Run(p, evs);
    RunKeeps(p, evs);
    WorkingPush(s, env);
    RunOne(p, evs, Tick(env));
    RunOne(p, evs + [Tick(env)], HostPresents);
    PresentShown(Push(s, env));
  }

  predicate InLimits(w: int, h: int) { 1 <= w <= 8192 && 1 <= h <= 8192 }

  /** What a resize brings: a frame of the size asked for, the page laid out in it, and
      all of it to be painted. */
  ghost predicate Resized(e': Engine, w: int, h: int, page: (int, int) -> Pixel) {
    && e'.w == w && e'.h == h && e'.Sized()
    && (forall x, y :: e'.InFrame(x, y) ==> e'.truth[y][x] == Sample(page, x, y) && Covers(e'.damage, x, y))
  }

  /** A resize to another size within the limits takes effect, in any run; any other
      changes nothing. */
  lemma {:induction false} ResizeTakesEffect(p: Pipe, evs: seq<Event>, w: int, h: int,
                                             page: (int, int) -> Pixel, garbage: (int, int) -> Pixel)
    requires Initial(p)
    ensures var s, s' := Run(p, evs), Run(p, evs + [SetViewport(w, h, page, garbage)]);
            if InLimits(w, h) && !(w == s.e.w && h == s.e.h)
            then s' == s.(e := s'.e) && Resized(s'.e, w, h, page)
            else s' == s
  {
    RunOne(p, evs, SetViewport(w, h, page, garbage));
    if InLimits(w, h) {
      DamagedKeeps(Engine(w, h, Build(w, h, page), Build(w, h, garbage), [], false, EMPTY), FrameRect(w, h));
      assert forall x, y :: 0 <= x < w && 0 <= y < h ==> FrameRect(w, h).Has(x, y);
    }
  }

  /** A readback that works leaves the framebuffer, which it captures, a full repaint of
      the page as laid out, and arms the whole frame for the host. */
  lemma {:induction false} ReadbackIsFresh(p: Pipe, evs: seq<Event>, env: PaintEnv)
    requires Initial(p) && Works(Run(p, evs).e, true, env)
    ensures var s, e' := Run(p, evs), Run(p, evs + [Readback(env)]).e;
            && e'.fb == ApplyAll(s.e, env.layout).truth == e'.truth
            && forall x, y :: e'.InFrame(x, y) ==> e'.upload.Has(x, y)
  {
    var s := Run(p, evs);
    RunKeeps(p, evs);
    RunOne(p, evs, Readback(env));
    ReportsExactlyWhen(s.e, true, env);
    FrameShowsThePage(s.e, true, env);
    var e' := Render(s.e, true, env).0;
    assert forall x, y :: e'.InFrame(x, y) ==> e'.Frame().Has(x, y);
  }
}
