/** The engine's side of the frame pipeline at device pixel ratio 1: what a
    content change, a scroll and a render do to the framebuffer, the damage list
    and the upload rectangle.  `truth` is the frame a full repaint would give;
    everything else is the cache that has to agree with it. */
module Surface {
  import opened Basics
  import opened Geometry
  import opened Damage
  import opened Framebuffer

  datatype Engine = Engine(w: nat, h: nat, truth: Image, fb: Image,
                           damage: seq<IntRect>, frameDirty: bool, upload: IntRect) {

    function Frame(): IntRect { FrameRect(w, h) }

    predicate Sized() { IsImage(truth, w, h) && IsImage(fb, w, h) }

    predicate InFrame(x: int, y: int) { 0 <= x < w && 0 <= y < h }

    /** Pixels the next pushed frame must still deliver to the host. */
    ghost predicate Awaiting(x: int, y: int) { Covers(damage, x, y) || upload.Has(x, y) }

    /** `frameDirty` says exactly whether there is damage: the scroll code
        consults only the flag before it moves pending damage. */
    ghost predicate Valid() {
      1 <= w <= 8192 && 1 <= h <= 8192 && Sized() && WellFormed(damage) && (frameDirty <==> damage != [])
    }

    /** Any pixel outside the damage shows the truth. */
    ghost predicate Coherent()
      requires Sized()
    {
      forall x, y :: InFrame(x, y) && !Covers(damage, x, y) ==> fb[y][x] == truth[y][x]
    }

    function Damaged(rect: IntRect): Engine {
      this.(damage := AddDamage(damage, rect), frameDirty := frameDirty || !rect.Empty())
    }

    function Uploading(rect: IntRect): Engine { this.(upload := Unite(upload, rect)) }

    function Cleared(): Engine { this.(damage := [], frameDirty := false, upload := EMPTY) }

    function DamagedAll(rects: seq<IntRect>): Engine {
      this.(damage := AddAll(damage, rects), frameDirty := frameDirty || SomeNonEmpty(rects))
    }
  }

  /** From e to e' no debt to the host is lost.  Every pixel that e owed or that
      changed since is in the reported box; with no box, e' owes it still. */
  ghost predicate LosesNothing(e: Engine, e': Engine, box: Option<IntRect>)
    requires e.Sized() && e'.Sized() && e'.w == e.w && e'.h == e.h
  {
    forall x, y :: e.InFrame(x, y) && (e.Awaiting(x, y) || e'.fb[y][x] != e.fb[y][x])
                   ==> if box.Some? then box.value.Has(x, y) else e'.Awaiting(x, y)
  }

  lemma DamagedKeeps(e: Engine, rect: IntRect)
    requires e.Valid()
    ensures e.Damaged(rect).Valid()
    ensures forall x, y :: Covers(e.damage, x, y) || rect.Has(x, y) ==> Covers(e.Damaged(rect).damage, x, y)
  {
    AddDamageCovers(e.damage, rect);
  }

  lemma DamagedAllKeeps(e: Engine, rects: seq<IntRect>)
    requires e.Valid()
    ensures e.DamagedAll(rects).Valid()
    ensures forall x, y :: Covers(e.damage, x, y) || Covers(rects, x, y) ==> Covers(e.DamagedAll(rects).damage, x, y)
  {
    AddAllCovers(e.damage, rects);
  }

  // ----- what WebCore reports ----------------------------------------------

  /** A callback of the chrome client: content inside rect changed (to anything)
      and is invalidated, or rect is to be presented again as it stands. */
  datatype Report = Repaint(content: (int, int) -> Pixel, rect: IntRect) | Present(rect: IntRect)

  /** The truth after the content inside rect changed. */
  function Changed(truth: Image, content: (int, int) -> Pixel, rect: IntRect, w: nat, h: nat): (m: Image)
    requires IsImage(truth, w, h)
    ensures IsImage(m, w, h)
    ensures forall x, y :: 0 <= x < w && 0 <= y < h && !rect.Has(x, y) ==> m[y][x] == truth[y][x]
  {
    Build(w, h, (x, y) => if rect.Has(x, y) then Sample(content, x, y) else At(truth, x, y))
  }

  function Apply(e: Engine, r: Report): (e': Engine)
    requires e.Sized()
    ensures e'.Sized() && e'.fb == e.fb && e'.w == e.w && e'.h == e.h
  {
    match r
    case Repaint(content, rect) =>
      e.(truth := Changed(e.truth, content, rect, e.w, e.h)).Damaged(rect)
    case Present(rect) => e.Uploading(rect)
  }

  function ApplyAll(e: Engine, rs: seq<Report>): (e': Engine)
    requires e.Sized()
    ensures e'.Sized() && e'.fb == e.fb && e'.w == e.w && e'.h == e.h
    decreases |rs|
  {
    if rs == [] then e else Apply(ApplyAll(e, rs[..|rs| - 1]), rs[|rs| - 1])
  }

  /** Reports only add: nothing stops being damaged or awaited, and the truth
      moves only under damage. */
  ghost predicate Grows(e: Engine, e': Engine)
    requires e.Sized() && e'.Sized() && e'.w == e.w && e'.h == e.h
  {
    && e'.fb == e.fb
    && (forall x, y :: Covers(e.damage, x, y) ==> Covers(e'.damage, x, y))
    && (forall x, y :: e.upload.Has(x, y) ==> e'.upload.Has(x, y))
    && (forall x, y :: e.InFrame(x, y) && !Covers(e'.damage, x, y) ==> e'.truth[y][x] == e.truth[y][x])
  }

  lemma ApplyGrows(e: Engine, r: Report)
    requires e.Valid()
    ensures Apply(e, r).Valid() && Grows(e, Apply(e, r))
  {
    if r.Repaint? {
      DamagedKeeps(e, r.rect);
    }
  }

  lemma {:induction false} ApplyAllGrows(e: Engine, rs: seq<Report>)
    requires e.Valid()
    ensures ApplyAll(e, rs).Valid() && Grows(e, ApplyAll(e, rs))
    decreases |rs|
  {
    if rs != [] {
      ApplyAllGrows(e, rs[..|rs| - 1]);
      ApplyGrows(ApplyAll(e, rs[..|rs| - 1]), rs[|rs| - 1]);
    }
  }

  // ----- bib_render ---------------------------------------------------------

  /** What the outside world does during one bib_render: whether there is a view,
      what layout reports, what each rectangle's paint reports, and the index of
      the rectangle whose paint fails (none when not below the count). */
  datatype PaintEnv = PaintEnv(hasView: bool, layout: seq<Report>, during: seq<seq<Report>>, failAt: nat) {
    function During(i: nat): seq<Report> { if i < |during| then during[i] else [] }
  }

  ghost function PaintOne(e: Engine, clip: IntRect, reports: seq<Report>): (e': Engine)
    requires e.Sized()
    ensures e'.Sized() && e'.w == e.w && e'.h == e.h
  {
    ApplyAll(e.(fb := Painted(e.fb, e.truth, clip, e.w, e.h)), reports)
  }

  /** Paint the snapshot from rectangle i on.  A failed paint returns that
      rectangle and every later one to the damage, and the upload and what was
      already painted to the upload rectangle. */
  ghost function PaintLoop(e: Engine, dirty: seq<IntRect>, i: nat, bounds: IntRect, upload: IntRect, env: PaintEnv)
    : (res: (Engine, Option<IntRect>))
    requires e.Sized() && i <= |dirty|
    ensures res.0.Sized() && res.0.w == e.w && res.0.h == e.h
    decreases |dirty| - i
  {
    if i == |dirty| then (e, Some(Unite(bounds, upload)))
    else if i == env.failAt then (Rearmed(e, dirty[i..], bounds, upload), None)
    else PaintLoop(PaintOne(e, dirty[i], env.During(i)), dirty, i + 1, Unite(bounds, dirty[i]), upload, env)
  }

  function Rearmed(e: Engine, unpainted: seq<IntRect>, bounds: IntRect, upload: IntRect): (e': Engine)
    requires e.Sized()
    ensures e'.Sized() && e'.w == e.w && e'.h == e.h && e'.fb == e.fb
  {
    e.DamagedAll(unpainted).Uploading(upload).Uploading(bounds)
  }

  /** Each damage rectangle's visible part, empty ones dropped. */
  function Visible(ds: seq<IntRect>, frame: IntRect): (vs: seq<IntRect>)
    ensures |vs| <= |ds|
    ensures forall i :: 0 <= i < |vs| ==> !vs[i].Empty() && frame.Contains(vs[i])
    decreases |ds|
  {
    if ds == [] then []
    else
      var v := Intersection(ds[|ds| - 1], frame);
      Visible(ds[..|ds| - 1], frame) + if v.Empty() then [] else [v]
  }

  lemma {:induction false} VisibleCovers(ds: seq<IntRect>, frame: IntRect, x: int, y: int)
    ensures Covers(Visible(ds, frame), x, y) <==> Covers(ds, x, y) && frame.Has(x, y)
    decreases |ds|
  {
    var vs := Visible(ds, frame);
    if ds != [] {
      var most, last := ds[..|ds| - 1], ds[|ds| - 1];
      VisibleCovers(most, frame, x, y);
      var v := Intersection(last, frame);
      var front := Visible(most, frame);
      assert v.Has(x, y) <==> last.Has(x, y) && frame.Has(x, y);
      if Covers(ds, x, y) && frame.Has(x, y) {
        var k :| 0 <= k < |ds| && ds[k].Has(x, y);
        if k == |ds| - 1 {
          assert vs[|front|].Has(x, y);
        } else {
          assert most[k].Has(x, y);
          var j :| 0 <= j < |front| && front[j].Has(x, y);
          assert vs[j].Has(x, y);
        }
      }
      if Covers(vs, x, y) {
        var k :| 0 <= k < |vs| && vs[k].Has(x, y);
        if k < |front| {
          assert front[k].Has(x, y);
          var j :| 0 <= j < |most| && most[j].Has(x, y);
          assert ds[j].Has(x, y);
        } else {
          assert ds[|ds| - 1].Has(x, y);
        }
      }
    }
  }

  /** bib_render: the new state and, when a frame is ready, the reported box. */
  ghost function Render(e: Engine, force: bool, env: PaintEnv): (res: (Engine, Option<IntRect>))
    requires e.Sized()
    ensures res.0.Sized() && res.0.w == e.w && res.0.h == e.h
  {
    if !force && !e.frameDirty && e.upload.Empty() then (e, None)
    else if !env.hasView then (e, None)
    else
      var laid := ApplyAll(e, env.layout);
      var dirty, upload := DirtySnapshot(laid, force), UploadSnapshot(laid, force);
      if dirty == [] && upload.Empty() then (laid.Cleared(), None)
      else PaintLoop(laid.Cleared(), dirty, 0, EMPTY, upload, env)
  }

  /** What the box is still to report, as seen from the middle of the loop: the
      rectangles to paint, what is painted, and the pending upload.  Damage that
      the paints report meanwhile is not part of it. */
  ghost predicate Due(dirty: seq<IntRect>, i: nat, bounds: IntRect, upload: IntRect, x: int, y: int)
    requires i <= |dirty|
  {
    Covers(dirty[i..], x, y) || bounds.Has(x, y) || upload.Has(x, y)
  }

  /** Neither record of e' has lost a pixel of e's. */
  ghost predicate OwesMore(e: Engine, e': Engine) {
    && (forall x, y :: Covers(e.damage, x, y) ==> Covers(e'.damage, x, y))
    && (forall x, y :: e.upload.Has(x, y) ==> e'.upload.Has(x, y))
  }

  ghost predicate LoopState(e: Engine, dirty: seq<IntRect>, i: nat, bounds: IntRect, upload: IntRect)
    requires i <= |dirty|
  {
    && e.Valid()
    && (forall k :: 0 <= k < |dirty| ==> !dirty[k].Empty() && e.Frame().Contains(dirty[k]))
    && (bounds.Empty() || e.Frame().Contains(bounds)) && (upload.Empty() || e.Frame().Contains(upload))
    && (i > 0 ==> !bounds.Empty())
    && (forall x, y :: e.InFrame(x, y) && !Covers(e.damage, x, y) && !Covers(dirty[i..], x, y) ==>
          e.fb[y][x] == e.truth[y][x])
  }

  lemma PaintOneKeeps(e: Engine, dirty: seq<IntRect>, i: nat, bounds: IntRect, upload: IntRect, reports: seq<Report>)
    requires i < |dirty| && LoopState(e, dirty, i, bounds, upload)
    ensures LoopState(PaintOne(e, dirty[i], reports), dirty, i + 1, Unite(bounds, dirty[i]), upload)
    ensures OwesMore(e, PaintOne(e, dirty[i], reports))
    ensures forall x, y :: Due(dirty, i, bounds, upload, x, y) ==> Due(dirty, i + 1, Unite(bounds, dirty[i]), upload, x, y)
    ensures forall x, y :: e.InFrame(x, y) && PaintOne(e, dirty[i], reports).fb[y][x] != e.fb[y][x] ==>
              Due(dirty, i, bounds, upload, x, y)
  {
    var painted := e.(fb := Painted(e.fb, e.truth, dirty[i], e.w, e.h));
    var e' := PaintOne(e, dirty[i], reports);
    ApplyAllGrows(painted, reports);
    if !bounds.Empty() {
      UniteIsLeast(bounds, dirty[i], e.Frame());
    }
    forall x, y ensures Covers(dirty[i..], x, y) <==> dirty[i].Has(x, y) || Covers(dirty[i + 1..], x, y) {
      CoversFirst(dirty[i..], x, y);
      assert dirty[i..][1..] == dirty[i + 1..];
    }
  }

  lemma CoversFirst(ds: seq<IntRect>, x: int, y: int)
    requires ds != []
    ensures Covers(ds, x, y) <==> ds[0].Has(x, y) || Covers(ds[1..], x, y)
  {
    if Covers(ds, x, y) && !ds[0].Has(x, y) {
      var k :| 0 <= k < |ds| && ds[k].Has(x, y);
      assert ds[1..][k - 1].Has(x, y);
    }
    if Covers(ds[1..], x, y) {
      var k :| 0 <= k < |ds[1..]| && ds[1..][k].Has(x, y);
      assert ds[k + 1].Has(x, y);
    }
  }

  lemma RearmedKeeps(e: Engine, dirty: seq<IntRect>, i: nat, bounds: IntRect, upload: IntRect)
    requires i <= |dirty| && LoopState(e, dirty, i, bounds, upload)
    ensures Rearmed(e, dirty[i..], bounds, upload).Valid() && Rearmed(e, dirty[i..], bounds, upload).Coherent()
    ensures OwesMore(e, Rearmed(e, dirty[i..], bounds, upload))
    ensures forall x, y :: Due(dirty, i, bounds, upload, x, y) ==> Rearmed(e, dirty[i..], bounds, upload).Awaiting(x, y)
  {
    AddAllCovers(e.damage, dirty[i..]);
  }

  /** What the rest of the loop does, started in state e at rectangle i: it
      reports everything due or owes it again, and keeps what the paints owe. */
  ghost predicate LoopResult(e: Engine, dirty: seq<IntRect>, i: nat, bounds: IntRect, upload: IntRect,
                             e': Engine, box: Option<IntRect>)
    requires i <= |dirty| && e.Sized() && e'.Sized() && e'.w == e.w && e'.h == e.h
  {
    && e'.Valid() && e'.Coherent()
    && (box.Some? ==> !box.value.Empty() && e.Frame().Contains(box.value))
    && OwesMore(e, e')
    && (forall x, y :: e.InFrame(x, y) && (Due(dirty, i, bounds, upload, x, y) || e'.fb[y][x] != e.fb[y][x]) ==>
          if box.Some? then box.value.Has(x, y) else e'.Awaiting(x, y))
  }

  lemma LoopDone(e: Engine, dirty: seq<IntRect>, bounds: IntRect, upload: IntRect)
    requires LoopState(e, dirty, |dirty|, bounds, upload)
    requires dirty != [] || !upload.Empty()
    ensures LoopResult(e, dirty, |dirty|, bounds, upload, e, Some(Unite(bounds, upload)))
  {
    if !bounds.Empty() && !upload.Empty() {
      UniteIsLeast(bounds, upload, e.Frame());
    }
    assert dirty[|dirty|..] == [];
    forall x, y ensures !Covers(dirty[|dirty|..], x, y) { }
  }

  lemma LoopStep(e: Engine, dirty: seq<IntRect>, i: nat, bounds: IntRect, upload: IntRect, reports: seq<Report>,
                 e': Engine, box: Option<IntRect>)
    requires i < |dirty| && LoopState(e, dirty, i, bounds, upload)
    requires e'.Sized() && e'.w == e.w && e'.h == e.h
    requires LoopResult(PaintOne(e, dirty[i], reports), dirty, i + 1, Unite(bounds, dirty[i]), upload, e', box)
    ensures LoopResult(e, dirty, i, bounds, upload, e', box)
  {
    PaintOneKeeps(e, dirty, i, bounds, upload, reports);
    var one := PaintOne(e, dirty[i], reports);
    forall x, y | e.InFrame(x, y) && (Due(dirty, i, bounds, upload, x, y) || e'.fb[y][x] != e.fb[y][x])
      ensures if box.Some? then box.value.Has(x, y) else e'.Awaiting(x, y)
    {
      if e'.fb[y][x] == one.fb[y][x] {
        assert Due(dirty, i + 1, Unite(bounds, dirty[i]), upload, x, y);
      }
    }
  }

  lemma {:induction false} PaintLoopKeeps(e: Engine, dirty: seq<IntRect>, i: nat, bounds: IntRect, upload: IntRect, env: PaintEnv)
    requires i <= |dirty| && LoopState(e, dirty, i, bounds, upload)
    requires dirty != [] || !upload.Empty()
    ensures LoopResult(e, dirty, i, bounds, upload,
                       PaintLoop(e, dirty, i, bounds, upload, env).0, PaintLoop(e, dirty, i, bounds, upload, env).1)
    decreases |dirty| - i
  {
    if i == |dirty| {
      LoopDone(e, dirty, bounds, upload);
    } else if i == env.failAt {
      RearmedKeeps(e, dirty, i, bounds, upload);
    } else {
      var one, grown := PaintOne(e, dirty[i], env.During(i)), Unite(bounds, dirty[i]);
      PaintOneKeeps(e, dirty, i, bounds, upload, env.During(i));
      PaintLoopKeeps(one, dirty, i + 1, grown, upload, env);
      var (e', box) := PaintLoop(one, dirty, i + 1, grown, upload, env);
      LoopStep(e, dirty, i, bounds, upload, env.During(i), e', box);
    }
  }

  /** The state after layout, if bib_render gets that far. */
  function LaidOut(e: Engine, force: bool, env: PaintEnv): (laid: Engine)
    requires e.Sized()
    ensures laid.Sized() && laid.fb == e.fb && laid.w == e.w && laid.h == e.h
  {
    if (force || e.frameDirty || !e.upload.Empty()) && env.hasView then ApplyAll(e, env.layout) else e
  }

  /** bib_render loses nothing.  Whatever layout, paint and a part-way failure
      do, the framebuffer stays coherent.  A reported box is a non-empty part of
      the frame, the whole of it when forced, and holds every pixel that changed
      or was owed, counting what layout added; without a box all of that is still
      owed. */
  lemma RenderKeeps(e: Engine, force: bool, env: PaintEnv)
    requires e.Valid() && e.Coherent()
    ensures var (e', box) := Render(e, force, env);
            && e'.Valid() && e'.Coherent()
            && LosesNothing(e, e', box) && LosesNothing(LaidOut(e, force, env), e', box)
            && (box.Some? ==> !box.value.Empty() && e.Frame().Contains(box.value))
            && (force && box.Some? ==> forall x, y :: e.InFrame(x, y) ==> box.value.Has(x, y))
  {
    if (force || e.frameDirty || !e.upload.Empty()) && env.hasView {
      ApplyAllGrows(e, env.layout);
      RenderLaid(e, ApplyAll(e, env.layout), force, env);
    }
  }

  /** The snapshot bib_render takes after layout. */
  function DirtySnapshot(laid: Engine, force: bool): seq<IntRect> {
    if force then [laid.Frame()] else Visible(laid.damage, laid.Frame())
  }

  function UploadSnapshot(laid: Engine, force: bool): IntRect {
    if force then EMPTY else Intersection(laid.upload, laid.Frame())
  }

  lemma SnapshotCovers(laid: Engine, force: bool)
    requires laid.Valid()
    ensures forall x, y :: laid.InFrame(x, y) && Covers(laid.damage, x, y) ==> Covers(DirtySnapshot(laid, force), x, y)
    ensures forall x, y :: laid.InFrame(x, y) && laid.upload.Has(x, y) ==>
              UploadSnapshot(laid, force).Has(x, y) || Covers(DirtySnapshot(laid, force), x, y)
    ensures force ==> forall x, y :: laid.InFrame(x, y) ==> Covers(DirtySnapshot(laid, force), x, y)
  {
    if force {
      forall x, y | laid.InFrame(x, y) ensures Covers(DirtySnapshot(laid, force), x, y) {
        assert DirtySnapshot(laid, force)[0].Has(x, y);
      }
    } else {
      forall x, y | laid.InFrame(x, y) && Covers(laid.damage, x, y)
        ensures Covers(DirtySnapshot(laid, force), x, y)
      {
        VisibleCovers(laid.damage, laid.Frame(), x, y);
      }
    }
  }

  lemma RenderLaid(e: Engine, laid: Engine, force: bool, env: PaintEnv)
    requires e.Valid() && e.Coherent() && laid.Valid() && laid.w == e.w && laid.h == e.h && Grows(e, laid)
    ensures var dirty, upload := DirtySnapshot(laid, force), UploadSnapshot(laid, force);
            var (e', box) := if dirty == [] && upload.Empty() then (laid.Cleared(), None)
                             else PaintLoop(laid.Cleared(), dirty, 0, EMPTY, upload, env);
            && e'.Valid() && e'.Coherent() && LosesNothing(laid, e', box)
            && (box.Some? ==> !box.value.Empty() && e.Frame().Contains(box.value))
            && (force && box.Some? ==> forall x, y :: e.InFrame(x, y) ==> box.value.Has(x, y))
  {
    var dirty, upload, start := DirtySnapshot(laid, force), UploadSnapshot(laid, force), laid.Cleared();
    SnapshotCovers(laid, force);
    forall x, y ensures !Covers(start.damage, x, y) { }
    if dirty == [] && upload.Empty() {
      forall x, y ensures !Covers(dirty, x, y) { }
    } else {
      assert dirty[0..] == dirty;
      PaintLoopKeeps(start, dirty, 0, EMPTY, upload, env);
    }
  }

  // ----- damage reported while painting --------------------------------------

  /** A repaint is on the damage list, a present in the upload rectangle. */
  ghost predicate Holds(e: Engine, r: Report) {
    forall x, y :: r.rect.Has(x, y) ==> if r.Repaint? then Covers(e.damage, x, y) else e.upload.Has(x, y)
  }

  lemma {:induction false} ReportedIsHeld(e: Engine, rs: seq<Report>, j: nat)
    requires e.Valid() && j < |rs|
    ensures Holds(ApplyAll(e, rs), rs[j])
    decreases |rs|
  {
    var most := rs[..|rs| - 1];
    ApplyAllGrows(e, most);
    ApplyGrows(ApplyAll(e, most), rs[|rs| - 1]);
    if j < |rs| - 1 {
      ReportedIsHeld(e, most, j);
    } else {
      DamagedKeeps(ApplyAll(e, most), rs[j].rect);
    }
  }

  /** What is reported while rectangle k is painted is for the next frame:
      bib_render leaves it owed, whether or not a later paint fails. */
  lemma {:induction false} PaintReportsSurvive(e: Engine, dirty: seq<IntRect>, i: nat, bounds: IntRect, upload: IntRect,
                                               env: PaintEnv, k: nat, j: nat)
    requires i <= k < |dirty| && LoopState(e, dirty, i, bounds, upload)
    requires !(i <= env.failAt <= k) && j < |env.During(k)|
    ensures Holds(PaintLoop(e, dirty, i, bounds, upload, env).0, env.During(k)[j])
    decreases |dirty| - i
  {
    var one, grown := PaintOne(e, dirty[i], env.During(i)), Unite(bounds, dirty[i]);
    PaintOneKeeps(e, dirty, i, bounds, upload, env.During(i));
    if i < k {
      PaintReportsSurvive(one, dirty, i + 1, grown, upload, env, k, j);
    } else {
      ReportedIsHeld(e.(fb := Painted(e.fb, e.truth, dirty[i], e.w, e.h)), env.During(i), j);
      PaintLoopKeeps(one, dirty, i + 1, grown, upload, env);
    }
  }

  // ----- an undisturbed render -------------------------------------------------

  /** Nothing is reported and nothing fails. */
  const QUIET: PaintEnv := PaintEnv(true, [], [], 0x10_0000)

  lemma {:induction false} QuietLoop(e: Engine, dirty: seq<IntRect>, i: nat, bounds: IntRect, upload: IntRect)
    requires e.Sized() && i <= |dirty| <= MAX_DAMAGE_RECTS
    ensures var (e', box) := PaintLoop(e, dirty, i, bounds, upload, QUIET); box.Some? && e' == e.(fb := e'.fb)
    decreases |dirty| - i
  {
    if i < |dirty| {
      QuietLoop(PaintOne(e, dirty[i], []), dirty, i + 1, Unite(bounds, dirty[i]), upload);
    }
  }

  /** An undisturbed render leaves nothing damaged and nothing to upload. */
  lemma QuietRender(e: Engine, force: bool)
    requires e.Valid()
    ensures var (e', box) := Render(e, force, QUIET);
            e'.damage == [] && e'.upload.Empty() && e'.truth == e.truth && (force ==> box.Some?)
  {
    if force || e.frameDirty || !e.upload.Empty() {
      QuietLoop(e.Cleared(), DirtySnapshot(e, force), 0, EMPTY, UploadSnapshot(e, force));
    }
  }

  // ----- bibScrollBlit ------------------------------------------------------

  /** Where one pending rectangle goes: outside the scrolled region it stays;
      inside it moves; straddling, it stays in full and gains a moved copy.
      Moved copies clip to dst. */
  function Carried(r: IntRect, scrollRect: IntRect, dst: IntRect, dx: int, dy: int): (c: seq<IntRect>)
    ensures |c| <= 2
  {
    var moving := Intersection(r, scrollRect);
    if moving.Empty() then [r]
    else
      var moved := Intersection(moving.Moved(dx, dy), dst);
      (if moving != r then [r] else []) + (if moved.Empty() then [] else [moved])
  }

  function CarriedAll(ds: seq<IntRect>, scrollRect: IntRect, dst: IntRect, dx: int, dy: int): (c: seq<IntRect>)
    ensures |c| <= 2 * |ds|
    decreases |ds|
  {
    if ds == [] then []
    else CarriedAll(ds[..|ds| - 1], scrollRect, dst, dx, dy) + Carried(ds[|ds| - 1], scrollRect, dst, dx, dy)
  }

  /** The bands of the scrolled region that the shift exposes. */
  function Exposed(r: IntRect, dx: int, dy: int): seq<IntRect> {
    (if dy > 0 then [IntRect(r.x, r.y, r.w, dy)]
     else if dy < 0 then [IntRect(r.x, r.y + r.h + dy, r.w, -dy)] else []) +
    (if dx > 0 then [IntRect(r.x, r.y, dx, r.h)]
     else if dx < 0 then [IntRect(r.x + r.w + dx, r.y, -dx, r.h)] else [])
  }

  /** One ChromeClient::scroll call.  `content` is what the page newly shows in
      the exposed part; `wrapped` is whether the surface still wraps the
      framebuffer. */
  datatype ScrollCall = ScrollCall(content: (int, int) -> Pixel, dx: int, dy: int,
                                   rectToScroll: IntRect, clip: IntRect, wrapped: bool) {
    function Region(frame: IntRect): IntRect { Intersection(Intersection(rectToScroll, clip), frame) }

    /** The part of the region whose shifted source is also in the region. */
    function Dst(frame: IntRect): IntRect { Intersection(Region(frame).Moved(dx, dy), Region(frame)) }
  }

  /** The page after a scroll: content whose source is also in the region moves
      with it, the rest of the region is new, and nothing else changes. */
  function Scrolled(truth: Image, content: (int, int) -> Pixel, region: IntRect, dst: IntRect, dx: int, dy: int,
                    w: nat, h: nat): (m: Image)
    requires IsImage(truth, w, h)
    ensures IsImage(m, w, h)
    ensures forall x, y :: 0 <= x < w && 0 <= y < h && dst.Has(x, y) ==> m[y][x] == At(truth, x - dx, y - dy)
    ensures forall x, y :: 0 <= x < w && 0 <= y < h && !dst.Has(x, y) && !region.Has(x, y) ==> m[y][x] == truth[y][x]
  {
    Build(w, h, (x, y) => if dst.Has(x, y) then At(truth, x - dx, y - dy)
                          else if region.Has(x, y) then Sample(content, x, y)
                          else At(truth, x, y))
  }

  predicate SomeContains(ds: seq<IntRect>, r: IntRect) {
    exists i :: 0 <= i < |ds| && ds[i].Contains(r)
  }

  function Carry(e: Engine, region: IntRect, dst: IntRect, dx: int, dy: int): (e': Engine)
    ensures e' == e.(damage := e'.damage, frameDirty := e'.frameDirty)
  {
    if !e.frameDirty then e
    else e.(damage := [], frameDirty := false).DamagedAll(CarriedAll(e.damage, region, dst, dx, dy))
  }

  function ScrollBlit(e: Engine, c: ScrollCall): (e': Engine)
    requires e.Sized()
    ensures e'.Sized() && e'.w == e.w && e'.h == e.h
  {
    var region, dst := c.Region(e.Frame()), c.Dst(e.Frame());
    ScrollIn(e.(truth := Scrolled(e.truth, c.content, region, dst, c.dx, c.dy, e.w, e.h)), c, region, dst)
  }

  /** Shift the pixels, or fall back to damage: when nothing of the region stays
      in it, or when one pending rectangle covers it all. */
  function ScrollIn(e: Engine, c: ScrollCall, region: IntRect, dst: IntRect): (e': Engine)
    requires e.Sized() && e.Frame().Contains(region)
    requires dst == Intersection(region.Moved(c.dx, c.dy), region)
    ensures e'.Sized() && e'.w == e.w && e'.h == e.h
  {
    if region.Empty() then e.Damaged(c.clip)
    else if dst.Empty() then e.Damaged(region)
    else if e.frameDirty && SomeContains(e.damage, region) then e.Damaged(region)
    else Blit(Carry(e, region, dst, c.dx, c.dy), c, region, dst)
  }

  /** The pixels move, the host re-uploads the region, the exposed bands repaint;
      if the surface no longer wraps the framebuffer, repaint the frame. */
  function Blit(e: Engine, c: ScrollCall, region: IntRect, dst: IntRect): (e': Engine)
    requires IsImage(e.fb, e.w, e.h) && IsImage(e.truth, e.w, e.h)
    requires e.Frame().Contains(dst.Moved(-c.dx, -c.dy))
    ensures e'.Sized() && e'.w == e.w && e'.h == e.h
  {
    if !c.wrapped then e.Damaged(e.Frame())
    else e.(fb := Shifted(e.fb, dst, c.dx, c.dy, e.w, e.h)).Uploading(region).DamagedAll(Exposed(region, c.dx, c.dy))
  }

  lemma {:induction false} CarriedAllCovers(ds: seq<IntRect>, region: IntRect, dst: IntRect, dx: int, dy: int, x: int, y: int)
    ensures Covers(ds, x, y) && !region.Has(x, y) ==> Covers(CarriedAll(ds, region, dst, dx, dy), x, y)
    ensures dst.Has(x, y) && region.Has(x - dx, y - dy) && Covers(ds, x - dx, y - dy) ==>
              Covers(CarriedAll(ds, region, dst, dx, dy), x, y)
    decreases |ds|
  {
    if ds != [] {
      var most, last := ds[..|ds| - 1], ds[|ds| - 1];
      CarriedAllCovers(most, region, dst, dx, dy, x, y);
      var front, back := CarriedAll(most, region, dst, dx, dy), Carried(last, region, dst, dx, dy);
      CoversBoth(front, back, x, y);
      CoversLast(ds, x, y);
      CoversLast(ds, x - dx, y - dy);
      CarriedCovers(last, region, dst, dx, dy, x, y);
    }
  }

  lemma CarriedCovers(r: IntRect, region: IntRect, dst: IntRect, dx: int, dy: int, x: int, y: int)
    ensures r.Has(x, y) && !region.Has(x, y) ==> Covers(Carried(r, region, dst, dx, dy), x, y)
    ensures dst.Has(x, y) && region.Has(x - dx, y - dy) && r.Has(x - dx, y - dy) ==>
              Covers(Carried(r, region, dst, dx, dy), x, y)
  {
    var c := Carried(r, region, dst, dx, dy);
    var moving := Intersection(r, region);
    assert moving.Has(x, y) <==> r.Has(x, y) && region.Has(x, y);
    if r.Has(x, y) && !region.Has(x, y) {
      assert c[0] == r;
    }
    if dst.Has(x, y) && region.Has(x - dx, y - dy) && r.Has(x - dx, y - dy) {
      var moved := Intersection(moving.Moved(dx, dy), dst);
      assert moving.Has(x - dx, y - dy);
      assert moved.Has(x, y);
      assert c[|c| - 1] == moved;
    }
  }

  lemma CoversBoth(a: seq<IntRect>, b: seq<IntRect>, x: int, y: int)
    ensures Covers(a + b, x, y) <==> Covers(a, x, y) || Covers(b, x, y)
  {
    var c := a + b;
    if Covers(a, x, y) {
      var k :| 0 <= k < |a| && a[k].Has(x, y);
      assert c[k].Has(x, y);
    }
    if Covers(b, x, y) {
      var k :| 0 <= k < |b| && b[k].Has(x, y);
      assert c[|a| + k].Has(x, y);
    }
    if Covers(c, x, y) {
      var k :| 0 <= k < |c| && c[k].Has(x, y);
      assert if k < |a| then a[k].Has(x, y) else b[k - |a|].Has(x, y);
    }
  }

  lemma CoversLast(ds: seq<IntRect>, x: int, y: int)
    requires ds != []
    ensures Covers(ds, x, y) <==> Covers(ds[..|ds| - 1], x, y) || ds[|ds| - 1].Has(x, y)
  {
    var most, last := ds[..|ds| - 1], [ds[|ds| - 1]];
    assert ds == most + last;
    CoversBoth(most, last, x, y);
    assert Covers(last, x, y) <==> last[0].Has(x, y);
  }

  /** The exposed bands cover everything in the region the shift does not
      rewrite. */
  lemma ExposedCovers(region: IntRect, dx: int, dy: int, x: int, y: int)
    requires region.Has(x, y) && !region.Has(x - dx, y - dy)
    ensures Covers(Exposed(region, dx, dy), x, y)
  {
    var bands := Exposed(region, dx, dy);
    if dy != 0 && !(region.y <= y - dy < region.y + region.h) {
      assert bands[0].Has(x, y);
    } else {
      assert bands[|bands| - 1].Has(x, y);
    }
  }

  /** The setting of a blit: dst is what of the region stays in it. */
  ghost predicate BlitSetting(e: Engine, region: IntRect, dst: IntRect, dx: int, dy: int) {
    && !region.Empty() && !dst.Empty() && e.Frame().Contains(region)
    && dst == Intersection(region.Moved(dx, dy), region)
  }

  lemma DstHas(region: IntRect, dx: int, dy: int)
    ensures forall x, y :: Intersection(region.Moved(dx, dy), region).Has(x, y) <==>
              region.Has(x, y) && region.Has(x - dx, y - dy)
  {
    forall x, y
      ensures Intersection(region.Moved(dx, dy), region).Has(x, y) <==> region.Has(x, y) && region.Has(x - dx, y - dy)
    {
      assert region.Moved(dx, dy).Has(x, y) <==> region.Has(x - dx, y - dy);
    }
  }

  /** What the moved damage must cover: staleness outside the region, and
      staleness that the shift is about to carry to dst. */
  ghost predicate Carries(before: seq<IntRect>, after: seq<IntRect>, region: IntRect, dst: IntRect, dx: int, dy: int) {
    && (forall x, y :: Covers(before, x, y) && !region.Has(x, y) ==> Covers(after, x, y))
    && (forall x, y :: dst.Has(x, y) && Covers(before, x - dx, y - dy) ==> Covers(after, x, y))
  }

  lemma CarryKeeps(e: Engine, region: IntRect, dst: IntRect, dx: int, dy: int)
    requires e.Valid() && BlitSetting(e, region, dst, dx, dy)
    ensures Carry(e, region, dst, dx, dy).Valid()
    ensures Carries(e.damage, Carry(e, region, dst, dx, dy).damage, region, dst, dx, dy)
  {
    DstHas(region, dx, dy);
    if e.frameDirty {
      var none := e.(damage := [], frameDirty := false);
      var pending := CarriedAll(e.damage, region, dst, dx, dy);
      DamagedAllKeeps(none, pending);
      forall x, y
        ensures Covers(e.damage, x, y) && !region.Has(x, y) ==> Covers(pending, x, y)
        ensures dst.Has(x, y) && Covers(e.damage, x - dx, y - dy) ==> Covers(pending, x, y)
      {
        CarriedAllCovers(e.damage, region, dst, dx, dy, x, y);
      }
    } else {
      forall x, y ensures !Covers(e.damage, x, y) { }
    }
  }

  /** The page and the carried damage of a blit. */
  function CarriedOver(e: Engine, c: ScrollCall): (carried: Engine)
    requires e.Sized()
    ensures carried.Sized() && carried.fb == e.fb && carried.w == e.w && carried.h == e.h && carried.upload == e.upload
  {
    var region, dst := c.Region(e.Frame()), c.Dst(e.Frame());
    Carry(e.(truth := Scrolled(e.truth, c.content, region, dst, c.dx, c.dy, e.w, e.h)), region, dst, c.dx, c.dy)
  }

  /** Moving the pixels, carrying the damage and exposing the bands keeps every
      stale pixel damaged, and uploads every pixel that moved. */
  lemma BlitKeeps(e: Engine, c: ScrollCall)
    requires e.Valid() && e.Coherent()
    requires BlitSetting(e, c.Region(e.Frame()), c.Dst(e.Frame()), c.dx, c.dy)
    ensures var e' := Blit(CarriedOver(e, c), c, c.Region(e.Frame()), c.Dst(e.Frame()));
            e'.Valid() && e'.Coherent() && LosesNothing(e, e', None)
  {
    var region, dst, dx, dy := c.Region(e.Frame()), c.Dst(e.Frame()), c.dx, c.dy;
    var e1 := e.(truth := Scrolled(e.truth, c.content, region, dst, dx, dy, e.w, e.h));
    var carried := CarriedOver(e, c);
    CarryKeeps(e1, region, dst, dx, dy);
    if c.wrapped {
      ShiftKeeps(e, c, carried, region, dst);
    } else {
      DamagedKeeps(carried, e.Frame());
      forall x, y | e.InFrame(x, y) ensures Covers(carried.Damaged(e.Frame()).damage, x, y) {
        assert e.Frame().Has(x, y);
      }
    }
  }

  /** Before the blit and after it, with the damage carried over. */
  ghost predicate Carrying(e: Engine, c: ScrollCall, carried: Engine, region: IntRect, dst: IntRect) {
    && e.Valid() && e.Coherent() && carried.Valid() && BlitSetting(e, region, dst, c.dx, c.dy) && c.wrapped
    && carried.truth == Scrolled(e.truth, c.content, region, dst, c.dx, c.dy, e.w, e.h)
    && carried.fb == e.fb && carried.w == e.w && carried.h == e.h && carried.upload == e.upload
    && Carries(e.damage, carried.damage, region, dst, c.dx, c.dy)
  }

  lemma ShiftKeeps(e: Engine, c: ScrollCall, carried: Engine, region: IntRect, dst: IntRect)
    requires Carrying(e, c, carried, region, dst)
    ensures var e' := Blit(carried, c, region, dst); e'.Valid() && e'.Coherent() && LosesNothing(e, e', None)
  {
    var exposed := Exposed(region, c.dx, c.dy);
    DstHas(region, c.dx, c.dy);
    forall x, y | region.Has(x, y) && !dst.Has(x, y) ensures Covers(exposed, x, y) {
      ExposedCovers(region, c.dx, c.dy, x, y);
    }
    DamagedAllKeeps(carried.(fb := Shifted(e.fb, dst, c.dx, c.dy, e.w, e.h)).Uploading(region), exposed);
    ShiftCoherent(e, c, carried, region, dst);
    ShiftOwes(e, c, carried, region, dst);
  }

  lemma ShiftCoherent(e: Engine, c: ScrollCall, carried: Engine, region: IntRect, dst: IntRect)
    requires Carrying(e, c, carried, region, dst)
    requires var e' := Blit(carried, c, region, dst);
             forall x, y :: Covers(carried.damage, x, y) || (region.Has(x, y) && !dst.Has(x, y)) ==> Covers(e'.damage, x, y)
    ensures Blit(carried, c, region, dst).Coherent()
  {
    DstHas(region, c.dx, c.dy);
  }

  lemma ShiftOwes(e: Engine, c: ScrollCall, carried: Engine, region: IntRect, dst: IntRect)
    requires Carrying(e, c, carried, region, dst)
    requires var e' := Blit(carried, c, region, dst);
             forall x, y :: Covers(carried.damage, x, y) ==> Covers(e'.damage, x, y)
    ensures LosesNothing(e, Blit(carried, c, region, dst), None)
  {
    DstHas(region, c.dx, c.dy);
  }

  /** One scroll, on the blit path and every fallback path: for any delta, scroll
      rectangle, clip and pending damage, if the damage covered every stale pixel
      before, it covers every stale pixel of the scrolled page after, and
      nothing the host must still receive is forgotten. */
  lemma ScrollKeeps(e: Engine, c: ScrollCall)
    requires e.Valid() && e.Coherent()
    ensures ScrollBlit(e, c).Valid() && ScrollBlit(e, c).Coherent() && LosesNothing(e, ScrollBlit(e, c), None)
  {
    var region, dst := c.Region(e.Frame()), c.Dst(e.Frame());
    var e1 := e.(truth := Scrolled(e.truth, c.content, region, dst, c.dx, c.dy, e.w, e.h));
    DstHas(region, c.dx, c.dy);
    if region.Empty() {
      DamagedKeeps(e1, c.clip);
    } else if dst.Empty() || (e.frameDirty && SomeContains(e.damage, region)) {
      DamagedKeeps(e1, region);
    } else {
      assert e.Frame().Contains(region);
      BlitKeeps(e, c);
    }
  }
}
