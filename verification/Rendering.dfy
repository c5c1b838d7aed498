/** When bib_render reports a frame, what the frame shows, and how little it
    paints and reports. */
module Rendering {
  import opened Basics
  import opened Geometry
  import opened Damage
  import opened Merging
  import opened Framebuffer
  import opened Surface

  /** Something in the frame is damaged or to upload. */
  ghost predicate Visibly(e: Engine) { exists x, y :: e.InFrame(x, y) && e.Awaiting(x, y) }

  /** Something is, in the frame or not. */
  ghost predicate Anything(e: Engine) { exists x, y :: e.Awaiting(x, y) }

  /** The damage slots with a pixel in the frame. */
  ghost function SlotsIn(ds: seq<IntRect>, frame: IntRect): set<nat> {
    set i: nat | i < |ds| && exists x, y :: ds[i].Has(x, y) && frame.Has(x, y)
  }

  /** How many rectangles a render paints. */
  ghost function ToPaint(laid: Engine, force: bool): nat {
    if force then 1 else |SlotsIn(laid.damage, laid.Frame())|
  }

  ghost predicate Reports(e: Engine, force: bool, env: PaintEnv)
    requires e.Sized()
  {
    && (force || Anything(e)) && env.hasView
    && (force || Visibly(ApplyAll(e, env.layout)))
    && ToPaint(ApplyAll(e, env.layout), force) <= env.failAt
  }

  lemma AnythingIsTrigger(e: Engine)
    requires e.Valid()
    ensures Anything(e) <==> e.frameDirty || !e.upload.Empty()
  {
    if e.frameDirty {
      assert e.damage[0].Has(e.damage[0].x, e.damage[0].y);
      assert e.Awaiting(e.damage[0].x, e.damage[0].y);
    }
    if !e.upload.Empty() {
      assert e.upload.Has(e.upload.x, e.upload.y);
      assert e.Awaiting(e.upload.x, e.upload.y);
    }
  }

  lemma SlotsInLess(ds: seq<IntRect>, frame: IntRect)
    requires ds != []
    ensures var last := ds[|ds| - 1];
            SlotsIn(ds, frame) == SlotsIn(ds[..|ds| - 1], frame) + if Intersection(last, frame).Empty() then {} else {|ds| - 1}
  {
    var last := ds[|ds| - 1];
    var v := Intersection(last, frame);
    if !v.Empty() {
      assert v.Has(v.x, v.y);
      assert last.Has(v.x, v.y) && frame.Has(v.x, v.y);
    }
    forall x, y | last.Has(x, y) && frame.Has(x, y) ensures !v.Empty() {
      assert v.Has(x, y);
    }
  }

  /** The snapshot has one rectangle for every slot with a pixel in the frame. */
  lemma {:induction false} VisibleCount(ds: seq<IntRect>, frame: IntRect)
    ensures |Visible(ds, frame)| == |SlotsIn(ds, frame)|
    decreases |ds|
  {
    if ds == [] {
      assert SlotsIn(ds, frame) == {};
    } else {
      VisibleCount(ds[..|ds| - 1], frame);
      SlotsInLess(ds, frame);
    }
  }

  lemma SnapshotWhenVisible(laid: Engine, force: bool)
    requires laid.Valid()
    ensures DirtySnapshot(laid, force) != [] || !UploadSnapshot(laid, force).Empty() <==> force || Visibly(laid)
  {
    var dirty, upload := DirtySnapshot(laid, force), UploadSnapshot(laid, force);
    if !force {
      if dirty != [] {
        var d := dirty[0];
        assert d.Has(d.x, d.y);
        assert Covers(dirty, d.x, d.y);
        VisibleCovers(laid.damage, laid.Frame(), d.x, d.y);
        assert laid.InFrame(d.x, d.y) && laid.Awaiting(d.x, d.y);
      }
      if !upload.Empty() {
        assert upload.Has(upload.x, upload.y);
        assert laid.InFrame(upload.x, upload.y) && laid.Awaiting(upload.x, upload.y);
      }
      if Visibly(laid) {
        var x, y :| laid.InFrame(x, y) && laid.Awaiting(x, y);
        VisibleCovers(laid.damage, laid.Frame(), x, y);
      }
    }
  }

  lemma {:induction false} LoopReports(e: Engine, dirty: seq<IntRect>, i: nat, bounds: IntRect, upload: IntRect, env: PaintEnv)
    requires e.Sized() && i <= |dirty|
    ensures PaintLoop(e, dirty, i, bounds, upload, env).1.Some? <==> !(i <= env.failAt < |dirty|)
    decreases |dirty| - i
  {
    if i < |dirty| && i != env.failAt {
      LoopReports(PaintOne(e, dirty[i], env.During(i)), dirty, i + 1, Unite(bounds, dirty[i]), upload, env);
    }
  }

  /** bib_render with its layout done. */
  lemma RenderIs(e: Engine, force: bool, env: PaintEnv, laid: Engine)
    requires e.Valid() && (force || Anything(e)) && env.hasView && laid == ApplyAll(e, env.layout)
    ensures laid.Valid() && Grows(e, laid)
    ensures var dirty, upload := DirtySnapshot(laid, force), UploadSnapshot(laid, force);
            Render(e, force, env) ==
              if dirty == [] && upload.Empty() then (laid.Cleared(), None)
              else PaintLoop(laid.Cleared(), dirty, 0, EMPTY, upload, env)
  {
    AnythingIsTrigger(e);
    ApplyAllGrows(e, env.layout);
  }

  /** A frame is reported if and only if one is forced or something is owed to the
      host, there is a view, after layout a pixel of the frame is owed (or one is
      forced), and no paint fails of as many as there are slots in the frame. */
  lemma ReportsExactlyWhen(e: Engine, force: bool, env: PaintEnv)
    requires e.Valid()
    ensures Render(e, force, env).1.Some? <==> Reports(e, force, env)
  {
    AnythingIsTrigger(e);
    if (force || Anything(e)) && env.hasView {
      var laid := ApplyAll(e, env.layout);
      RenderIs(e, force, env, laid);
      SnapshotWhenVisible(laid, force);
      VisibleCount(laid.damage, laid.Frame());
      LoopReports(laid.Cleared(), DirtySnapshot(laid, force), 0, EMPTY, UploadSnapshot(laid, force), env);
    }
  }

  // ----- what a frame shows ---------------------------------------------------------

  /** Nothing is reported while painting. */
  ghost predicate Silent(env: PaintEnv) { forall i: nat :: env.During(i) == [] }

  lemma {:induction false} SilentLoop(e: Engine, dirty: seq<IntRect>, i: nat, bounds: IntRect, upload: IntRect, env: PaintEnv)
    requires e.Sized() && i <= |dirty| && Silent(env)
    ensures var (e', box) := PaintLoop(e, dirty, i, bounds, upload, env); box.Some? ==> e' == e.(fb := e'.fb)
    decreases |dirty| - i
  {
    if i < |dirty| && i != env.failAt {
      SilentLoop(PaintOne(e, dirty[i], env.During(i)), dirty, i + 1, Unite(bounds, dirty[i]), upload, env);
    }
  }

  /** A frame whose paints reported nothing shows the page as layout left it, at every
      pixel, and leaves nothing owed. */
  lemma FrameShowsThePage(e: Engine, force: bool, env: PaintEnv)
    requires e.Valid() && e.Coherent() && Reports(e, force, env) && Silent(env)
    ensures var e', laid := Render(e, force, env).0, ApplyAll(e, env.layout);
            e'.fb == laid.truth && e'.truth == laid.truth && !Anything(e')
  {
    var laid := ApplyAll(e, env.layout);
    var (e', box) := Render(e, force, env);
    ReportsExactlyWhen(e, force, env);
    RenderIs(e, force, env, laid);
    RenderKeeps(e, force, env);
    SilentLoop(laid.Cleared(), DirtySnapshot(laid, force), 0, EMPTY, UploadSnapshot(laid, force), env);
    assert e'.damage == [] && e'.upload == EMPTY;
    assert forall x, y :: !e'.Awaiting(x, y);
    SameImage(e'.fb, e'.truth, e'.w, e'.h);
  }

  // ----- how little is painted and reported --------------------------------------------

  lemma {:induction false} LoopPaintsOnly(e: Engine, dirty: seq<IntRect>, i: nat, bounds: IntRect, upload: IntRect,
                                          env: PaintEnv, x: int, y: int)
    requires e.Sized() && i <= |dirty| && e.InFrame(x, y) && !Covers(dirty, x, y)
    ensures PaintLoop(e, dirty, i, bounds, upload, env).0.fb[y][x] == e.fb[y][x]
    decreases |dirty| - i
  {
    if i < |dirty| && i != env.failAt {
      assert !dirty[i].Has(x, y);
      LoopPaintsOnly(PaintOne(e, dirty[i], env.During(i)), dirty, i + 1, Unite(bounds, dirty[i]), upload, env, x, y);
    }
  }

  /** Only damaged pixels are painted: unless forced, a pixel not damaged after layout
      keeps its value, whatever happens. */
  lemma OnlyDamageIsPainted(e: Engine, env: PaintEnv, x: int, y: int)
    requires e.Valid() && e.InFrame(x, y) && !Covers(ApplyAll(e, env.layout).damage, x, y)
    ensures Render(e, false, env).0.fb[y][x] == e.fb[y][x]
  {
    if Anything(e) && env.hasView {
      var laid := ApplyAll(e, env.layout);
      RenderIs(e, false, env, laid);
      VisibleCovers(laid.damage, laid.Frame(), x, y);
      LoopPaintsOnly(laid.Cleared(), DirtySnapshot(laid, false), 0, EMPTY, UploadSnapshot(laid, false), env, x, y);
    } else {
      AnythingIsTrigger(e);
    }
  }

  lemma ContainsByPixels(r: IntRect, d: IntRect)
    requires !d.Empty() && forall x, y :: d.Has(x, y) ==> r.Has(x, y)
    ensures r.Contains(d)
  {
    assert d.Has(d.x, d.y) && d.Has(d.x + d.w - 1, d.y + d.h - 1);
  }

  lemma {:induction false} LoopBoxWithin(e: Engine, dirty: seq<IntRect>, i: nat, bounds: IntRect, upload: IntRect,
                                         env: PaintEnv, r: IntRect)
    requires e.Sized() && i <= |dirty| && (bounds.Empty() || r.Contains(bounds)) && (upload.Empty() || r.Contains(upload))
    requires forall k :: 0 <= k < |dirty| ==> !dirty[k].Empty() && r.Contains(dirty[k])
    ensures var box := PaintLoop(e, dirty, i, bounds, upload, env).1;
            box.Some? ==> box.value.Empty() || r.Contains(box.value)
    decreases |dirty| - i
  {
    if i == |dirty| {
      if !bounds.Empty() && !upload.Empty() { UniteIsLeast(bounds, upload, r); }
    } else if i != env.failAt {
      if !bounds.Empty() { UniteIsLeast(bounds, dirty[i], r); }
      LoopBoxWithin(PaintOne(e, dirty[i], env.During(i)), dirty, i + 1, Unite(bounds, dirty[i]), upload, env, r);
    }
  }

  lemma SnapshotWithin(laid: Engine, r: IntRect)
    requires forall x, y :: laid.InFrame(x, y) && laid.Awaiting(x, y) ==> r.Has(x, y)
    ensures forall k :: 0 <= k < |DirtySnapshot(laid, false)| ==> r.Contains(DirtySnapshot(laid, false)[k])
    ensures UploadSnapshot(laid, false).Empty() || r.Contains(UploadSnapshot(laid, false))
  {
    var dirty, upload := DirtySnapshot(laid, false), UploadSnapshot(laid, false);
    forall k | 0 <= k < |dirty| ensures r.Contains(dirty[k]) {
      forall x, y | dirty[k].Has(x, y) ensures r.Has(x, y) {
        assert Covers(dirty, x, y);
        VisibleCovers(laid.damage, laid.Frame(), x, y);
        assert laid.InFrame(x, y) && laid.Awaiting(x, y);
      }
      ContainsByPixels(r, dirty[k]);
    }
    if !upload.Empty() {
      forall x, y | upload.Has(x, y) ensures r.Has(x, y) {
        assert laid.InFrame(x, y) && laid.Awaiting(x, y);
      }
      ContainsByPixels(r, upload);
    }
  }

  /** The reported box is the least there is: any rectangle with all of the frame that
      is owed after layout contains it. */
  lemma BoxIsLeast(e: Engine, env: PaintEnv, r: IntRect)
    requires e.Valid() && e.Coherent() && Render(e, false, env).1.Some?
    requires var laid := ApplyAll(e, env.layout); forall x, y :: laid.InFrame(x, y) && laid.Awaiting(x, y) ==> r.Has(x, y)
    ensures r.Contains(Render(e, false, env).1.value)
  {
    var laid := ApplyAll(e, env.layout);
    ReportsExactlyWhen(e, false, env);
    RenderIs(e, false, env, laid);
    RenderKeeps(e, false, env);
    SnapshotWithin(laid, r);
    LoopBoxWithin(laid.Cleared(), DirtySnapshot(laid, false), 0, EMPTY, UploadSnapshot(laid, false), env, r);
  }

  // ----- what a failed render owes -------------------------------------------------

  lemma {:induction false} LoopOwesWithin(e: Engine, dirty: seq<IntRect>, i: nat, bounds: IntRect, upload: IntRect,
                                          env: PaintEnv, r: IntRect)
    requires e.Sized() && i <= |dirty| && Silent(env) && e.damage == [] && e.upload == EMPTY
    requires (bounds.Empty() || r.Contains(bounds)) && (upload.Empty() || r.Contains(upload)) && Within(dirty, r)
    ensures var e' := PaintLoop(e, dirty, i, bounds, upload, env).0;
            Within(e'.damage, r) && (e'.upload.Empty() || r.Contains(e'.upload))
    decreases |dirty| - i
  {
    if i < |dirty| {
      if i == env.failAt {
        AddAllWithin([], dirty[i..], r);
        UniteWithin(Unite(EMPTY, upload), bounds, r);
      } else {
        if !bounds.Empty() { UniteIsLeast(bounds, dirty[i], r); }
        LoopOwesWithin(PaintOne(e, dirty[i], env.During(i)), dirty, i + 1, Unite(bounds, dirty[i]), upload, env, r);
      }
    }
  }

  lemma UniteWithin(a: IntRect, b: IntRect, r: IntRect)
    requires (a.Empty() || r.Contains(a)) && (b.Empty() || r.Contains(b))
    ensures Unite(a, b).Empty() || r.Contains(Unite(a, b))
  {
    if !a.Empty() && !b.Empty() { UniteIsLeast(a, b, r); }
  }

  /** A render that is let through to its paints owes no more afterwards than before,
      up to a bounding box: failing part-way never widens the damage. */
  lemma NothingIsWidened(e: Engine, env: PaintEnv, r: IntRect)
    requires e.Valid() && Silent(env) && env.hasView && Anything(e)
    requires var laid := ApplyAll(e, env.layout); forall x, y :: laid.InFrame(x, y) && laid.Awaiting(x, y) ==> r.Has(x, y)
    ensures var e' := Render(e, false, env).0; Within(e'.damage, r) && (e'.upload.Empty() || r.Contains(e'.upload))
  {
    var laid := ApplyAll(e, env.layout);
    RenderIs(e, false, env, laid);
    SnapshotWithin(laid, r);
    LoopOwesWithin(laid.Cleared(), DirtySnapshot(laid, false), 0, EMPTY, UploadSnapshot(laid, false), env, r);
  }

  // ----- what a report adds ----------------------------------------------------------

  /** A callback adds its own rectangle and nothing else.  A repaint changes the page
      inside its rectangle, to the content given, and is one more damage rectangle: a
      slot of its own when it is too far from the others to merge and there is room,
      and never beyond a box that holds it and them.  A present only grows the upload
      rectangle. */
  lemma {:induction false} ReportsAddOnlyTheirOwn(e: Engine, r: Report, box: IntRect)
    requires e.Valid() && Within(e.damage, box) && (r.rect.Empty() || box.Contains(r.rect))
    ensures var e' := Apply(e, r);
            && e'.fb == e.fb
            && (r.Present? ==> e' == e.(upload := Unite(e.upload, r.rect)))
            && (r.Repaint? ==>
                  && e'.upload == e.upload && Within(e'.damage, box)
                  && (|e.damage| < MAX_DAMAGE_RECTS && Separated(e.damage + [r.rect]) && !r.rect.Empty() ==>
                        e'.damage == e.damage + [r.rect])
                  && forall x, y :: e.InFrame(x, y) ==>
                       e'.truth[y][x] == if r.rect.Has(x, y) then Sample(r.content, x, y) else e.truth[y][x])
  {
    if r.Repaint? {
      assert AddAll(e.damage, [r.rect]) == AddDamage(e.damage, r.rect) by { assert [r.rect][..0] == []; }
      AddAllWithin(e.damage, [r.rect], box);
      if |e.damage| < MAX_DAMAGE_RECTS && Separated(e.damage + [r.rect]) && !r.rect.Empty() {
        ApartStaysApart(e.damage, [r.rect]);
      }
    }
  }
}
