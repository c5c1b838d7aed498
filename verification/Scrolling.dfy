/** When a scroll moves pixels, what it moves, and how little it leaves to paint. */
module Scrolling {
  import opened Basics
  import opened Geometry
  import opened Damage
  import opened Merging
  import opened Framebuffer
  import opened Surface

  /** The call scrolls the pixel: it is in the rectangle, the clip and the frame. */
  predicate Scrolls(e: Engine, c: ScrollCall, x: int, y: int) {
    c.rectToScroll.Has(x, y) && c.clip.Has(x, y) && e.InFrame(x, y)
  }

  /** The pixel is scrolled, and so is the one whose content it gets. */
  predicate Reuses(e: Engine, c: ScrollCall, x: int, y: int) {
    Scrolls(e, c, x, y) && Scrolls(e, c, x - c.dx, y - c.dy)
  }

  /** One pending slot covers all that is scrolled. */
  ghost predicate OneSlotCovers(e: Engine, c: ScrollCall) {
    exists i :: 0 <= i < |e.damage| && SlotCovers(e, c, e.damage[i])
  }

  ghost predicate SlotCovers(e: Engine, c: ScrollCall, r: IntRect) {
    forall x, y :: Scrolls(e, c, x, y) ==> r.Has(x, y)
  }

  ghost predicate Blits(e: Engine, c: ScrollCall) {
    (exists x, y :: Reuses(e, c, x, y)) && !OneSlotCovers(e, c) && c.wrapped
  }

  lemma RegionHas(e: Engine, c: ScrollCall)
    ensures forall x, y :: c.Region(e.Frame()).Has(x, y) <==> Scrolls(e, c, x, y)
    ensures forall x, y :: c.Dst(e.Frame()).Has(x, y) <==> Reuses(e, c, x, y)
  {
    var region := c.Region(e.Frame());
    forall x, y ensures region.Has(x, y) <==> Scrolls(e, c, x, y) {
      assert e.Frame().Has(x, y) <==> e.InFrame(x, y);
      assert Intersection(c.rectToScroll, c.clip).Has(x, y) <==> c.rectToScroll.Has(x, y) && c.clip.Has(x, y);
    }
    DstHas(region, c.dx, c.dy);
  }

  lemma ContainsIsCovers(e: Engine, c: ScrollCall, r: IntRect)
    requires !c.Region(e.Frame()).Empty()
    ensures r.Contains(c.Region(e.Frame())) <==> SlotCovers(e, c, r)
  {
    var region := c.Region(e.Frame());
    RegionHas(e, c);
    if SlotCovers(e, c, r) {
      assert Scrolls(e, c, region.x, region.y) by { assert region.Has(region.x, region.y); }
      assert Scrolls(e, c, region.x + region.w - 1, region.y + region.h - 1) by {
        assert region.Has(region.x + region.w - 1, region.y + region.h - 1);
      }
    }
  }

  /** The tests of the code, in pixels. */
  lemma TestsApart(e: Engine, c: ScrollCall)
    requires e.Valid()
    ensures var region, dst := c.Region(e.Frame()), c.Dst(e.Frame());
            && (region.Empty() <==> forall x, y :: !Scrolls(e, c, x, y))
            && (dst.Empty() <==> forall x, y :: !Reuses(e, c, x, y))
            && (!region.Empty() ==> (OneSlotCovers(e, c) <==> e.frameDirty && SomeContains(e.damage, region)))
  {
    var region, dst := c.Region(e.Frame()), c.Dst(e.Frame());
    RegionHas(e, c);
    if !region.Empty() {
      assert region.Has(region.x, region.y);
      forall i | 0 <= i < |e.damage| ensures e.damage[i].Contains(region) <==> SlotCovers(e, c, e.damage[i]) {
        ContainsIsCovers(e, c, e.damage[i]);
      }
    }
    if !dst.Empty() { assert dst.Has(dst.x, dst.y); }
  }

  lemma TestsDecide(e: Engine, c: ScrollCall)
    requires e.Valid()
    ensures var region, dst := c.Region(e.Frame()), c.Dst(e.Frame());
            Blits(e, c) <==> !region.Empty() && !dst.Empty() && !(e.frameDirty && SomeContains(e.damage, region)) && c.wrapped
  {
    TestsApart(e, c);
  }

  /** fb' is fb with the reused pixels moved. */
  ghost predicate MovedPixels(e: Engine, c: ScrollCall, fb: Image, fb': Image)
    requires IsImage(fb, e.w, e.h) && IsImage(fb', e.w, e.h)
  {
    && (forall x, y :: Reuses(e, c, x, y) ==> fb'[y][x] == At(fb, x - c.dx, y - c.dy))
    && (forall x, y :: e.InFrame(x, y) && !Reuses(e, c, x, y) ==> fb'[y][x] == fb[y][x])
  }

  /** The blit moves every pixel it can reuse and no other, and leaves the whole
      scrolled region to be uploaded. */
  ghost predicate Moved(e: Engine, c: ScrollCall, e': Engine)
    requires e.Sized() && e'.Sized() && e'.w == e.w && e'.h == e.h
  {
    MovedPixels(e, c, e.fb, e'.fb) && e'.upload == Unite(e.upload, c.Region(e.Frame()))
  }

  lemma FallsBack(e1: Engine, c: ScrollCall, region: IntRect, dst: IntRect)
    requires e1.Valid() && !region.Empty() && region == c.Region(e1.Frame()) && dst == c.Dst(e1.Frame())
    requires dst.Empty() || (e1.frameDirty && SomeContains(e1.damage, region)) || !c.wrapped
    ensures var e' := ScrollIn(e1, c, region, dst);
            && e'.fb == e1.fb && e'.upload == e1.upload
            && (forall x, y :: region.Has(x, y) ==> Covers(e'.damage, x, y))
            && (dst.Empty() || (e1.frameDirty && SomeContains(e1.damage, region)) ==> e'.damage == AddDamage(e1.damage, region))
  {
    if dst.Empty() || (e1.frameDirty && SomeContains(e1.damage, region)) {
      DamagedKeeps(e1, region);
    } else {
      CarryKeeps(e1, region, dst, c.dx, c.dy);
      DamagedKeeps(Carry(e1, region, dst, c.dx, c.dy), e1.Frame());
    }
  }

  /** e' is e after the blit of region onto dst. */
  ghost predicate IsBlit(e: Engine, c: ScrollCall, region: IntRect, dst: IntRect, e': Engine) {
    && e.Sized() && e'.Sized() && e'.w == e.w && e'.h == e.h && e.Frame().Contains(dst.Moved(-c.dx, -c.dy))
    && e'.fb == Shifted(e.fb, dst, c.dx, c.dy, e.w, e.h)
    && e'.truth == Scrolled(e.truth, c.content, region, dst, c.dx, c.dy, e.w, e.h)
    && e'.upload == Unite(e.upload, region)
    && e'.damage == AddAll(AddAll([], CarriedAll(e.damage, region, dst, c.dx, c.dy)), Exposed(region, c.dx, c.dy))
  }

  lemma BlitIs(e: Engine, c: ScrollCall, region: IntRect, dst: IntRect)
    requires e.Valid() && region == c.Region(e.Frame()) && dst == c.Dst(e.Frame())
    requires !region.Empty() && !dst.Empty() && !(e.frameDirty && SomeContains(e.damage, region))
    ensures ScrollBlit(e, c) == Blit(CarriedOver(e, c), c, region, dst)
  {
  }

  lemma CarriedIs(e: Engine, c: ScrollCall, region: IntRect, dst: IntRect, carried: Engine)
    requires e.Valid() && region == c.Region(e.Frame()) && dst == c.Dst(e.Frame()) && carried == CarriedOver(e, c)
    ensures carried.damage == AddAll([], CarriedAll(e.damage, region, dst, c.dx, c.dy))
    ensures carried.truth == Scrolled(e.truth, c.content, region, dst, c.dx, c.dy, e.w, e.h)
  {
  }

  lemma BlitEffect(e: Engine, c: ScrollCall, region: IntRect, dst: IntRect, carried: Engine)
    requires e.Sized() && carried.Sized() && c.wrapped && e.Frame().Contains(dst.Moved(-c.dx, -c.dy))
    requires carried.fb == e.fb && carried.w == e.w && carried.h == e.h && carried.upload == e.upload
    requires carried.damage == AddAll([], CarriedAll(e.damage, region, dst, c.dx, c.dy))
    requires carried.truth == Scrolled(e.truth, c.content, region, dst, c.dx, c.dy, e.w, e.h)
    ensures IsBlit(e, c, region, dst, Blit(carried, c, region, dst))
  {
  }

  lemma BlitSource(e: Engine, c: ScrollCall)
    ensures !c.Dst(e.Frame()).Empty() ==> e.Frame().Contains(c.Dst(e.Frame()).Moved(-c.dx, -c.dy))
  {
  }

  lemma BlitParts(e: Engine, c: ScrollCall, region: IntRect, dst: IntRect)
    requires e.Valid() && Blits(e, c) && region == c.Region(e.Frame()) && dst == c.Dst(e.Frame())
    ensures IsBlit(e, c, region, dst, ScrollBlit(e, c))
  {
    TestsDecide(e, c);
    BlitParted(e, c, region, dst);
  }

  lemma BlitParted(e: Engine, c: ScrollCall, region: IntRect, dst: IntRect)
    requires e.Valid() && region == c.Region(e.Frame()) && dst == c.Dst(e.Frame()) && c.wrapped
    requires !region.Empty() && !dst.Empty() && !(e.frameDirty && SomeContains(e.damage, region))
    ensures IsBlit(e, c, region, dst, ScrollBlit(e, c))
  {
    BlitIs(e, c, region, dst);
    BlitSource(e, c);
    CarriedIs(e, c, region, dst, CarriedOver(e, c));
    BlitEffect(e, c, region, dst, CarriedOver(e, c));
  }

  lemma BlitMoves(e: Engine, c: ScrollCall, dst: IntRect, fb: Image, fb': Image)
    requires IsImage(fb, e.w, e.h) && FrameRect(e.w, e.h).Contains(dst.Moved(-c.dx, -c.dy))
    requires fb' == Shifted(fb, dst, c.dx, c.dy, e.w, e.h)
    requires forall x, y :: dst.Has(x, y) <==> Reuses(e, c, x, y)
    ensures MovedPixels(e, c, fb, fb')
  {
    forall x, y | Reuses(e, c, x, y) ensures fb'[y][x] == At(fb, x - c.dx, y - c.dy) {
      assert dst.Has(x, y);
    }
    forall x, y | e.InFrame(x, y) && !Reuses(e, c, x, y) ensures fb'[y][x] == fb[y][x] {
      assert !dst.Has(x, y);
    }
  }

  /** No pixel moves and none is uploaded.  What is scrolled is damaged, by one report of
      the region, or of the clip when nothing is in the region; only a surface that is
      not the framebuffer costs more. */
  ghost predicate Repaints(e: Engine, c: ScrollCall, e': Engine) {
    && e'.fb == e.fb && e'.upload == e.upload
    && (forall x, y :: Scrolls(e, c, x, y) ==> Covers(e'.damage, x, y))
    && ((forall x, y :: !Scrolls(e, c, x, y)) ==> e'.damage == AddDamage(e.damage, c.clip))
    && ((exists x, y :: Scrolls(e, c, x, y)) && ((forall x, y :: !Reuses(e, c, x, y)) || OneSlotCovers(e, c)) ==>
          e'.damage == AddDamage(e.damage, c.Region(e.Frame())))
  }

  lemma RepaintsIs(e: Engine, c: ScrollCall)
    requires e.Valid() && !Blits(e, c)
    ensures Repaints(e, c, ScrollBlit(e, c))
  {
    var region, dst := c.Region(e.Frame()), c.Dst(e.Frame());
    var e1 := e.(truth := Scrolled(e.truth, c.content, region, dst, c.dx, c.dy, e.w, e.h));
    TestsDecide(e, c);
    TestsApart(e, c);
    if !region.Empty() { FallsBack(e1, c, region, dst); }
  }

  /** A scroll moves pixels exactly when it can: some pixel can be reused, no single
      pending slot covers all that is scrolled, and the surface is the framebuffer.
      Otherwise it moves none and uploads none, and what is scrolled is to be repainted. */
  lemma BlitsExactlyWhen(e: Engine, c: ScrollCall)
    requires e.Valid()
    ensures var e' := ScrollBlit(e, c);
            && (Blits(e, c) ==> Moved(e, c, e'))
            && (!Blits(e, c) ==> Repaints(e, c, e'))
  {
    if Blits(e, c) {
      var region, dst := c.Region(e.Frame()), c.Dst(e.Frame());
      RegionHas(e, c);
      BlitParts(e, c, region, dst);
      BlitMoves(e, c, dst, e.fb, ScrollBlit(e, c).fb);
    } else {
      RepaintsIs(e, c);
    }
  }

  lemma RegionHasAt(e: Engine, c: ScrollCall, x: int, y: int)
    ensures c.Region(e.Frame()).Has(x, y) <==> Scrolls(e, c, x, y)
    ensures c.Dst(e.Frame()).Has(x, y) <==> Reuses(e, c, x, y)
  {
    RegionHas(e, c);
  }

  /** What a blit moves is right at once: with the damage covering every stale pixel
      before, a reused pixel whose source was not damaged shows the scrolled page. */
  lemma ReusedIsRight(e: Engine, c: ScrollCall, x: int, y: int)
    requires e.Valid() && e.Coherent() && Blits(e, c) && Reuses(e, c, x, y) && !Covers(e.damage, x - c.dx, y - c.dy)
    ensures ScrollBlit(e, c).fb[y][x] == ScrollBlit(e, c).truth[y][x]
  {
    var region, dst := c.Region(e.Frame()), c.Dst(e.Frame());
    RegionHasAt(e, c, x, y);
    assert e.fb[y - c.dy][x - c.dx] == e.truth[y - c.dy][x - c.dx] by {
      assert e.InFrame(x - c.dx, y - c.dy);
    }
    BlitParts(e, c, region, dst);
    BlitTruth(e, c, region, dst, ScrollBlit(e, c), x, y);
  }

  lemma BlitTruth(e: Engine, c: ScrollCall, region: IntRect, dst: IntRect, e': Engine, x: int, y: int)
    requires IsBlit(e, c, region, dst, e') && dst.Has(x, y) && e.InFrame(x, y) && e.InFrame(x - c.dx, y - c.dy)
    requires e.fb[y - c.dy][x - c.dx] == e.truth[y - c.dy][x - c.dx]
    ensures e'.fb[y][x] == e'.truth[y][x]
  {
    MovedTruth(e.fb, e.truth, e'.fb, e'.truth, c.content, region, dst, c.dx, c.dy, e.w, e.h, x, y);
  }

  lemma MovedTruth(fb: Image, truth: Image, fb': Image, truth': Image, content: (int, int) -> Pixel,
                   region: IntRect, dst: IntRect, dx: int, dy: int, w: nat, h: nat, x: int, y: int)
    requires IsImage(fb, w, h) && IsImage(truth, w, h) && FrameRect(w, h).Contains(dst.Moved(-dx, -dy))
    requires fb' == Shifted(fb, dst, dx, dy, w, h) && truth' == Scrolled(truth, content, region, dst, dx, dy, w, h)
    requires dst.Has(x, y) && 0 <= x < w && 0 <= y < h && 0 <= x - dx < w && 0 <= y - dy < h
    requires fb[y - dy][x - dx] == truth[y - dy][x - dx]
    ensures fb'[y][x] == truth'[y][x]
  {
  }

  // ----- what is left to paint ------------------------------------------------------

  /** A slot that is not wholly inside the region covers the pixel: such slots stay. */
  ghost predicate CoveredByStaying(ds: seq<IntRect>, region: IntRect, x: int, y: int) {
    exists i :: 0 <= i < |ds| && ds[i].Has(x, y) && !region.Contains(ds[i])
  }

  lemma {:induction false} CarriedAllOnly(ds: seq<IntRect>, region: IntRect, dst: IntRect, dx: int, dy: int, x: int, y: int)
    requires Covers(CarriedAll(ds, region, dst, dx, dy), x, y)
    ensures CoveredByStaying(ds, region, x, y) || (dst.Has(x, y) && region.Has(x - dx, y - dy) && Covers(ds, x - dx, y - dy))
    decreases |ds|
  {
    if ds != [] {
      var most, last := ds[..|ds| - 1], ds[|ds| - 1];
      var front, back := CarriedAll(most, region, dst, dx, dy), Carried(last, region, dst, dx, dy);
      CoversBoth(front, back, x, y);
      CoversLast(ds, x - dx, y - dy);
      if Covers(front, x, y) {
        CarriedAllOnly(most, region, dst, dx, dy, x, y);
        if CoveredByStaying(most, region, x, y) {
          var i :| 0 <= i < |most| && most[i].Has(x, y) && !region.Contains(most[i]);
          assert ds[i] == most[i];
        }
      } else {
        CarriedOnly(last, region, dst, dx, dy, x, y);
        assert ds[|ds| - 1] == last;
      }
    }
  }

  lemma CarriedOnly(r: IntRect, region: IntRect, dst: IntRect, dx: int, dy: int, x: int, y: int)
    requires Covers(Carried(r, region, dst, dx, dy), x, y)
    ensures (r.Has(x, y) && !region.Contains(r)) || (dst.Has(x, y) && region.Has(x - dx, y - dy) && r.Has(x - dx, y - dy))
  {
    var moving := Intersection(r, region);
    var moved := Intersection(moving.Moved(dx, dy), dst);
    if r.Has(x, y) && region.Contains(r) {
      assert region.Has(x, y) && moving.Has(x, y);
    }
    if !moving.Empty() && !(r.Has(x, y) && !region.Contains(r)) {
      assert moved.Has(x, y);
      assert moving.Has(x - dx, y - dy);
    }
  }

  /** The exposed bands are exactly what of the region the shift does not rewrite. */
  lemma ExposedIsExact(region: IntRect, dx: int, dy: int, px: int, py: int, x: int, y: int)
    requires region.Has(px, py) && region.Has(px - dx, py - dy)
    ensures Covers(Exposed(region, dx, dy), x, y) <==> region.Has(x, y) && !region.Has(x - dx, y - dy)
  {
    if region.Has(x, y) && !region.Has(x - dx, y - dy) {
      ExposedCovers(region, dx, dy, x, y);
    }
  }

  lemma ExposedWithin(region: IntRect, dx: int, dy: int, px: int, py: int)
    requires region.Has(px, py) && region.Has(px - dx, py - dy)
    ensures Within(Exposed(region, dx, dy), region) && |Exposed(region, dx, dy)| <= 2
    ensures dx == 0 || dy == 0 ==> |Exposed(region, dx, dy)| <= 1
  {
  }

  lemma {:induction false} ExposedAlone(region: IntRect, dx: int, dy: int, px: int, py: int, x: int, y: int)
    requires region.Has(px, py) && region.Has(px - dx, py - dy) && Covers(AddAll([], Exposed(region, dx, dy)), x, y)
    ensures region.Has(x, y)
  {
    ExposedWithin(region, dx, dy, px, py);
    AddAllWithin([], Exposed(region, dx, dy), region);
    WithinCovers(AddAll([], Exposed(region, dx, dy)), region, x, y);
  }

  lemma WithinCovers(ds: seq<IntRect>, r: IntRect, x: int, y: int)
    requires Within(ds, r) && Covers(ds, x, y)
    ensures r.Has(x, y)
  {
    var k :| 0 <= k < |ds| && ds[k].Has(x, y);
  }

  lemma BlitDamage(e: Engine, c: ScrollCall, region: IntRect, dst: IntRect)
    requires e.Valid() && Blits(e, c) && region == c.Region(e.Frame()) && dst == c.Dst(e.Frame())
    ensures ScrollBlit(e, c).damage ==
            AddAll(AddAll([], CarriedAll(e.damage, region, dst, c.dx, c.dy)), Exposed(region, c.dx, c.dy))
  {
    BlitParts(e, c, region, dst);
  }

  lemma SomeReused(e: Engine, c: ScrollCall, region: IntRect) returns (px: int, py: int)
    requires Blits(e, c) && region == c.Region(e.Frame())
    ensures region.Has(px, py) && region.Has(px - c.dx, py - c.dy)
  {
    px, py :| Reuses(e, c, px, py);
    RegionHas(e, c);
  }

  /** With nothing pending, a blit leaves only what it exposes to be painted: damage
      stays inside the scrolled region, and when one axis moves it is exactly the pixels
      that could not be reused. */
  lemma {:induction false} LeavesTheExposed(e: Engine, c: ScrollCall, x: int, y: int)
    requires e.Valid() && e.damage == [] && Blits(e, c)
    ensures Covers(ScrollBlit(e, c).damage, x, y) ==> Scrolls(e, c, x, y)
    ensures c.dx == 0 || c.dy == 0 ==>
              (Covers(ScrollBlit(e, c).damage, x, y) <==> Scrolls(e, c, x, y) && !Reuses(e, c, x, y))
  {
    var region := c.Region(e.Frame());
    RegionHasAt(e, c, x, y);
    RegionHasAt(e, c, x - c.dx, y - c.dy);
    LeavesExposedOf(e, c, region, x, y);
  }

  lemma {:induction false} LeavesExposedOf(e: Engine, c: ScrollCall, region: IntRect, x: int, y: int)
    requires e.Valid() && e.damage == [] && Blits(e, c) && region == c.Region(e.Frame())
    ensures OnlyExposed(ScrollBlit(e, c).damage, region, c.dx, c.dy, x, y)
  {
    var px, py := SomeReused(e, c, region);
    CleanBlitDamage(e, c, region);
    ExposedPixels(ScrollBlit(e, c).damage, region, c.dx, c.dy, px, py, x, y);
  }

  ghost predicate OnlyExposed(ds: seq<IntRect>, region: IntRect, dx: int, dy: int, x: int, y: int) {
    && (Covers(ds, x, y) ==> region.Has(x, y))
    && (dx == 0 || dy == 0 ==> (Covers(ds, x, y) <==> region.Has(x, y) && !region.Has(x - dx, y - dy)))
  }

  lemma {:induction false} CleanBlitDamage(e: Engine, c: ScrollCall, region: IntRect)
    requires e.Valid() && e.damage == [] && Blits(e, c) && region == c.Region(e.Frame())
    ensures ScrollBlit(e, c).damage == AddAll([], Exposed(region, c.dx, c.dy))
  {
    BlitDamage(e, c, region, c.Dst(e.Frame()));
    assert CarriedAll([], region, c.Dst(e.Frame()), c.dx, c.dy) == [];
  }

  lemma {:induction false} ExposedPixels(ds: seq<IntRect>, region: IntRect, dx: int, dy: int, px: int, py: int, x: int, y: int)
    requires region.Has(px, py) && region.Has(px - dx, py - dy) && ds == AddAll([], Exposed(region, dx, dy))
    ensures OnlyExposed(ds, region, dx, dy, x, y)
  {
    if Covers(AddAll([], Exposed(region, dx, dy)), x, y) { ExposedAlone(region, dx, dy, px, py, x, y); }
    if dx == 0 || dy == 0 {
      ExposedOneAxis(region, dx, dy, px, py);
      ExposedIsExact(region, dx, dy, px, py, x, y);
    }
  }

  lemma {:induction false} ExposedOneAxis(region: IntRect, dx: int, dy: int, px: int, py: int)
    requires region.Has(px, py) && region.Has(px - dx, py - dy) && (dx == 0 || dy == 0)
    ensures AddAll([], Exposed(region, dx, dy)) == Exposed(region, dx, dy)
  {
    var exposed := Exposed(region, dx, dy);
    ExposedWithin(region, dx, dy, px, py);
    assert [] + exposed == exposed;
    ApartStaysApart([], exposed);
  }

  /** The pending slots carried along and the exposed bands are too far apart to merge. */
  ghost predicate FarApart(ds: seq<IntRect>, region: IntRect, dst: IntRect, dx: int, dy: int) {
    var left := CarriedAll(ds, region, dst, dx, dy) + Exposed(region, dx, dy);
    |left| <= MAX_DAMAGE_RECTS && Separated(left)
  }

  /** A pixel was to be painted before, by a slot that stays; or takes the content of one
      that was; or cannot be reused. */
  ghost predicate Explained(ds: seq<IntRect>, region: IntRect, dst: IntRect, dx: int, dy: int, x: int, y: int) {
    || CoveredByStaying(ds, region, x, y)
    || (dst.Has(x, y) && Covers(ds, x - dx, y - dy))
    || (region.Has(x, y) && !region.Has(x - dx, y - dy))
  }

  /** With damage pending, a blit leaves the pending slots carried along and the exposed
      bands.  When those are too far apart to merge, every pixel to be painted is
      explained by one or the other. */
  lemma {:induction false} CarriesAndExposes(e: Engine, c: ScrollCall, region: IntRect, dst: IntRect, x: int, y: int)
    requires e.Valid() && Blits(e, c) && region == c.Region(e.Frame()) && dst == c.Dst(e.Frame())
    requires FarApart(e.damage, region, dst, c.dx, c.dy) && Covers(ScrollBlit(e, c).damage, x, y)
    ensures Explained(e.damage, region, dst, c.dx, c.dy, x, y)
  {
    var px, py := SomeReused(e, c, region);
    BlitDamage(e, c, region, dst);
    CarriedNonEmpty(e.damage, region, dst, c.dx, c.dy);
    ApartDamage(e.damage, region, dst, c.dx, c.dy, px, py, x, y);
  }

  lemma {:induction false} ApartDamage(ds: seq<IntRect>, region: IntRect, dst: IntRect, dx: int, dy: int,
                                       px: int, py: int, x: int, y: int)
    requires region.Has(px, py) && region.Has(px - dx, py - dy) && FarApart(ds, region, dst, dx, dy)
    requires forall k :: 0 <= k < |CarriedAll(ds, region, dst, dx, dy)| ==> !CarriedAll(ds, region, dst, dx, dy)[k].Empty()
    requires Covers(AddAll(AddAll([], CarriedAll(ds, region, dst, dx, dy)), Exposed(region, dx, dy)), x, y)
    ensures Explained(ds, region, dst, dx, dy, x, y)
  {
    var carried, exposed := CarriedAll(ds, region, dst, dx, dy), Exposed(region, dx, dy);
    ExposedWithin(region, dx, dy, px, py);
    BothStayApart(carried, exposed);
    CoversBoth(carried, exposed, x, y);
    if Covers(carried, x, y) {
      CarriedAllOnly(ds, region, dst, dx, dy, x, y);
    }
    ExposedIsExact(region, dx, dy, px, py, x, y);
  }

  lemma {:induction false} BothStayApart(carried: seq<IntRect>, exposed: seq<IntRect>)
    requires Separated(carried + exposed) && |carried + exposed| <= MAX_DAMAGE_RECTS
    requires forall k :: 0 <= k < |carried| ==> !carried[k].Empty()
    requires forall k :: 0 <= k < |exposed| ==> !exposed[k].Empty()
    ensures AddAll(AddAll([], carried), exposed) == carried + exposed
  {
    assert forall k :: 0 <= k < |carried| ==> carried[k] == (carried + exposed)[k];
    assert [] + carried == carried;
    ApartStaysApart([], carried);
    ApartStaysApart(carried, exposed);
  }

  lemma {:induction false} CarriedNonEmpty(ds: seq<IntRect>, region: IntRect, dst: IntRect, dx: int, dy: int)
    requires forall k :: 0 <= k < |ds| ==> !ds[k].Empty()
    ensures forall k :: 0 <= k < |CarriedAll(ds, region, dst, dx, dy)| ==> !CarriedAll(ds, region, dst, dx, dy)[k].Empty()
    decreases |ds|
  {
    if ds != [] {
      CarriedNonEmpty(ds[..|ds| - 1], region, dst, dx, dy);
    }
  }
}
