/** The arithmetic between logical and device pixels at any device pixel ratio,
    over the reals: the frame rectangle, the mapping of rectangles, and the
    snapping of scroll shifts to whole device pixels. */
module DeviceSpace {
  import opened Geometry

  function Ceil(r: real): (n: int)
    ensures n as real - 1.0 < r <= n as real
  {
    -((-r).Floor)
  }

  lemma RoundingMonotone(r: real, s: real)
    ensures r <= s ==> r.Floor <= s.Floor && Ceil(r) <= Ceil(s)
    ensures r < s ==> r.Floor < Ceil(s)
  {
    if r <= s {
      assert Ceil(r) as real - 1.0 < r <= s <= Ceil(s) as real;
      assert r.Floor as real <= r <= s < s.Floor as real + 1.0;
    }
    if r < s {
      assert r.Floor as real <= r < s <= Ceil(s) as real;
    }
  }

  /** lround: nearest integer, halves away from zero. */
  function LRound(r: real): (n: int)
    ensures -0.5 <= n as real - r <= 0.5
    ensures r >= 0.0 ==> n as real - r > -0.5 && n >= 0
  {
    if r >= 0.0 then (r + 0.5).Floor else -((-r + 0.5).Floor)
  }

  /** Device position of a logical edge. */
  function Scale(x: int, dpr: real): real { x as real * dpr }

  /** The logical size of a framebuffer side. */
  function LogicalSize(fb: nat, dpr: real): int
    requires dpr > 0.0
  {
    LRound(fb as real / dpr)
  }

  function LogicalFrame(fbW: nat, fbH: nat, dpr: real): IntRect
    requires dpr > 0.0
  {
    IntRect(0, 0, LogicalSize(fbW, dpr), LogicalSize(fbH, dpr))
  }

  /** bibDeviceRect: scale, enclose, clamp to the framebuffer. */
  function DeviceRect(r: IntRect, fbW: nat, fbH: nat, dpr: real): IntRect
    requires dpr > 0.0
  {
    Intersection(Enclosing(r, dpr), IntRect(0, 0, fbW, fbH))
  }

  function Enclosing(r: IntRect, dpr: real): IntRect {
    var l, t := Scale(r.x, dpr).Floor, Scale(r.y, dpr).Floor;
    IntRect(l, t, Ceil(Scale(r.x + r.w, dpr)) - l, Ceil(Scale(r.y + r.h, dpr)) - t)
  }

  /** The device image of the logical frame reaches the last column (or row). */
  predicate Reaches(fb: nat, dpr: real)
    requires dpr > 0.0
  {
    Ceil(Scale(LogicalSize(fb, dpr), dpr)) >= fb
  }

  lemma MulMonotone(a: real, b: real, dpr: real)
    requires dpr > 0.0
    ensures a <= b ==> a * dpr <= b * dpr
    ensures a < b ==> a * dpr < b * dpr
  {
  }

  /** The unrounded logical size. */
  lemma Unscale(fb: nat, dpr: real) returns (z: real)
    requires dpr > 0.0
    ensures z == fb as real / dpr && z * dpr == fb as real && z >= 0.0
  {
    z := fb as real / dpr;
    assert z * dpr == fb as real;
    MulMonotone(z, 0.0, dpr);
  }

  lemma HalfBelow(z: real, n: int, dpr: real)
    requires dpr > 0.0 && n as real > z - 0.5
    ensures Scale(n, dpr) > z * dpr - dpr / 2.0
  {
    var half := z - 0.5;
    MulMonotone(half, n as real, dpr);
    assert half * dpr == z * dpr - dpr / 2.0;
  }

  lemma CeilAbove(r: real, k: int, dpr: real)
    requires dpr <= 2.0 && r > k as real - dpr / 2.0
    ensures Ceil(r) >= k
  {
  }

  lemma ReachesBelowTwo(fb: nat, dpr: real)
    requires 0.0 < dpr <= 2.0
    ensures Reaches(fb, dpr)
  {
    var z := Unscale(fb, dpr);
    var n := LogicalSize(fb, dpr);
    HalfBelow(z, n, dpr);
    CeilAbove(Scale(n, dpr), fb, dpr);
  }

  /** A one-pixel framebuffer has an empty logical frame above ratio 2. */
  lemma OnePixelFails(dpr: real)
    requires dpr > 2.0
    ensures LogicalSize(1, dpr) == 0 && !Reaches(1, dpr)
  {
    var z := Unscale(1, dpr);
    MulMonotone(0.5, z, dpr);
    assert z < 0.5;
  }

  lemma WholeFrame(fbW: nat, fbH: nat, dpr: real)
    requires dpr > 0.0 && fbW > 0 && fbH > 0
    ensures DeviceRect(LogicalFrame(fbW, fbH, dpr), fbW, fbH, dpr) == IntRect(0, 0, fbW, fbH) <==>
            Reaches(fbW, dpr) && Reaches(fbH, dpr)
  {
    assert Scale(0, dpr) == 0.0;
  }

  /** Repainting the logical frame covers the whole framebuffer, for every size
      from 1 to 8192, exactly when the ratio is at most 2. */
  lemma FrameCoverage(dpr: real)
    requires 0.25 <= dpr <= 8.0
    ensures dpr <= 2.0 <==>
            forall fbW: nat, fbH: nat :: 1 <= fbW <= 8192 && 1 <= fbH <= 8192 ==>
              DeviceRect(LogicalFrame(fbW, fbH, dpr), fbW, fbH, dpr) == IntRect(0, 0, fbW, fbH)
  {
    if dpr <= 2.0 {
      forall fbW: nat, fbH: nat | 1 <= fbW <= 8192 && 1 <= fbH <= 8192
        ensures DeviceRect(LogicalFrame(fbW, fbH, dpr), fbW, fbH, dpr) == IntRect(0, 0, fbW, fbH)
      {
        WholeFrame(fbW, fbH, dpr);
        ReachesBelowTwo(fbW, dpr);
        ReachesBelowTwo(fbH, dpr);
      }
    } else {
      OnePixelFails(dpr);
      WholeFrame(1, 1, dpr);
    }
  }

  /** Seven columns at ratio 3: two logical pixels, one column left out. */
  lemma SevenAtThree()
    ensures LogicalSize(7, 3.0) == 2 && !Reaches(7, 3.0)
  {
  }

  lemma ScaleOrdered(x: int, x': int, dpr: real)
    requires dpr > 0.0
    ensures x <= x' ==> Scale(x, dpr) <= Scale(x', dpr)
    ensures x < x' ==> Scale(x, dpr) < Scale(x', dpr)
  {
    MulMonotone(x as real, x' as real, dpr);
  }

  lemma ScaleMonotone(x: int, x': int, dpr: real)
    requires dpr > 0.0
    ensures x <= x' ==> Scale(x, dpr).Floor <= Scale(x', dpr).Floor && Ceil(Scale(x, dpr)) <= Ceil(Scale(x', dpr))
    ensures x < x' ==> Scale(x, dpr).Floor < Ceil(Scale(x', dpr))
  {
    ScaleOrdered(x, x', dpr);
    var s, s' := Scale(x, dpr), Scale(x', dpr);
    RoundingMonotone(s, s');
  }

  lemma EnclosingMonotone(a: IntRect, b: IntRect, dpr: real)
    requires dpr > 0.0 && b.Contains(a)
    ensures Enclosing(b, dpr).Contains(Enclosing(a, dpr))
  {
    ScaleMonotone(b.x, a.x, dpr);
    ScaleMonotone(b.y, a.y, dpr);
    ScaleMonotone(a.x + a.w, b.x + b.w, dpr);
    ScaleMonotone(a.y + a.h, b.y + b.h, dpr);
  }

  lemma ClampMonotone(a: IntRect, b: IntRect, fb: IntRect)
    requires b.Contains(a) && !Intersection(a, fb).Empty()
    ensures Intersection(b, fb).Contains(Intersection(a, fb))
  {
  }

  /** A larger logical rectangle has a larger device image. */
  lemma DeviceMonotone(a: IntRect, b: IntRect, fbW: nat, fbH: nat, dpr: real)
    requires dpr > 0.0 && b.Contains(a) && !DeviceRect(a, fbW, fbH, dpr).Empty()
    ensures DeviceRect(b, fbW, fbH, dpr).Contains(DeviceRect(a, fbW, fbH, dpr))
  {
    EnclosingMonotone(a, b, dpr);
    ClampMonotone(Enclosing(a, dpr), Enclosing(b, dpr), IntRect(0, 0, fbW, fbH));
  }

  /** On one axis: an edge left of the logical end maps left of the device end. */
  lemma StartsInside(x: int, fb: nat, dpr: real)
    requires dpr > 0.0 && 0 <= x < LogicalSize(fb, dpr)
    ensures 0 <= Scale(x, dpr).Floor < fb
  {
    var z := Unscale(fb, dpr);
    MulMonotone(x as real, z, dpr);
    MulMonotone(0.0, x as real, dpr);
  }

  /** A non-empty rectangle inside the logical frame has a non-empty device image
      at every ratio, so the push never drops a rendered frame as empty. */
  lemma DeviceNonEmpty(r: IntRect, fbW: nat, fbH: nat, dpr: real)
    requires dpr > 0.0 && !r.Empty() && LogicalFrame(fbW, fbH, dpr).Contains(r)
    ensures !DeviceRect(r, fbW, fbH, dpr).Empty()
  {
    var d := Enclosing(r, dpr);
    assert 0 <= d.x < fbW && d.w > 0 by {
      StartsInside(r.x, fbW, dpr);
      ScaleMonotone(r.x, r.x + r.w, dpr);
    }
    assert 0 <= d.y < fbH && d.h > 0 by {
      StartsInside(r.y, fbH, dpr);
      ScaleMonotone(r.y, r.y + r.h, dpr);
    }
    assert IntRect(0, 0, fbW, fbH).Has(d.x, d.y) && d.Has(d.x, d.y);
  }

  // ----- scroll snapping ---------------------------------------------------------

  /** The snap state of one axis.  applied and asked are history: the device
      pixels shifted and the logical deltas asked for since the last reset. */
  datatype Axis = Axis(resid: real, applied: int, asked: int)

  const AT_REST: Axis := Axis(0.0, 0, 0)

  /** Shift by the whole number of device pixels nearest to what is due. */
  function SnapAxis(a: Axis, d: int, dpr: real): Axis {
    var due := Scale(d, dpr) - a.resid;
    Axis(LRound(due) as real - due, a.applied + LRound(due), a.asked + d)
  }

  /** The snap globals: both axes, the latch that owes a full repaint, and the ratio in
      force. */
  datatype Snap = Snap(x: Axis, y: Axis, dirty: bool, dpr: real)

  function Fresh(dpr: real): Snap { Snap(AT_REST, AT_REST, false, dpr) }

  /** Where a scroll ends up: the pixels shift; or one of the fallbacks (nothing
      of the region stays, damage contains it, the surface does not wrap the
      framebuffer) repaints it and drops the residual. */
  datatype Outcome = Shifts | FallsBack

  datatype SnapEvent =
    | Scrolls(dx: int, dy: int, outcome: Outcome)
    | Settle                // the quiet period is over: one full repaint
    | Resized(dpr: real)    // bib_set_viewport, which may bring a new ratio

  function Reset(s: Snap): Snap { s.(x := AT_REST, y := AT_REST) }

  function SnapScroll(s: Snap, dx: int, dy: int, outcome: Outcome): Snap {
    var x, y := SnapAxis(s.x, dx, s.dpr), SnapAxis(s.y, dy, s.dpr);
    var s' := s.(x := x, y := y, dirty := s.dirty || x.resid != 0.0 || y.resid != 0.0);
    if (x.applied == s.x.applied && y.applied == s.y.applied) || outcome.FallsBack? then Reset(s') else s'
  }

  /** The state after an event, and whether full-frame damage was added. */
  function SnapStep(s: Snap, e: SnapEvent): (Snap, bool) {
    match e
    case Scrolls(dx, dy, outcome) => (SnapScroll(s, dx, dy, outcome), false)
    case Settle => if s.dirty then (Fresh(s.dpr), true) else (s, false)
    case Resized(dpr) => (Reset(s).(dpr := dpr), true)
  }

  function SnapRun(dpr: real, es: seq<SnapEvent>): Snap
    decreases |es|
  {
    if es == [] then Fresh(dpr) else SnapStep(SnapRun(dpr, es[..|es| - 1]), es[|es| - 1]).0
  }

  /** The shifts applied miss what was asked by exactly the residual, at most half
      a device pixel. */
  ghost predicate AxisExact(a: Axis, dpr: real) {
    -0.5 <= a.resid <= 0.5 && a.applied as real - Scale(a.asked, dpr) == a.resid
  }

  ghost predicate SnapInv(s: Snap) {
    AxisExact(s.x, s.dpr) && AxisExact(s.y, s.dpr) && (s.x.resid != 0.0 || s.y.resid != 0.0 ==> s.dirty)
  }

  lemma ScaleAdds(a: int, b: int, dpr: real)
    ensures Scale(a + b, dpr) == Scale(a, dpr) + Scale(b, dpr)
  {
    assert (a + b) as real == a as real + b as real;
  }

  lemma SnapAxisExact(a: Axis, d: int, dpr: real)
    requires AxisExact(a, dpr)
    ensures AxisExact(SnapAxis(a, d, dpr), dpr)
  {
    ScaleAdds(a.asked, d, dpr);
  }

  lemma RestExact(dpr: real)
    ensures AxisExact(AT_REST, dpr)
  {
  }

  /** Sub-pixel error never accumulates: after any run of scrolls, fallbacks,
      settles and resizes to any ratios, the device shifts applied since the last
      reset miss what was asked by exactly the residual, never more than half a
      pixel, and a residual keeps a full repaint owed. */
  lemma {:induction false} ErrorNeverAccumulates(dpr: real, es: seq<SnapEvent>)
    ensures SnapInv(SnapRun(dpr, es))
    decreases |es|
  {
    if es == [] {
      RestExact(dpr);
    } else {
      var s, e := SnapRun(dpr, es[..|es| - 1]), es[|es| - 1];
      ErrorNeverAccumulates(dpr, es[..|es| - 1]);
      RestExact(s.dpr);
      match e
      case Scrolls(dx, dy, _) =>
        SnapAxisExact(s.x, dx, s.dpr);
        SnapAxisExact(s.y, dy, s.dpr);
      case Settle =>
      case Resized(dpr') => RestExact(dpr');
    }
  }

  lemma WholeProduct(d: int, dpr: int)
    ensures Scale(d, dpr as real) == (d * dpr) as real
  {
  }

  lemma LRoundExact(k: int)
    ensures LRound(k as real) == k
  {
  }

  lemma WholeAxis(a: Axis, d: int, dpr: int)
    requires a.resid == 0.0
    ensures SnapAxis(a, d, dpr as real).resid == 0.0
  {
    WholeProduct(d, dpr);
    LRoundExact(d * dpr);
  }

  /** Every ratio of the run is a whole number. */
  ghost predicate AllWhole(dpr: real, es: seq<SnapEvent>) {
    && dpr == dpr.Floor as real
    && (forall k :: 0 <= k < |es| && es[k].Resized? ==> es[k].dpr == es[k].dpr.Floor as real)
  }

  /** At whole-number ratios no scroll leaves a residual or owes a repaint. */
  lemma {:induction false} WholeRatioIsExact(dpr: real, es: seq<SnapEvent>)
    requires AllWhole(dpr, es)
    ensures var s := SnapRun(dpr, es);
            s.x.resid == 0.0 && s.y.resid == 0.0 && !s.dirty && s.dpr == s.dpr.Floor as real
    decreases |es|
  {
    if es != [] {
      var s, e := SnapRun(dpr, es[..|es| - 1]), es[|es| - 1];
      WholeRatioIsExact(dpr, es[..|es| - 1]);
      if e.Scrolls? {
        WholeAxis(s.x, e.dx, s.dpr.Floor);
        WholeAxis(s.y, e.dy, s.dpr.Floor);
      }
    }
  }

  /** No event of `more`, after es, adds full-frame damage. */
  predicate NoFullRepaint(dpr: real, es: seq<SnapEvent>, more: seq<SnapEvent>)
    decreases |more|
  {
    more == [] ||
    (NoFullRepaint(dpr, es, more[..|more| - 1]) &&
     !SnapStep(SnapRun(dpr, es + more[..|more| - 1]), more[|more| - 1]).1)
  }

  lemma RunOneMore(dpr: real, es: seq<SnapEvent>, most: seq<SnapEvent>, e: SnapEvent)
    ensures SnapRun(dpr, es + (most + [e])) == SnapStep(SnapRun(dpr, es + most), e).0
  {
    assert (es + (most + [e]))[..|es + most|] == es + most;
  }

  lemma DirtyStays(s: Snap, e: SnapEvent)
    requires s.dirty && !SnapStep(s, e).1
    ensures SnapStep(s, e).0.dirty
  {
  }

  /** The latch is cleared only in a step that adds full-frame damage: once owed, a
      repaint stays owed through any events none of which adds that damage. */
  lemma {:induction false} DebtStands(dpr: real, es: seq<SnapEvent>, more: seq<SnapEvent>)
    requires SnapRun(dpr, es).dirty && NoFullRepaint(dpr, es, more)
    ensures SnapRun(dpr, es + more).dirty
    decreases |more|
  {
    if more == [] {
      assert es + more == es;
    } else {
      var most, e := more[..|more| - 1], more[|more| - 1];
      DebtStands(dpr, es, most);
      DirtyStays(SnapRun(dpr, es + most), e);
      RunOneMore(dpr, es, most, e);
      assert most + [e] == more;
    }
  }

  /** A settle with a debt pays it: full-frame damage, no residual, nothing owed. */
  lemma SettlePays(dpr: real, es: seq<SnapEvent>)
    requires SnapRun(dpr, es).dirty
    ensures SnapStep(SnapRun(dpr, es), Settle).1
    ensures var s := SnapRun(dpr, es + [Settle]); !s.dirty && s.x.resid == 0.0 && s.y.resid == 0.0
  {
    assert (es + [Settle])[..|es|] == es;
  }

  /** How far an axis should move now, in device pixels: the delta, less the residual of
      the moves before. */
  function Due(a: Axis, d: int, dpr: real): real { Scale(d, dpr) - a.resid }

  lemma RoundsToZero(r: real)
    ensures LRound(r) == 0 <==> -0.5 < r < 0.5
  {
  }

  /** Shifts are made and remembered: after any run, a scroll that does not fall back
      adds its delta to what was asked on both axes, and moves by the nearest whole
      number of device pixels, if and only if one axis is due to move by half a device
      pixel or more; otherwise, and on a fallback, it starts afresh. */
  lemma {:induction false} ShiftsExactlyWhenDue(dpr: real, es: seq<SnapEvent>, dx: int, dy: int, outcome: Outcome)
    ensures var s, s' := SnapRun(dpr, es), SnapRun(dpr, es + [Scrolls(dx, dy, outcome)]);
            var x, y := Due(s.x, dx, s.dpr), Due(s.y, dy, s.dpr);
            if outcome.Shifts? && !(-0.5 < x < 0.5 && -0.5 < y < 0.5)
            then && s'.x.asked == s.x.asked + dx && s'.x.applied == s.x.applied + LRound(x)
                 && s'.y.asked == s.y.asked + dy && s'.y.applied == s.y.applied + LRound(y)
            else s'.x == AT_REST && s'.y == AT_REST
  {
    var s := SnapRun(dpr, es);
    assert (es + [Scrolls(dx, dy, outcome)])[..|es|] == es;
    RoundsToZero(Due(s.x, dx, s.dpr));
    RoundsToZero(Due(s.y, dy, s.dpr));
  }
}
