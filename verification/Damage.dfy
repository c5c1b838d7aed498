/** The damage list: up to eight rectangles of framebuffer pixels that no longer
    show what a full paint would show.  Two rectangles are united only when
    their bounding box repaints little that neither asked for. */
module Damage {
  import opened Geometry

  const MAX_DAMAGE_RECTS: nat := 8

  /** Pixels the bounding box of a and b would repaint that neither asked for. */
  function Waste(a: IntRect, b: IntRect): int {
    Unite(a, b).Area() - a.Area() - b.Area() + Intersection(a, b).Area()
  }

  predicate CheapMerge(a: IntRect, b: IntRect) {
    Waste(a, b) * 3 <= Unite(a, b).Area()
  }

  /** Overwrite slot i with the last slot and drop the last. */
  function SwapRemove(ds: seq<IntRect>, i: nat): seq<IntRect>
    requires i < |ds|
  {
    ds[i := ds[|ds| - 1]][..|ds| - 1]
  }

  /** The cheap-merge scan from slot i: absorb a slot and restart with the union,
      or move on.  Returns the slots left and the grown rectangle. */
  function Fold(ds: seq<IntRect>, r: IntRect, i: nat): (res: (seq<IntRect>, IntRect))
    ensures |res.0| <= |ds|
    decreases |ds|, |ds| - i
  {
    if i >= |ds| then (ds, r)
    else if CheapMerge(r, ds[i]) then Fold(SwapRemove(ds, i), Unite(r, ds[i]), 0)
    else Fold(ds, r, i + 1)
  }

  /** The first slot whose union with r wastes least, scanning from i with
      `best` the best seen so far. */
  function LeastWaste(ds: seq<IntRect>, r: IntRect, i: nat, best: nat): (b: nat)
    requires best < |ds|
    ensures b < |ds|
    decreases |ds| - i
  {
    if i >= |ds| then best
    else if Waste(r, ds[i]) < Waste(r, ds[best]) then LeastWaste(ds, r, i + 1, i)
    else LeastWaste(ds, r, i + 1, best)
  }

  /** Append, or unite with the cheapest slot of a full list. */
  function Place(left: seq<IntRect>, grown: IntRect): seq<IntRect> {
    if |left| < MAX_DAMAGE_RECTS then left + [grown]
    else
      var b := LeastWaste(left, grown, 0, 0);
      left[b := Unite(left[b], grown)]
  }

  /** One damage report: fold in, then place what the fold grew into. */
  function AddDamage(ds: seq<IntRect>, r: IntRect): seq<IntRect> {
    if r.Empty() then ds
    else
      var (left, grown) := Fold(ds, r, 0);
      Place(left, grown)
  }

  predicate Covers(ds: seq<IntRect>, px: int, py: int) {
    exists i :: 0 <= i < |ds| && ds[i].Has(px, py)
  }

  predicate WellFormed(ds: seq<IntRect>) {
    |ds| <= MAX_DAMAGE_RECTS && forall i :: 0 <= i < |ds| ==> !ds[i].Empty()
  }

  // ----- what a report may not lose --------------------------------------

  lemma SwapRemoveMembers(ds: seq<IntRect>, i: nat)
    requires i < |ds|
    ensures forall k :: 0 <= k < |ds| && k != i ==> ds[k] in SwapRemove(ds, i)
    ensures forall d :: d in SwapRemove(ds, i) ==> d in ds
  {
    var left := SwapRemove(ds, i);
    forall k | 0 <= k < |ds| && k != i
      ensures ds[k] in left
    {
      if k == |ds| - 1 { assert left[i] == ds[k]; } else { assert left[k] == ds[k]; }
    }
  }

  /** Every pixel of the slots ds and the rectangle r is still in the slots
      left or the rectangle grown. */
  ghost predicate Kept(ds: seq<IntRect>, r: IntRect, left: seq<IntRect>, grown: IntRect) {
    forall px, py :: Covers(ds, px, py) || r.Has(px, py) ==> Covers(left, px, py) || grown.Has(px, py)
  }

  lemma AbsorbKeeps(ds: seq<IntRect>, r: IntRect, i: nat)
    requires i < |ds|
    ensures Kept(ds, r, SwapRemove(ds, i), Unite(r, ds[i]))
  {
    var left := SwapRemove(ds, i);
    SwapRemoveMembers(ds, i);
    forall px, py | Covers(ds, px, py) && !Unite(r, ds[i]).Has(px, py)
      ensures Covers(left, px, py)
    {
      var k :| 0 <= k < |ds| && ds[k].Has(px, py);
      assert ds[k] in left;
    }
  }

  lemma {:induction false} FoldKeeps(ds: seq<IntRect>, r: IntRect, i: nat)
    requires WellFormed(ds) && !r.Empty()
    ensures WellFormed(Fold(ds, r, i).0) && !Fold(ds, r, i).1.Empty()
    ensures forall d :: d in Fold(ds, r, i).0 ==> d in ds
    ensures Kept(ds, r, Fold(ds, r, i).0, Fold(ds, r, i).1)
    decreases |ds|, |ds| - i
  {
    if i >= |ds| {
    } else if CheapMerge(r, ds[i]) {
      SwapRemoveMembers(ds, i);
      AbsorbKeeps(ds, r, i);
      FoldKeeps(SwapRemove(ds, i), Unite(r, ds[i]), 0);
    } else {
      FoldKeeps(ds, r, i + 1);
    }
  }

  lemma PlaceCovers(left: seq<IntRect>, grown: IntRect)
    requires WellFormed(left) && !grown.Empty()
    ensures WellFormed(Place(left, grown)) && Place(left, grown) != []
    ensures forall px, py :: Covers(left, px, py) || grown.Has(px, py) ==> Covers(Place(left, grown), px, py)
  {
    var after := Place(left, grown);
    forall px, py | Covers(left, px, py) || grown.Has(px, py)
      ensures Covers(after, px, py)
    {
      if grown.Has(px, py) {
        var b := if |left| < MAX_DAMAGE_RECTS then |left| else LeastWaste(left, grown, 0, 0);
        assert after[b].Has(px, py);
      } else {
        var k :| 0 <= k < |left| && left[k].Has(px, py);
        assert after[k].Has(px, py);
      }
    }
  }

  /** A report loses no pixel, of the old list or of its own rectangle, through
      swap-removal, cascaded folding or overflow; it leaves 1..8 non-empty
      slots. */
  lemma {:induction false} AddDamageCovers(ds: seq<IntRect>, r: IntRect)
    requires WellFormed(ds)
    ensures WellFormed(AddDamage(ds, r))
    ensures !r.Empty() ==> AddDamage(ds, r) != []
    ensures forall px, py :: Covers(ds, px, py) || r.Has(px, py) ==> Covers(AddDamage(ds, r), px, py)
  {
    if !r.Empty() {
      FoldKeeps(ds, r, 0);
      PlaceCovers(Fold(ds, r, 0).0, Fold(ds, r, 0).1);
    }
  }

  // ----- merge quality ----------------------------------------------------

  lemma CountOutside<T>(a: set<T>, b: set<T>, u: set<T>)
    requires a + b <= u
    ensures |u - (a + b)| == |u| - |a + b| && |a + b| == |a| + |b| - |a * b|
  {
  }

  /** Waste is exactly the number of pixels of the bounding box that lie in
      neither rectangle, so it is never negative and is zero under containment. */
  lemma WasteCountsPixels(a: IntRect, b: IntRect)
    requires !a.Empty() && !b.Empty()
    ensures Waste(a, b) == |Pixels(Unite(a, b)) - (Pixels(a) + Pixels(b))|
    ensures a.Contains(b) ==> Waste(a, b) == 0
  {
    PixelCount(a);
    PixelCount(b);
    PixelCount(Unite(a, b));
    PixelCount(Intersection(a, b));
    PixelsOfIntersection(a, b);
    PixelsOfUnite(a, b);
    CountOutside(Pixels(a), Pixels(b), Pixels(Unite(a, b)));
  }

  lemma CheapMergeSymmetric(a: IntRect, b: IntRect)
    requires !a.Empty() && !b.Empty()
    ensures CheapMerge(a, b) == CheapMerge(b, a)
  {
    assert Unite(a, b) == Unite(b, a) && Intersection(a, b) == Intersection(b, a);
  }

  /** Two rectangles merge cheaply exactly when their bounding box is at most
      half as large again as the area they really cover. */
  lemma CheapMergeIsCheap(a: IntRect, b: IntRect)
    requires !a.Empty() && !b.Empty()
    ensures CheapMerge(a, b) <==> 2 * |Pixels(Unite(a, b))| <= 3 * |Pixels(a) + Pixels(b)|
  {
    WasteCountsPixels(a, b);
    PixelCount(Unite(a, b));
    PixelsOfUnite(a, b);
    CountOutside(Pixels(a), Pixels(b), Pixels(Unite(a, b)));
  }

  /** No two slots could be merged cheaply. */
  ghost predicate Separated(ds: seq<IntRect>) {
    forall i, j :: 0 <= i < |ds| && 0 <= j < |ds| && i != j ==> !CheapMerge(ds[i], ds[j])
  }

  lemma {:induction false} FoldSeparates(ds: seq<IntRect>, r: IntRect, i: nat)
    requires Separated(ds) && !r.Empty() && (forall k :: 0 <= k < |ds| ==> !ds[k].Empty())
    requires i <= |ds| && forall k :: 0 <= k < i ==> !CheapMerge(r, ds[k])
    ensures Separated(Fold(ds, r, i).0)
    ensures forall k :: 0 <= k < |Fold(ds, r, i).0| ==> !CheapMerge(Fold(ds, r, i).1, Fold(ds, r, i).0[k])
    decreases |ds|, |ds| - i
  {
    if i == |ds| {
    } else if CheapMerge(r, ds[i]) {
      FoldSeparates(SwapRemove(ds, i), Unite(r, ds[i]), 0);
    } else {
      FoldSeparates(ds, r, i + 1);
    }
  }

  /** The fold reaches a fixpoint: a list with no two cheaply mergeable slots
      stays one as long as a report does not find eight slots left. */
  lemma {:induction false} AddDamageSeparates(ds: seq<IntRect>, r: IntRect)
    requires WellFormed(ds) && Separated(ds)
    requires !r.Empty() ==> |Fold(ds, r, 0).0| < MAX_DAMAGE_RECTS
    ensures Separated(AddDamage(ds, r))
  {
    if !r.Empty() {
      FoldSeparates(ds, r, 0);
      FoldKeeps(ds, r, 0);
      var (left, grown) := Fold(ds, r, 0);
      forall k | 0 <= k < |left| ensures !CheapMerge(left[k], grown) {
        assert left[k] in ds;
        CheapMergeSymmetric(left[k], grown);
      }
    }
  }

  /** A run of reports, oldest first. */
  function AddAll(ds: seq<IntRect>, rs: seq<IntRect>): seq<IntRect>
    decreases |rs|
  {
    if rs == [] then ds else AddDamage(AddAll(ds, rs[..|rs| - 1]), rs[|rs| - 1])
  }

  predicate SomeNonEmpty(rs: seq<IntRect>) {
    exists i :: 0 <= i < |rs| && !rs[i].Empty()
  }

  lemma {:induction false} AddAllCovers(ds: seq<IntRect>, rs: seq<IntRect>)
    requires WellFormed(ds)
    ensures WellFormed(AddAll(ds, rs))
    ensures AddAll(ds, rs) == [] <==> ds == [] && !SomeNonEmpty(rs)
    ensures forall px, py :: Covers(ds, px, py) || Covers(rs, px, py) ==> Covers(AddAll(ds, rs), px, py)
    decreases |rs|
  {
    if rs != [] {
      var most, last := rs[..|rs| - 1], rs[|rs| - 1];
      AddAllCovers(ds, most);
      AddDamageCovers(AddAll(ds, most), last);
      assert SomeNonEmpty(rs) <==> SomeNonEmpty(most) || !last.Empty() by {
        if SomeNonEmpty(most) {
          var k :| 0 <= k < |most| && !most[k].Empty();
          assert !rs[k].Empty();
        }
        assert !last.Empty() ==> !rs[|rs| - 1].Empty();
      }
      forall px, py | Covers(rs, px, py) && !last.Has(px, py)
        ensures Covers(most, px, py)
      {
        var k :| 0 <= k < |rs| && rs[k].Has(px, py);
        assert most[k].Has(px, py);
      }
    }
  }

  /** No report of the run found the list full after its fold. */
  ghost predicate NeverOverflows(ds: seq<IntRect>, rs: seq<IntRect>)
    decreases |rs|
  {
    rs == [] ||
    (NeverOverflows(ds, rs[..|rs| - 1]) &&
     (rs[|rs| - 1].Empty() || |Fold(AddAll(ds, rs[..|rs| - 1]), rs[|rs| - 1], 0).0| < MAX_DAMAGE_RECTS))
  }

  /** From a cleared list until the first overflow, no two slots are ever left
      cheaply mergeable. */
  lemma {:induction false} RunSeparates(rs: seq<IntRect>)
    requires NeverOverflows([], rs)
    ensures Separated(AddAll([], rs))
    decreases |rs|
  {
    if rs != [] {
      RunSeparates(rs[..|rs| - 1]);
      AddAllCovers([], rs[..|rs| - 1]);
      AddDamageSeparates(AddAll([], rs[..|rs| - 1]), rs[|rs| - 1]);
    }
  }

  /** A list full of slots takes the union where it wastes least. */
  lemma {:induction false} LeastWasteIsLeast(ds: seq<IntRect>, r: IntRect, i: nat, best: nat)
    requires best < i <= |ds| || (best == 0 && i == 0 && |ds| > 0)
    requires forall k :: 0 <= k < i ==> Waste(r, ds[best]) <= Waste(r, ds[k])
    requires forall k :: 0 <= k < best ==> Waste(r, ds[best]) < Waste(r, ds[k])
    ensures var b := LeastWaste(ds, r, i, best);
            (forall k :: 0 <= k < |ds| ==> Waste(r, ds[b]) <= Waste(r, ds[k])) &&
            (forall k :: 0 <= k < b ==> Waste(r, ds[b]) < Waste(r, ds[k]))
    decreases |ds| - i
  {
    if i >= |ds| {
    } else if Waste(r, ds[i]) < Waste(r, ds[best]) {
      LeastWasteIsLeast(ds, r, i + 1, i);
    } else {
      LeastWasteIsLeast(ds, r, i + 1, best);
    }
  }

  const INT64_MAX: int := 0x7fff_ffff_ffff_ffff

  predicate InRange(r: IntRect) {
    -0x2000_0000 <= r.x && r.x + r.w <= 0x2000_0000 && -0x2000_0000 <= r.y && r.y + r.h <= 0x2000_0000
  }

  lemma AreaBound(r: IntRect)
    requires !r.Empty() && InRange(r)
    ensures 0 < r.Area() <= 0x4000_0000 * 0x4000_0000
  {
    assert r.w * r.h <= 0x4000_0000 * r.h;
  }

  /** The 64-bit comparison cannot overflow for coordinates within +-2^29:
      every area, the running difference and the tripled waste all fit. */
  lemma WasteFitsInt64(a: IntRect, b: IntRect)
    requires !a.Empty() && !b.Empty() && InRange(a) && InRange(b)
    ensures Unite(a, b).Area() <= INT64_MAX && InRange(Unite(a, b))
    ensures -INT64_MAX <= Unite(a, b).Area() - a.Area() - b.Area() <= INT64_MAX
    ensures 0 <= Waste(a, b) && Waste(a, b) * 3 <= INT64_MAX
  {
    var u := Unite(a, b);
    AreaBound(a);
    AreaBound(b);
    AreaBound(u);
    WasteCountsPixels(a, b);
    PixelCount(u);
    SubsetCount(Pixels(u) - (Pixels(a) + Pixels(b)), Pixels(u));
  }

  lemma SubsetCount<T>(s: set<T>, t: set<T>)
    requires s <= t
    ensures |s| <= |t|
  {
    assert |t - s| == |t| - |s|;
  }

  // ----- the list itself --------------------------------------------------

  /** The globals g_damageRects, g_damageCount and g_frameDirty. */
  class DamageList {
    const rects: array<IntRect>
    var count: nat
    var frameDirty: bool

    ghost predicate Valid()
      reads this, rects
    {
      rects.Length == MAX_DAMAGE_RECTS && count <= MAX_DAMAGE_RECTS && WellFormed(Slots())
    }

    ghost function Slots(): seq<IntRect>
      reads this, rects
    {
      if count <= rects.Length then rects[..count] else []
    }

    /** Boot state: one huge slot, so the first paint covers the whole frame. */
    constructor ()
      ensures Valid() && fresh(rects)
      ensures Slots() == [IntRect(0, 0, 0x10_0000, 0x10_0000)] && frameDirty
    {
      rects := new IntRect[8](_ => EMPTY);
      count := 1;
      frameDirty := true;
      new;
      rects[0] := IntRect(0, 0, 0x10_0000, 0x10_0000);
      assert rects[..1] == [IntRect(0, 0, 0x10_0000, 0x10_0000)];
    }

    method Add(rect: IntRect)
      requires Valid()
      modifies this, rects
      ensures Valid()
      ensures Slots() == AddDamage(old(Slots()), rect)
      ensures frameDirty == (old(frameDirty) || !rect.Empty())
    {
      AddDamageCovers(Slots(), rect);
      if rect.Empty() {
        return;
      }
      frameDirty := true;
      var incoming := rect;
      var i := 0;
      while i < count
        invariant i <= count <= MAX_DAMAGE_RECTS == rects.Length && frameDirty
        invariant Fold(rects[..count], incoming, i) == Fold(old(Slots()), rect, 0)
        decreases count, count - i
      {
        ghost var before := rects[..count];
        var u := Unite(incoming, rects[i]);
        if Waste(incoming, rects[i]) * 3 <= u.Area() {
          count := count - 1;
          rects[i] := rects[count];
          assert rects[..count] == SwapRemove(before, i);
          incoming := u;
          i := 0;
        } else {
          i := i + 1;
        }
      }
      ghost var left := rects[..count];
      assert (left, incoming) == Fold(old(Slots()), rect, 0);
      if count < MAX_DAMAGE_RECTS {
        rects[count] := incoming;
        count := count + 1;
        assert rects[..count] == left + [incoming];
        return;
      }
      var best := 0;
      var bestWaste := Waste(incoming, rects[0]);
      i := 0;
      while i < count
        invariant i <= count == MAX_DAMAGE_RECTS && best < count && rects[..count] == left
        invariant bestWaste == Waste(incoming, rects[best])
        invariant LeastWaste(left, incoming, i, best) == LeastWaste(left, incoming, 0, 0)
      {
        var waste := Waste(incoming, rects[i]);
        if waste < bestWaste {
          bestWaste, best := waste, i;
        }
        i := i + 1;
      }
      rects[best] := Unite(rects[best], incoming);
      assert rects[..count] == left[best := Unite(left[best], incoming)];
    }

    method Clear()
      requires Valid()
      modifies this
      ensures Valid() && Slots() == [] && !frameDirty
    {
      frameDirty := false;
      count := 0;
    }
  }
}
