/** How much a damage report may add: which slots it absorbs, which one a full list
    gives up, and when nothing is merged at all. */
module Merging {
  import opened Geometry
  import opened Damage

  /** r, united with the slots of `order` one after another, each a cheap merge when
      its turn comes, has grown to `grown`. */
  ghost predicate Absorbs(r: IntRect, order: seq<IntRect>, grown: IntRect)
    decreases |order|
  {
    if order == [] then grown == r
    else CheapMerge(r, order[0]) && Absorbs(Unite(r, order[0]), order[1..], grown)
  }

  lemma SwapRemoveCounts(ds: seq<IntRect>, i: nat)
    requires i < |ds|
    ensures multiset(ds) == multiset(SwapRemove(ds, i)) + multiset{ds[i]}
  {
    var n := |ds| - 1;
    if i == n {
      assert ds == ds[..n] + [ds[n]] && SwapRemove(ds, i) == ds[..n];
    } else {
      assert ds == ds[..i] + [ds[i]] + ds[i + 1..n] + [ds[n]];
      assert SwapRemove(ds, i) == ds[..i] + [ds[n]] + ds[i + 1..n];
    }
  }

  /** The scan absorbs slots one by one, each by a cheap merge, leaves the others as
      they are, and stops when none left is cheap. */
  lemma {:induction false} FoldAbsorbs(ds: seq<IntRect>, r: IntRect, i: nat) returns (order: seq<IntRect>)
    requires i <= |ds| && forall k :: 0 <= k < i ==> !CheapMerge(r, ds[k])
    ensures var (left, grown) := Fold(ds, r, i);
            && multiset(ds) == multiset(left) + multiset(order) && Absorbs(r, order, grown)
            && forall k :: 0 <= k < |left| ==> !CheapMerge(grown, left[k])
    decreases |ds|, |ds| - i
  {
    if i == |ds| {
      order := [];
    } else if CheapMerge(r, ds[i]) {
      var rest := FoldAbsorbs(SwapRemove(ds, i), Unite(r, ds[i]), 0);
      SwapRemoveCounts(ds, i);
      order := [ds[i]] + rest;
      assert order[1..] == rest;
    } else {
      order := FoldAbsorbs(ds, r, i + 1);
    }
  }

  /** Slot b is the first whose union with r wastes least. */
  ghost predicate Cheapest(ds: seq<IntRect>, r: IntRect, b: int) {
    && 0 <= b < |ds|
    && (forall k :: 0 <= k < |ds| ==> Waste(r, ds[b]) <= Waste(r, ds[k]))
    && (forall k :: 0 <= k < b ==> Waste(r, ds[b]) < Waste(r, ds[k]))
  }

  /** A report in full.  It absorbs some slots, each by a cheap merge, until none left
      is cheap; the others stay as they are; what it has grown into becomes a slot of
      its own, or, when eight are left, is united into the first that wastes least. */
  lemma {:induction false} ReportIs(ds: seq<IntRect>, r: IntRect)
    returns (order: seq<IntRect>, left: seq<IntRect>, grown: IntRect, b: int)
    requires WellFormed(ds) && !r.Empty()
    ensures multiset(ds) == multiset(left) + multiset(order) && Absorbs(r, order, grown)
    ensures forall k :: 0 <= k < |left| ==> !CheapMerge(grown, left[k])
    ensures |left| < MAX_DAMAGE_RECTS ==> AddDamage(ds, r) == left + [grown]
    ensures |left| == MAX_DAMAGE_RECTS ==> Cheapest(left, grown, b) && AddDamage(ds, r) == left[b := Unite(left[b], grown)]
    ensures |left| <= MAX_DAMAGE_RECTS
  {
    order := FoldAbsorbs(ds, r, 0);
    left, grown, b := Fold(ds, r, 0).0, Fold(ds, r, 0).1, 0;
    if |left| == MAX_DAMAGE_RECTS {
      LeastWasteIsLeast(left, grown, 0, 0);
      b := LeastWaste(left, grown, 0, 0);
    }
  }

  lemma {:induction false} NoneCheap(ds: seq<IntRect>, r: IntRect, i: nat)
    requires forall k :: 0 <= k < |ds| ==> !CheapMerge(r, ds[k])
    ensures Fold(ds, r, i) == (ds, r)
    decreases |ds| - i
  {
    if i < |ds| {
      NoneCheap(ds, r, i + 1);
    }
  }

  /** Reports that are not cheap to merge with each other or the slots, and fit, are
      kept apart: the list is exactly the slots and the reports. */
  lemma {:induction false} ApartStaysApart(ds: seq<IntRect>, rs: seq<IntRect>)
    requires Separated(ds + rs) && |ds| + |rs| <= MAX_DAMAGE_RECTS
    requires forall k :: 0 <= k < |rs| ==> !rs[k].Empty()
    ensures AddAll(ds, rs) == ds + rs
    decreases |rs|
  {
    if rs == [] {
      assert ds + rs == ds;
    } else {
      var n := |rs| - 1;
      var most, all := rs[..n], ds + rs;
      assert ds + most == all[..|ds| + n];
      ApartStaysApart(ds, most);
      forall k | 0 <= k < |ds + most| ensures !CheapMerge(rs[n], (ds + most)[k]) {
        assert (ds + most)[k] == all[k] && rs[n] == all[|ds| + n];
      }
      NoneCheap(ds + most, rs[n], 0);
      assert ds + most + [rs[n]] == ds + rs;
    }
  }

  /** Every slot lies in r. */
  predicate Within(ds: seq<IntRect>, r: IntRect) {
    forall k :: 0 <= k < |ds| ==> !ds[k].Empty() && r.Contains(ds[k])
  }

  lemma {:induction false} FoldWithin(ds: seq<IntRect>, d: IntRect, i: nat, r: IntRect)
    requires Within(ds, r) && !d.Empty() && r.Contains(d)
    ensures Within(Fold(ds, d, i).0, r) && !Fold(ds, d, i).1.Empty() && r.Contains(Fold(ds, d, i).1)
    decreases |ds|, |ds| - i
  {
    if i < |ds| {
      if CheapMerge(d, ds[i]) {
        UniteIsLeast(d, ds[i], r);
        FoldWithin(SwapRemove(ds, i), Unite(d, ds[i]), 0, r);
      } else {
        FoldWithin(ds, d, i + 1, r);
      }
    }
  }

  /** Damage never leaves the bounding box: a rectangle that contains the slots and the
      reports contains the list afterwards. */
  lemma {:induction false} AddAllWithin(ds: seq<IntRect>, rs: seq<IntRect>, r: IntRect)
    requires Within(ds, r) && forall k :: 0 <= k < |rs| ==> rs[k].Empty() || r.Contains(rs[k])
    ensures Within(AddAll(ds, rs), r)
    decreases |rs|
  {
    if rs != [] {
      var most, last := rs[..|rs| - 1], rs[|rs| - 1];
      AddAllWithin(ds, most, r);
      if !last.Empty() {
        FoldWithin(AddAll(ds, most), last, 0, r);
        PlaceWithin(Fold(AddAll(ds, most), last, 0).0, Fold(AddAll(ds, most), last, 0).1, r);
      }
    }
  }

  lemma PlaceWithin(left: seq<IntRect>, grown: IntRect, r: IntRect)
    requires Within(left, r) && !grown.Empty() && r.Contains(grown)
    ensures Within(Place(left, grown), r)
  {
    if |left| >= MAX_DAMAGE_RECTS {
      UniteIsLeast(left[LeastWaste(left, grown, 0, 0)], grown, r);
    }
  }
}
