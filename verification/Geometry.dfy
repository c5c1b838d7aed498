/** Integer rectangles with the semantics of WebCore::IntRect, which the
    embedder's damage, scroll and push code is written in.  A rectangle is the
    half-open pixel set [x, x+w) x [y, y+h); a non-positive size is empty. */
module Geometry {

  datatype IntRect = IntRect(x: int, y: int, w: int, h: int) {

    predicate Empty() { w <= 0 || h <= 0 }

    predicate Has(px: int, py: int) { x <= px < x + w && y <= py < y + h }

    predicate Contains(o: IntRect) {
      x <= o.x && o.x + o.w <= x + w && y <= o.y && o.y + o.h <= y + h
    }

    function Moved(dx: int, dy: int): IntRect { IntRect(x + dx, y + dy, w, h) }

    function Area(): int { w * h }
  }

  const EMPTY: IntRect := IntRect(0, 0, 0, 0)

  function Max(a: int, b: int): int { if a >= b then a else b }

  function Min(a: int, b: int): int { if a <= b then a else b }

  /** The common pixels of two rectangles; EMPTY when there are none. */
  function Intersection(a: IntRect, b: IntRect): (r: IntRect)
    ensures forall px, py :: r.Has(px, py) <==> a.Has(px, py) && b.Has(px, py)
    ensures r.Empty() ==> r == EMPTY
  {
    var l, t := Max(a.x, b.x), Max(a.y, b.y);
    var rt, bt := Min(a.x + a.w, b.x + b.w), Min(a.y + a.h, b.y + b.h);
    if l >= rt || t >= bt then EMPTY else IntRect(l, t, rt - l, bt - t)
  }

  /** The bounding box of two rectangles, an empty one contributing nothing. */
  function Unite(a: IntRect, b: IntRect): (r: IntRect)
    ensures forall px, py :: a.Has(px, py) || b.Has(px, py) ==> r.Has(px, py)
    ensures !a.Empty() || !b.Empty() ==> !r.Empty()
    ensures (b.Empty() ==> r == a) && (a.Empty() && !b.Empty() ==> r == b)
  {
    if b.Empty() then a
    else if a.Empty() then b
    else
      var l, t := Min(a.x, b.x), Min(a.y, b.y);
      var rt, bt := Max(a.x + a.w, b.x + b.w), Max(a.y + a.h, b.y + b.h);
      IntRect(l, t, rt - l, bt - t)
  }

  /** The pixels of a rectangle as a finite set. */
  ghost function Pixels(r: IntRect): set<(int, int)> {
    set px, py | r.x <= px < r.x + r.w && r.y <= py < r.y + r.h :: (px, py)
  }

  /** The pixels of one row. */
  ghost function RowPixels(x: int, w: nat, y: int): set<(int, int)> {
    set px | x <= px < x + w :: (px, y)
  }

  lemma {:induction false} RowCount(x: int, w: nat, y: int)
    ensures |RowPixels(x, w, y)| == w
  {
    if w == 0 {
      assert RowPixels(x, w, y) == {};
    } else {
      RowCount(x, w - 1, y);
      assert RowPixels(x, w, y) == RowPixels(x, w - 1, y) + {(x + w - 1, y)};
    }
  }

  lemma PixelsByRow(x: int, y: int, w: nat, h: nat)
    requires h > 0
    ensures Pixels(IntRect(x, y, w, h)) == Pixels(IntRect(x, y, w, h - 1)) + RowPixels(x, w, y + h - 1)
    ensures Pixels(IntRect(x, y, w, h - 1)) !! RowPixels(x, w, y + h - 1)
  {
  }

  lemma Distribute(w: nat, h: nat)
    requires h > 0
    ensures w * (h - 1) + w == w * h
  {
  }

  lemma {:induction false} BoxCount(x: int, y: int, w: nat, h: nat)
    ensures |Pixels(IntRect(x, y, w, h))| == w * h
    decreases h
  {
    if h == 0 {
      assert Pixels(IntRect(x, y, w, h)) == {};
    } else {
      var top, row := Pixels(IntRect(x, y, w, h - 1)), RowPixels(x, w, y + h - 1);
      assert |top| + |row| == w * h by {
        BoxCount(x, y, w, h - 1);
        RowCount(x, w, y + h - 1);
        Distribute(w, h);
      }
      PixelsByRow(x, y, w, h);
    }
  }

  /** Area counts pixels. */
  lemma PixelCount(r: IntRect)
    requires r.w >= 0 && r.h >= 0
    ensures |Pixels(r)| == r.Area()
  {
    BoxCount(r.x, r.y, r.w, r.h);
  }

  /** Bounding: no rectangle that contains both operands is smaller than their
      union. */
  lemma UniteIsLeast(a: IntRect, b: IntRect, c: IntRect)
    requires !a.Empty() && !b.Empty() && c.Contains(a) && c.Contains(b)
    ensures c.Contains(Unite(a, b)) && Unite(a, b).Contains(a) && Unite(a, b).Contains(b)
  {
  }

  lemma PixelsOfIntersection(a: IntRect, b: IntRect)
    ensures Pixels(Intersection(a, b)) == Pixels(a) * Pixels(b)
  {
    forall p: (int, int) ensures p in Pixels(Intersection(a, b)) <==> p in Pixels(a) * Pixels(b) {
      var (px, py) := p;
      assert Intersection(a, b).Has(px, py) <==> a.Has(px, py) && b.Has(px, py);
    }
  }

  lemma PixelsOfUnite(a: IntRect, b: IntRect)
    ensures Pixels(a) + Pixels(b) <= Pixels(Unite(a, b))
  {
    forall p: (int, int) | p in Pixels(a) + Pixels(b) ensures p in Pixels(Unite(a, b)) {
      assert Unite(a, b).Has(p.0, p.1);
    }
  }
}
