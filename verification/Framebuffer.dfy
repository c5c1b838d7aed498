/** The framebuffer: fbH rows of fbW pixels, moved and painted in place. */
module Framebuffer {
  import opened Geometry

  /** One RGBA word. */
  type Pixel = p: nat | p < 0x1_0000_0000

  const BLANK: Pixel := 0

  type Image = seq<seq<Pixel>>

  predicate IsImage(m: Image, w: nat, h: nat) {
    |m| == h && forall y :: 0 <= y < h ==> |m[y]| == w
  }

  function FrameRect(w: nat, h: nat): IntRect { IntRect(0, 0, w, h) }

  /** The image that has f's pixel at each position. */
  function Build(w: nat, h: nat, f: (int, int) -> Pixel): (m: Image)
    ensures IsImage(m, w, h)
    ensures forall x, y :: 0 <= x < w && 0 <= y < h ==> m[y][x] == f(x, y)
  {
    seq(h, y => seq(w, x => f(x, y)))
  }

  /** Pixel (x, y) of m, blank outside it. */
  function At(m: Image, x: int, y: int): Pixel {
    if 0 <= y < |m| && 0 <= x < |m[y]| then m[y][x] else BLANK
  }

  /** Content the page shows at (x, y). */
  function Sample(content: (int, int) -> Pixel, x: int, y: int): Pixel { content(x, y) }

  lemma SameImage(a: Image, b: Image, w: nat, h: nat)
    requires IsImage(a, w, h) && IsImage(b, w, h)
    requires forall x, y :: 0 <= x < w && 0 <= y < h ==> a[y][x] == b[y][x]
    ensures a == b
  {
    forall y | 0 <= y < h ensures a[y] == b[y] { }
  }

  ghost predicate IsPainted(m: Image, fb: Image, truth: Image, clip: IntRect, w: nat, h: nat)
    requires IsImage(fb, w, h) && IsImage(truth, w, h)
  {
    && IsImage(m, w, h)
    && forall x, y :: 0 <= x < w && 0 <= y < h ==> m[y][x] == if clip.Has(x, y) then truth[y][x] else fb[y][x]
  }

  lemma SomePainted(fb: Image, truth: Image, clip: IntRect, w: nat, h: nat)
    requires IsImage(fb, w, h) && IsImage(truth, w, h)
    ensures exists m: Image :: IsPainted(m, fb, truth, clip, w, h)
  {
    var m := Build(w, h, (x, y) => if clip.Has(x, y) then At(truth, x, y) else At(fb, x, y));
    assert IsPainted(m, fb, truth, clip, w, h);
  }

  /** Painting a clip: truth inside it, the previous frame outside. */
  ghost function Painted(fb: Image, truth: Image, clip: IntRect, w: nat, h: nat): (m: Image)
    requires IsImage(fb, w, h) && IsImage(truth, w, h)
    ensures IsPainted(m, fb, truth, clip, w, h)
  {
    SomePainted(fb, truth, clip, w, h);
    var m: Image :| IsPainted(m, fb, truth, clip, w, h);
    m
  }

  /** Moving pixels: each pixel of dst takes the one (dx, dy) before it. */
  function Shifted(fb: Image, dst: IntRect, dx: int, dy: int, w: nat, h: nat): (m: Image)
    requires IsImage(fb, w, h) && FrameRect(w, h).Contains(dst.Moved(-dx, -dy))
    ensures IsImage(m, w, h)
    ensures forall x, y {:trigger m[y][x]} :: 0 <= x < w && 0 <= y < h ==>
              m[y][x] == if dst.Has(x, y) then fb[y - dy][x - dx] else fb[y][x]
  {
    Build(w, h, (x, y) => if dst.Has(x, y) then At(fb, x - dx, y - dy) else At(fb, x, y))
  }

  /** The full-width rows [y0, y0+n). */
  function Band(fb: Image, w: nat, y0: int, n: nat): (m: Image)
    ensures IsImage(m, w, n)
    ensures forall x, y :: 0 <= x < w && 0 <= y < n ==> m[y][x] == At(fb, x, y + y0)
  {
    Build(w, n, (x, y) => At(fb, x, y + y0))
  }

  /** The pixels now in a pixel buffer. */
  ghost function Rows(a: array2<Pixel>): (m: Image)
    reads a
    ensures IsImage(m, a.Length1, a.Length0)
    ensures forall x, y :: 0 <= x < a.Length1 && 0 <= y < a.Length0 ==> m[y][x] == a[y, x]
  {
    seq(a.Length0, y requires 0 <= y < a.Length0 reads a =>
      seq(a.Length1, x requires 0 <= x < a.Length1 reads a => a[y, x]))
  }

  /** Rows are laid out one after another, so a pixel's byte offset is inside
      the w*h*4-byte buffer and two pixels share one only if they are the same. */
  lemma OffsetsFaithful(w: nat, h: nat, x: int, y: int, x': int, y': int)
    requires 0 <= x < w && 0 <= y < h && 0 <= x' < w && 0 <= y' < h
    ensures 0 <= y * (w * 4) + x * 4 && y * (w * 4) + x * 4 + 4 <= w * h * 4
    ensures y * (w * 4) + x * 4 == y' * (w * 4) + x' * 4 ==> x == x' && y == y'
  {
    RowsDisjoint(w, x, y, x', y');
    RowsDisjoint(w, x', y', x, y);
    RowsDisjoint(w, x, y, 0, h);
    assert y * (w * 4) == 4 * (y * w) && y' * (w * 4) == 4 * (y' * w) && w * h * 4 == 4 * (h * w);
  }

  lemma MulMonotone(a: int, b: int, w: nat)
    requires a <= b
    ensures a * w <= b * w
  {
  }

  lemma RowsDisjoint(w: nat, x: int, y: int, x': int, y': int)
    requires 0 <= x < w && 0 <= x' && 0 <= y
    ensures y < y' ==> y * w + x + 1 <= y' * w + x'
    ensures 0 <= y * w
  {
    MulMonotone(0, y, w);
    if y < y' {
      MulMonotone(y + 1, y', w);
      assert (y + 1) * w == y * w + w;
    }
  }

  /** memmove within the buffer: n pixels from (srcX, srcY) to (dstX, dstY),
      correct when the two runs overlap. */
  method MoveRow(a: array2<Pixel>, dstX: nat, dstY: nat, srcX: nat, srcY: nat, n: nat)
    requires dstY < a.Length0 && srcY < a.Length0 && dstX + n <= a.Length1 && srcX + n <= a.Length1
    modifies a
    ensures forall x, y :: 0 <= x < a.Length1 && 0 <= y < a.Length0 ==>
              a[y, x] == if y == dstY && dstX <= x < dstX + n then old(a[srcY, x - dstX + srcX]) else old(a[y, x])
  {
    if dstX <= srcX {
      for k := 0 to n
        invariant forall x, y :: 0 <= x < a.Length1 && 0 <= y < a.Length0 ==>
                    a[y, x] == if y == dstY && dstX <= x < dstX + k then old(a[srcY, x - dstX + srcX]) else old(a[y, x])
      {
        a[dstY, dstX + k] := a[srcY, srcX + k];
      }
    } else {
      for k := n downto 0
        invariant forall x, y :: 0 <= x < a.Length1 && 0 <= y < a.Length0 ==>
                    a[y, x] == if y == dstY && dstX + k <= x < dstX + n then old(a[srcY, x - dstX + srcX]) else old(a[y, x])
      {
        a[dstY, dstX + k] := a[srcY, srcX + k];
      }
    }
  }

  /** The overlap-safe row walk of the scroll blit: bottom-up when moving down,
      top-down otherwise. */
  method ShiftRows(a: array2<Pixel>, dst: IntRect, dx: int, dy: int)
    requires !dst.Empty()
    requires FrameRect(a.Length1, a.Length0).Contains(dst)
    requires FrameRect(a.Length1, a.Length0).Contains(dst.Moved(-dx, -dy))
    modifies a
    ensures Rows(a) == Shifted(old(Rows(a)), dst, dx, dy, a.Length1, a.Length0)
  {
    if dy > 0 {
      for k := dst.h downto 0
        invariant forall x, y :: 0 <= x < a.Length1 && 0 <= y < a.Length0 ==>
                    a[y, x] == if dst.Has(x, y) && dst.y + k <= y then old(a[y - dy, x - dx]) else old(a[y, x])
      {
        MoveRow(a, dst.x, dst.y + k, dst.x - dx, dst.y - dy + k, dst.w);
      }
    } else {
      for k := 0 to dst.h
        invariant forall x, y :: 0 <= x < a.Length1 && 0 <= y < a.Length0 ==>
                    a[y, x] == if dst.Has(x, y) && y < dst.y + k then old(a[y - dy, x - dx]) else old(a[y, x])
      {
        MoveRow(a, dst.x, dst.y + k, dst.x - dx, dst.y - dy + k, dst.w);
      }
    }
    SameImage(Rows(a), Shifted(old(Rows(a)), dst, dx, dy, a.Length1, a.Length0), a.Length1, a.Length0);
  }
}
