/** The pipeline's code as it is written: globals updated step by step, pixels
    moved and painted in place.  Every method is tied to the state machine of
    Surface and Pipeline, where the properties are proved. */
module Compositor {
  import opened Basics
  import opened Geometry
  import opened Damage
  import opened Framebuffer
  import opened Surface
  import opened Pipeline

  /** Every rectangle is a non-empty part of the frame. */
  ghost predicate AllInFrame(rs: seq<IntRect>, w: nat, h: nat) {
    forall k :: 0 <= k < |rs| ==> !rs[k].Empty() && FrameRect(w, h).Contains(rs[k])
  }

  lemma ApplyAllNext(e: Engine, rs: seq<Report>, i: nat)
    requires e.Sized() && i < |rs|
    ensures ApplyAll(e, rs[..i + 1]) == Apply(ApplyAll(e, rs[..i]), rs[i])
  {
    assert rs[..i + 1][..i] == rs[..i];
  }

  lemma PaintLoopStep(e: Engine, dirty: seq<IntRect>, i: nat, bounds: IntRect, upload: IntRect, env: PaintEnv)
    requires e.Sized() && i < |dirty| && i != env.failAt
    ensures PaintLoop(e, dirty, i, bounds, upload, env) ==
            PaintLoop(PaintOne(e, dirty[i], env.During(i)), dirty, i + 1, Unite(bounds, dirty[i]), upload, env)
  {
  }

  /** A push that gets as far as the host call, step by step. */
  lemma PushPosts(p: Pipe, env: PaintEnv, e': Engine, box: IntRect)
    requires p.e.Sized() && !p.inFlight && box.w > 0 && box.h > 0
    requires Surface.Render(p.e, !p.firstFramePushed, env) == (e', Some(box))
    ensures Push(p, env) == Pipeline.BibFrame(p.(e := e', firstFramePushed := true, inFlight := true), box)
  {
  }

  /** A readback, step by step. */
  lemma ReadbackUploads(p: Pipe, env: PaintEnv, e': Engine, box: Option<IntRect>)
    requires p.e.Sized() && Surface.Render(p.e, true, env) == (e', box)
    ensures RequestReadback(p, env) == p.(e := if box.Some? then e'.Uploading(e'.Frame()) else e')
  {
  }

  class Embedder {
    const damage: DamageList            // g_damageRects, g_damageCount, g_frameDirty
    var fb: array2<Pixel>               // g_blitPixels, which the surface wraps
    var upload: IntRect                 // g_uploadRect
    var dirtyBox: IntRect               // g_dirtyBox
    var inFlight: bool                  // g_presentInFlight
    var firstFramePushed: bool
    var frameBuf: Option<nat>           // the worker's transfer buffer, by its length
    var posted: seq<FrameMsg>           // frame messages the main thread has not taken
    var page: Image                     // what a full paint would give now

    ghost predicate Valid()
      reads this, damage, damage.rects, fb
    {
      damage.Valid() && View().Valid()
    }

    ghost function View(): (e: Engine)
      reads this, damage, damage.rects, fb
    {
      Engine(fb.Length1, fb.Length0, page, Rows(fb), damage.Slots(), damage.frameDirty, upload)
    }

    /** The link part of the state, given what the host side holds. */
    ghost function Link(toWorker: seq<nat>, canvas: Canvas): Pipe
      reads this, damage, damage.rects, fb
    {
      Pipe(View(), firstFramePushed, inFlight, frameBuf, posted, toWorker, canvas)
    }

    /** Boot: the whole frame damaged, nothing pushed. */
    constructor (w: nat, h: nat, bootPage: (int, int) -> Pixel, garbage: (int, int) -> Pixel)
      requires 1 <= w <= 8192 && 1 <= h <= 8192
      ensures Valid() && fresh(damage) && fresh(damage.rects) && fresh(fb)
      ensures forall canvas: Canvas :: IsImage(canvas.img, canvas.w, canvas.h) ==> Initial(Link([], canvas))
    {
      damage := new DamageList();
      fb := new Pixel[h, w]((y, x) => garbage(x, y));
      page := Build(w, h, bootPage);
      upload, dirtyBox := EMPTY, FrameRect(w, h);
      inFlight, firstFramePushed, frameBuf, posted := false, false, None, [];
      new;
      forall canvas: Canvas | IsImage(canvas.img, canvas.w, canvas.h) ensures Initial(Link([], canvas)) {
        BootIsInitial(w, h, page, Rows(fb), canvas);
      }
    }

    method AddDamage(rect: IntRect)
      requires Valid()
      modifies damage, damage.rects
      ensures Valid() && View() == old(View()).Damaged(rect)
    {
      DamagedKeeps(View(), rect);
      damage.Add(rect);
    }

    method AddAllDamage(rects: seq<IntRect>)
      requires Valid()
      modifies damage, damage.rects
      ensures Valid() && View() == old(View()).DamagedAll(rects)
    {
      ghost var before := View();
      assert before.DamagedAll(rects[..0]) == before;
      for i := 0 to |rects|
        invariant Valid() && View() == before.DamagedAll(rects[..i])
      {
        ghost var most := rects[..i + 1];
        assert most[..|most| - 1] == rects[..i];
        assert SomeNonEmpty(most) <==> SomeNonEmpty(rects[..i]) || !rects[i].Empty() by {
          assert forall k :: 0 <= k < i ==> most[k] == rects[..i][k];
          assert most[i] == rects[i];
        }
        AddDamage(rects[i]);
      }
      assert rects[..|rects|] == rects;
    }

    /** One chrome client callback. */
    method ReportOne(r: Report)
      requires Valid()
      modifies this`upload, this`page, damage, damage.rects
      ensures Valid() && View() == Apply(old(View()), r)
    {
      ApplyGrows(View(), r);
      match r
      case Repaint(content, rect) =>
        page := Changed(page, content, rect, fb.Length1, fb.Length0);
        damage.Add(rect);
      case Present(rect) =>
        upload := Unite(upload, rect);
    }

    /** Callbacks in the order they come. */
    method Report(rs: seq<Report>)
      requires Valid()
      modifies this`upload, this`page, damage, damage.rects
      ensures Valid() && View() == ApplyAll(old(View()), rs)
    {
      ghost var before := View();
      for i := 0 to |rs|
        invariant Valid() && View() == ApplyAll(before, rs[..i])
      {
        ApplyAllNext(before, rs, i);
        ReportOne(rs[i]);
      }
      assert rs[..|rs|] == rs;
    }

    /** Set every pixel of the clip to the page's, in place. */
    method PaintPixels(clip: IntRect)
      requires Valid() && FrameRect(fb.Length1, fb.Length0).Contains(clip) && !clip.Empty()
      modifies fb
      ensures Valid() && View() == old(View()).(fb := Painted(old(View()).fb, page, clip, fb.Length1, fb.Length0))
    {
      for y := clip.y to clip.y + clip.h
        invariant forall x', y' :: 0 <= x' < fb.Length1 && 0 <= y' < fb.Length0 ==>
                    fb[y', x'] == if clip.Has(x', y') && y' < y then page[y'][x'] else old(fb[y', x'])
      {
        for x := clip.x to clip.x + clip.w
          invariant forall x', y' :: 0 <= x' < fb.Length1 && 0 <= y' < fb.Length0 ==>
                      fb[y', x'] == if clip.Has(x', y') && (y' < y || (y' == y && x' < x)) then page[y'][x'] else old(fb[y', x'])
        {
          fb[y, x] := page[y][x];
        }
      }
      SameImage(Rows(fb), Painted(old(View()).fb, page, clip, fb.Length1, fb.Length0), fb.Length1, fb.Length0);
    }

    /** bib_render: true when a frame is ready, its box in dirtyBox. */
    method Render(force: bool, env: PaintEnv) returns (ready: bool)
      requires Valid()
      modifies this`upload, this`page, this`dirtyBox, damage, damage.rects, fb
      ensures Valid()
      ensures (View(), if ready then Some(dirtyBox) else None) == Surface.Render(old(View()), force, env)
      ensures !ready ==> dirtyBox == old(dirtyBox)
    {
      ready := false;
      if (force || damage.frameDirty || !upload.Empty()) && env.hasView {
        Report(env.layout);
        var dirty, pendingUpload := TakeSnapshot(force);
        if dirty != [] || !pendingUpload.Empty() {
          ready := PaintRects(dirty, pendingUpload, env);
        }
      }
    }

    /** What this frame paints and uploads; damage reported from here on is the
        next frame's. */
    method TakeSnapshot(force: bool) returns (dirty: seq<IntRect>, pendingUpload: IntRect)
      requires Valid()
      modifies this`upload, damage
      ensures dirty == DirtySnapshot(old(View()), force) && pendingUpload == UploadSnapshot(old(View()), force)
      ensures Valid() && View() == old(View()).Cleared()
    {
      var frame := FrameRect(fb.Length1, fb.Length0);
      dirty := [];
      if force {
        dirty := [frame];
      } else {
        ghost var slots := damage.Slots();
        for i := 0 to damage.count
          invariant dirty == Visible(slots[..i], frame)
        {
          assert slots[..i + 1][..i] == slots[..i] && slots[..i + 1][i] == damage.rects[i];
          var r := Intersection(damage.rects[i], frame);
          if !r.Empty() {
            dirty := dirty + [r];
          }
        }
        assert slots[..damage.count] == slots;
      }
      pendingUpload := if force then EMPTY else Intersection(upload, frame);
      damage.Clear();
      upload := EMPTY;
    }

    method PaintRects(dirty: seq<IntRect>, pendingUpload: IntRect, env: PaintEnv) returns (ready: bool)
      requires Valid() && AllInFrame(dirty, fb.Length1, fb.Length0)
      modifies this`upload, this`page, this`dirtyBox, damage, damage.rects, fb
      ensures Valid()
      ensures (View(), if ready then Some(dirtyBox) else None) == PaintLoop(old(View()), dirty, 0, EMPTY, pendingUpload, env)
      ensures !ready ==> dirtyBox == old(dirtyBox)
    {
      var i, bounds := PaintUntilFailure(dirty, env, pendingUpload);
      ready := i == |dirty|;
      if ready {
        dirtyBox := Unite(bounds, pendingUpload);
      } else {
        Rearm(dirty[i..], bounds, pendingUpload);
      }
    }

    method PaintUntilFailure(dirty: seq<IntRect>, env: PaintEnv, ghost pendingUpload: IntRect) returns (i: nat, bounds: IntRect)
      requires Valid() && AllInFrame(dirty, fb.Length1, fb.Length0)
      modifies this`upload, this`page, damage, damage.rects, fb
      ensures Valid() && (i == |dirty| || (i < |dirty| && i == env.failAt))
      ensures PaintLoop(View(), dirty, i, bounds, pendingUpload, env) == PaintLoop(old(View()), dirty, 0, EMPTY, pendingUpload, env)
    {
      i, bounds := 0, EMPTY;
      while i < |dirty| && i != env.failAt
        invariant i <= |dirty| && Valid() && AllInFrame(dirty, fb.Length1, fb.Length0)
        invariant PaintLoop(View(), dirty, i, bounds, pendingUpload, env) == PaintLoop(old(View()), dirty, 0, EMPTY, pendingUpload, env)
      {
        PaintLoopStep(View(), dirty, i, bounds, pendingUpload, env);
        PaintRect(dirty[i], env.During(i));
        bounds := Unite(bounds, dirty[i]);
        i := i + 1;
      }
    }

    /** paintFrameRect with the callbacks that arrive while it runs. */
    method PaintRect(clip: IntRect, reports: seq<Report>)
      requires Valid() && FrameRect(fb.Length1, fb.Length0).Contains(clip) && !clip.Empty()
      modifies this`upload, this`page, damage, damage.rects, fb
      ensures Valid() && View() == PaintOne(old(View()), clip, reports)
    {
      PaintPixels(clip);
      Report(reports);
    }

    /** A paint failed: nothing it left undone or unreported may be lost. */
    method Rearm(unpainted: seq<IntRect>, bounds: IntRect, pendingUpload: IntRect)
      requires Valid()
      modifies this`upload, damage, damage.rects
      ensures Valid() && View() == Rearmed(old(View()), unpainted, bounds, pendingUpload)
    {
      AddAllDamage(unpainted);
      upload := Unite(upload, pendingUpload);
      upload := Unite(upload, bounds);
    }

    /** bibScrollBlitImpl; the page's content has scrolled. */
    method ScrollBlit(c: ScrollCall)
      requires Valid()
      modifies this`upload, this`page, damage, damage.rects, fb
      ensures Valid() && View() == Surface.ScrollBlit(old(View()), c)
    {
      var frame := FrameRect(fb.Length1, fb.Length0);
      var region, dst := c.Region(frame), c.Dst(frame);
      page := Scrolled(page, c.content, region, dst, c.dx, c.dy, fb.Length1, fb.Length0);
      ShiftOrDamage(c, region, dst);
    }

    method ShiftOrDamage(c: ScrollCall, region: IntRect, dst: IntRect)
      requires Valid() && FrameRect(fb.Length1, fb.Length0).Contains(region)
      requires dst == Intersection(region.Moved(c.dx, c.dy), region)
      modifies this`upload, damage, damage.rects, fb
      ensures Valid() && View() == ScrollIn(old(View()), c, region, dst)
    {
      if region.Empty() {
        AddDamage(c.clip);
        return;
      }
      if dst.Empty() {
        AddDamage(region);
        return;
      }
      if damage.frameDirty {
        var swallowed := DamageContains(region);
        if swallowed {
          AddDamage(region);
          return;
        }
        CarryDamage(region, dst, c.dx, c.dy);
      }
      MovePixels(c, region, dst);
    }

    method DamageContains(region: IntRect) returns (b: bool)
      requires damage.Valid()
      ensures b == SomeContains(damage.Slots(), region)
    {
      for i := 0 to damage.count
        invariant forall k :: 0 <= k < i ==> !damage.Slots()[k].Contains(region)
      {
        if damage.rects[i].Contains(region) {
          assert damage.Slots()[i].Contains(region);
          return true;
        }
      }
      b := false;
    }

    method MovePixels(c: ScrollCall, region: IntRect, dst: IntRect)
      requires Valid() && !dst.Empty()
      requires FrameRect(fb.Length1, fb.Length0).Contains(dst)
      requires FrameRect(fb.Length1, fb.Length0).Contains(dst.Moved(-c.dx, -c.dy))
      modifies this`upload, damage, damage.rects, fb
      ensures Valid() && View() == Blit(old(View()), c, region, dst)
    {
      if !c.wrapped {
        AddDamage(FrameRect(fb.Length1, fb.Length0));
        return;
      }
      ShiftRows(fb, dst, c.dx, c.dy);
      upload := Unite(upload, region);
      AddAllDamage(Exposed(region, c.dx, c.dy));
    }

    /** Rebuild the damage list as the scroll carries it. */
    method CarryDamage(region: IntRect, dst: IntRect, dx: int, dy: int)
      requires Valid() && damage.frameDirty
      modifies damage, damage.rects
      ensures Valid() && View() == Carry(old(View()), region, dst, dx, dy)
    {
      var pending, n := CollectPending(region, dst, dx, dy);
      damage.Clear();
      AddAllDamage(pending[..n]);
    }

    /** The pending array has room for both copies of every slot. */
    method CollectPending(region: IntRect, dst: IntRect, dx: int, dy: int) returns (pending: array<IntRect>, n: nat)
      requires damage.Valid()
      ensures fresh(pending) && n <= pending.Length
      ensures pending[..n] == CarriedAll(damage.Slots(), region, dst, dx, dy)
    {
      ghost var slots := damage.Slots();
      pending, n := new IntRect[2 * MAX_DAMAGE_RECTS](_ => EMPTY), 0;
      for i := 0 to damage.count
        invariant fresh(pending) && pending.Length == 2 * MAX_DAMAGE_RECTS && n <= 2 * i
        invariant damage.Slots() == slots
        invariant pending[..n] == CarriedAll(slots[..i], region, dst, dx, dy)
      {
        assert slots[..i + 1][..i] == slots[..i] && slots[..i + 1][i] == damage.rects[i];
        n := AppendCarried(pending, n, damage.rects[i], region, dst, dx, dy);
      }
      assert slots[..damage.count] == slots;
    }

    static method AppendCarried(pending: array<IntRect>, n: nat, r: IntRect, region: IntRect, dst: IntRect, dx: int, dy: int)
      returns (n': nat)
      requires n + 2 <= pending.Length
      modifies pending
      ensures n <= n' <= n + 2
      ensures pending[..n'] == old(pending[..n]) + Carried(r, region, dst, dx, dy)
    {
      n' := n;
      var moving := Intersection(r, region);
      if moving.Empty() {
        pending[n'] := r;
        n' := n' + 1;
        return;
      }
      if moving != r {
        pending[n'] := r;
        n' := n' + 1;
      }
      moving := Intersection(moving.Moved(dx, dy), dst);
      if !moving.Empty() {
        pending[n'] := moving;
        n' := n' + 1;
      }
    }

    /** bibPushFrameIfDirty with the worker's synchronous bibFrame. */
    method PushFrameIfDirty(env: PaintEnv, ghost toWorker: seq<nat>, ghost canvas: Canvas)
      requires Valid()
      modifies this, damage, damage.rects, fb
      ensures Valid() && fb == old(fb)
      ensures Link(toWorker, canvas) == Push(old(Link(toWorker, canvas)), env)
    {
      if !inFlight {
        ghost var before := Link(toWorker, canvas);
        var ready := Render(!firstFramePushed, env);
        if ready {
          firstFramePushed := true;
          if dirtyBox.w > 0 && dirtyBox.h > 0 {
            inFlight := true;
            PushPosts(before, env, View(), dirtyBox);
            BibFrame(dirtyBox, toWorker, canvas);
          }
        }
      }
    }

    /** engine-worker.js bibFrame: copy the band into the transfer buffer, give
        the buffer away. */
    method BibFrame(box: IntRect, ghost toWorker: seq<nat>, ghost canvas: Canvas)
      requires inFlight && box.h >= 0
      modifies this`frameBuf, this`posted
      ensures Link(toWorker, canvas) == Pipeline.BibFrame(old(Link(toWorker, canvas)), box)
    {
      var stride := fb.Length1 * 4;
      var capacity := fb.Length0 * stride;
      if frameBuf.None? || frameBuf.value < capacity {
        frameBuf := Some(capacity);
      }
      var rows := CopyBand(box.y, box.h);
      var buf := frameBuf.value;
      frameBuf := None;
      posted := posted + [FrameMsg(buf, fb.Length1, fb.Length0, stride, box.x, box.y, box.w, box.h, rows)];
    }

    /** Copy n full-width rows from row y0 out of the live framebuffer. */
    method CopyBand(y0: int, n: nat) returns (rows: Image)
      ensures rows == Band(Rows(fb), fb.Length1, y0, n)
    {
      rows := [];
      for k := 0 to n
        invariant IsImage(rows, fb.Length1, k)
        invariant forall x, y :: 0 <= x < fb.Length1 && 0 <= y < k ==> rows[y][x] == At(Rows(fb), x, y + y0)
      {
        var row: seq<Pixel> := [];
        for x := 0 to fb.Length1
          invariant |row| == x && forall x' :: 0 <= x' < x ==> row[x'] == At(Rows(fb), x', k + y0)
        {
          row := row + [if 0 <= y0 + k < fb.Length0 then fb[y0 + k, x] else BLANK];
        }
        rows := rows + [row];
      }
      SameImage(rows, Band(Rows(fb), fb.Length1, y0, n), fb.Length1, n);
    }

    /** engine-worker.js frameReturned, and bib_present_done. */
    method FrameReturned(bufLen: nat, ghost toWorker: seq<nat>, ghost canvas: Canvas)
      requires toWorker != [] && toWorker[0] == bufLen
      modifies this`frameBuf, this`inFlight
      ensures Link(toWorker[1..], canvas) == Pipeline.Return(old(Link(toWorker, canvas)))
    {
      if bufLen > 0 {
        frameBuf := Some(bufLen);
      }
      inFlight := false;
    }

    /** bib_set_viewport: a new buffer, and everything stale. */
    method SetViewport(w: int, h: int, newPage: (int, int) -> Pixel, garbage: (int, int) -> Pixel)
      requires Valid()
      modifies this`fb, this`page, this`upload, this`dirtyBox, damage, damage.rects
      ensures Valid() && (fb == old(fb) || fresh(fb))
      ensures View() == Resize(old(View()), w, h, newPage, garbage)
    {
      if w < 1 || h < 1 || w > 8192 || h > 8192 || (w == fb.Length1 && h == fb.Length0) {
        return;
      }
      fb := NewPixels(w, h, garbage);
      page := Build(w, h, newPage);
      damage.Clear();
      upload := EMPTY;
      dirtyBox := FrameRect(w, h);
      AddDamage(FrameRect(w, h));
    }

    /** A buffer with whatever the allocator left in it. */
    method NewPixels(w: nat, h: nat, garbage: (int, int) -> Pixel) returns (pixels: array2<Pixel>)
      ensures fresh(pixels) && pixels.Length1 == w && pixels.Length0 == h
      ensures Rows(pixels) == Build(w, h, garbage)
    {
      pixels := new Pixel[h, w]((y, x) => garbage(x, y));
      SameImage(Rows(pixels), Build(w, h, garbage), w, h);
    }

    /** bibRunReadback. */
    method Readback(env: PaintEnv, ghost toWorker: seq<nat>, ghost canvas: Canvas)
      requires Valid()
      modifies this`upload, this`page, this`dirtyBox, damage, damage.rects, fb
      ensures Valid()
      ensures Link(toWorker, canvas) == RequestReadback(old(Link(toWorker, canvas)), env)
    {
      ghost var before := Link(toWorker, canvas);
      var ready := Render(true, env);
      ReadbackUploads(before, env, View(), if ready then Some(dirtyBox) else None);
      if ready {
        upload := Unite(upload, FrameRect(fb.Length1, fb.Length0));
      }
    }
  }
}
