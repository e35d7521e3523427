/**
 The MPro display path from a damaged rectangle to the transfer that is queued for it: the copy into the
 frame, and the three ways in which request_update hands over a part of it.
 */
module UpdateSlice {
  import opened FrameCopy
  import opened Grid
  import opened Orientation
  import opened PixelFormat

  // ---- Slices of a frame ---------------------------------------------------------------------------

  /** `cells` is the rectangle r of a frame whose rows are `width` cells long, row by row. */
  ghost predicate IsSlice(cells: seq<bv16>, data: seq<bv16>, width: int, height: int, r: Rect)
    requires ProperRect(width, height, r) && width * height <= |data|
  {
    && |cells| == (r.x1 - r.x0) * (r.y1 - r.y0)
    && forall p :: Contains(r, p) ==> SliceAt(cells, data, width, height, r, p)
  }

  lemma SliceBounds(width: int, height: int, r: Rect, p: Point)
    requires ProperRect(width, height, r) && Contains(r, p)
    ensures 0 <= Packed(r, p) < (r.x1 - r.x0) * (r.y1 - r.y0)
    ensures 0 <= Offset(width, p) < width * height
  {
    OffsetBounds(r.x1 - r.x0, r.y1 - r.y0, Point(p.x - r.x0, p.y - r.y0));
    OffsetBounds(width, height, p);
  }

  ghost predicate SliceAt(cells: seq<bv16>, data: seq<bv16>, width: int, height: int, r: Rect, p: Point)
    requires ProperRect(width, height, r) && width * height <= |data| && Contains(r, p)
    requires |cells| == (r.x1 - r.x0) * (r.y1 - r.y0)
  {
    SliceBounds(width, height, r, p);
    cells[Packed(r, p)] == data[Offset(width, p)]
  }

  /** There is only one such sequence. */
  lemma SliceDetermined(a: seq<bv16>, b: seq<bv16>, data: seq<bv16>, width: int, height: int, r: Rect)
    requires ProperRect(width, height, r) && width * height <= |data|
    requires IsSlice(a, data, width, height, r) && IsSlice(b, data, width, height, r)
    ensures a == b
  {
    forall k | 0 <= k < |a| ensures a[k] == b[k] {
      var q := OffsetOnto(r.x1 - r.x0, r.y1 - r.y0, k);
      var p := Point(q.x + r.x0, q.y + r.y0);
      assert Contains(r, p) && Packed(r, p) == k;
      assert SliceAt(a, data, width, height, r, p) && SliceAt(b, data, width, height, r, p);
    }
  }

  /** What a panel shows after a transfer for r has been painted over it. */
  ghost predicate Painted(before: seq<bv16>, after: seq<bv16>, cells: seq<bv16>, width: int, height: int, r: Rect)
    requires ProperRect(width, height, r) && |before| == |after| == width * height
    requires |cells| == (r.x1 - r.x0) * (r.y1 - r.y0)
  {
    forall p :: Inside(width, height, p) ==>
      (OffsetBounds(width, height, p);
       after[Offset(width, p)] ==
         if Contains(r, p) then (SliceBounds(width, height, r, p); cells[Packed(r, p)])
         else before[Offset(width, p)])
  }

  /** If the panel was right outside r, painting the slice of r makes it right everywhere. */
  lemma PaintingSliceCompletes(before: seq<bv16>, after: seq<bv16>, cells: seq<bv16>, data: seq<bv16>,
                               width: int, height: int, r: Rect)
    requires ProperRect(width, height, r) && |before| == |after| == width * height <= |data|
    requires IsSlice(cells, data, width, height, r) && Painted(before, after, cells, width, height, r)
    requires forall p :: Inside(width, height, p) && !Contains(r, p) ==> SameAt(before, data, width, height, p)
    ensures after == data[..width * height]
  {
    forall k | 0 <= k < |after| ensures after[k] == data[k] {
      var p := OffsetOnto(width, height, k);
      if Contains(r, p) {
        assert SliceAt(cells, data, width, height, r, p);
      } else {
        assert SameAt(before, data, width, height, p);
      }
    }
  }

  ghost predicate SameAt(a: seq<bv16>, b: seq<bv16>, width: int, height: int, p: Point)
    requires Inside(width, height, p) && width * height <= |a| && width * height <= |b|
  {
    OffsetBounds(width, height, p);
    a[Offset(width, p)] == b[Offset(width, p)]
  }

  // ---- request_update ------------------------------------------------------------------------------

  /** What leaves request_update: nothing, an error, or a transfer for the parent driver. */
  datatype Outcome =
    | Ignored
    | Invalid
    | NoMemory
    | Full(cells: seq<bv16>)
    | Partial(x: int, fy: int, w: int, h: int, cells: seq<bv16>)

  /** mpro_send_partial_frame: counts y from the bottom of the panel model. */
  function SendPartial(modelHeight: int, cells: seq<bv16>, x: int, y: int, w: int, h: int): Outcome {
    if w == 0 || h == 0 then Invalid
    else
      var fy := modelHeight - 1 - (y + h);
      if fy < 0 then Invalid else Partial(x, fy, w, h, cells)
  }

  /** A run of whole rows is a slice. */
  lemma RowsAreSlice(data: seq<bv16>, width: int, height: int, y: int, h: int)
    requires 0 < width && 0 <= y && 0 < h && y + h <= height && width * height <= |data|
    ensures 0 <= y * width <= y * width + width * h <= |data|
    ensures IsSlice(data[y * width..y * width + width * h], data, width, height, Rect(0, y, width, y + h))
  {
    var r := Rect(0, y, width, y + h);
    assert (y + h) * width <= height * width;
    assert y * width + width * h == (y + h) * width;
    var cells := data[y * width..y * width + width * h];
    forall p | Contains(r, p) ensures SliceAt(cells, data, width, height, r, p) {
      SliceBounds(width, height, r, p);
      assert (p.y - y) * width == p.y * width - y * width;
    }
  }

  /** The first i rows of the bounce buffer are filled. */
  ghost predicate RowsFilled(bounce: seq<bv16>, data: seq<bv16>, width: int, height: int, r: Rect, i: int)
    requires ProperRect(width, height, r) && width * height <= |data|
    requires |bounce| == (r.x1 - r.x0) * (r.y1 - r.y0)
  {
    forall p :: Contains(r, p) && p.y - r.y0 < i ==> SliceAt(bounce, data, width, height, r, p)
  }

  /** Row i of the slice is filled, and the rows before it are as they were. */
  ghost predicate RowCopied(before: seq<bv16>, after: seq<bv16>, data: seq<bv16>, width: int, r: Rect, i: int) {
    var w, start, source := r.x1 - r.x0, i * (r.x1 - r.x0), (r.y0 + i) * width + r.x0;
    && 0 <= w && 0 <= start && start + w <= |before| == |after| && 0 <= source && source + w <= |data|
    && after[..start] == before[..start]
    && after[start..start + w] == data[source..source + w]
  }

  lemma EarlierRow(before: seq<bv16>, after: seq<bv16>, data: seq<bv16>, width: int, height: int, r: Rect, i: int,
                   p: Point)
    requires ProperRect(width, height, r) && width * height <= |data| && 0 <= i < r.y1 - r.y0
    requires |before| == |after| == (r.x1 - r.x0) * (r.y1 - r.y0) && RowCopied(before, after, data, width, r, i)
    requires Contains(r, p) && p.y - r.y0 < i && SliceAt(before, data, width, height, r, p)
    ensures SliceAt(after, data, width, height, r, p)
  {
    var w := r.x1 - r.x0;
    SliceBounds(width, height, r, p);
    assert Packed(r, p) < i * w by {
      RowsApart(w, Point(p.x - r.x0, p.y - r.y0), Point(0, i));
    }
    assert after[..i * w][Packed(r, p)] == before[..i * w][Packed(r, p)];
  }

  lemma ThisRow(before: seq<bv16>, after: seq<bv16>, data: seq<bv16>, width: int, height: int, r: Rect, i: int,
                p: Point)
    requires ProperRect(width, height, r) && width * height <= |data| && 0 <= i < r.y1 - r.y0
    requires |before| == |after| == (r.x1 - r.x0) * (r.y1 - r.y0) && RowCopied(before, after, data, width, r, i)
    requires Contains(r, p) && p.y - r.y0 == i
    ensures SliceAt(after, data, width, height, r, p)
  {
    var w, start, source, j := r.x1 - r.x0, i * (r.x1 - r.x0), (r.y0 + i) * width + r.x0, p.x - r.x0;
    SliceBounds(width, height, r, p);
    assert Packed(r, p) == start + j;
    assert p.y == r.y0 + i;
    assert Offset(width, p) == source + j;
    assert after[start..start + w][j] == data[source..source + w][j];
  }

  lemma RowAdded(before: seq<bv16>, after: seq<bv16>, data: seq<bv16>, width: int, height: int, r: Rect, i: int)
    requires ProperRect(width, height, r) && width * height <= |data| && 0 <= i < r.y1 - r.y0
    requires |before| == |after| == (r.x1 - r.x0) * (r.y1 - r.y0) && RowCopied(before, after, data, width, r, i)
    requires RowsFilled(before, data, width, height, r, i)
    ensures RowsFilled(after, data, width, height, r, i + 1)
  {
    forall p | Contains(r, p) && p.y - r.y0 < i + 1 ensures SliceAt(after, data, width, height, r, p) {
      if p.y - r.y0 < i {
        EarlierRow(before, after, data, width, height, r, i, p);
      } else {
        ThisRow(before, after, data, width, height, r, i, p);
      }
    }
  }

  lemma RowBounds(width: int, height: int, r: Rect, i: int)
    requires ProperRect(width, height, r) && 0 <= i < r.y1 - r.y0
    ensures 0 <= i * (r.x1 - r.x0) && i * (r.x1 - r.x0) + (r.x1 - r.x0) <= (r.x1 - r.x0) * (r.y1 - r.y0)
    ensures 0 <= (r.y0 + i) * width + r.x0 && (r.y0 + i) * width + r.x0 + (r.x1 - r.x0) <= width * height
  {
    SliceBounds(width, height, r, Point(r.x0, r.y0 + i));
    SliceBounds(width, height, r, Point(r.x1 - 1, r.y0 + i));
  }

  /** The bounce path: rows of r one after the other. */
  method Bounce(data: array<bv16>, width: int, height: int, r: Rect) returns (bounce: array<bv16>)
    requires ProperRect(width, height, r) && width * height <= data.Length
    ensures fresh(bounce) && IsSlice(bounce[..], data[..], width, height, r)
  {
    var w, h := r.x1 - r.x0, r.y1 - r.y0;
    MulNonNegative(w, h);
    bounce := new bv16[w * h];
    var i := 0;
    while i < h
      invariant 0 <= i <= h
      invariant RowsFilled(bounce[..], data[..], width, height, r, i)
    {
      ghost var before := bounce[..];
      RowBounds(width, height, r, i);
      CopyCells(bounce, i * w, data, (r.y0 + i) * width + r.x0, w);
      RowAdded(before, bounce[..], data[..], width, height, r, i);
      i := i + 1;
    }
    FilledIsSlice(bounce[..], data[..], width, height, r);
  }

  lemma FilledIsSlice(bounce: seq<bv16>, data: seq<bv16>, width: int, height: int, r: Rect)
    requires ProperRect(width, height, r) && width * height <= |data|
    requires |bounce| == (r.x1 - r.x0) * (r.y1 - r.y0) && RowsFilled(bounce, data, width, height, r, r.y1 - r.y0)
    ensures IsSlice(bounce, data, width, height, r)
  {
    forall p | Contains(r, p) ensures SliceAt(bounce, data, width, height, r, p) {
      assert p.y - r.y0 < r.y1 - r.y0;
    }
  }

  /** memcpy. */
  method CopyCells(target: array<bv16>, start: int, data: array<bv16>, source: int, n: int)
    requires target != data && 0 <= n && 0 <= start && start + n <= target.Length
    requires 0 <= source && source + n <= data.Length
    modifies target
    ensures target[..start] == old(target[..start])
    ensures target[start..start + n] == data[source..source + n]
    ensures target[start + n..] == old(target[start + n..])
  {
    forall j | 0 <= j < n {
      target[start + j] := data[source + j];
    }
  }

  // ---- The display object ----------------------------------------------------------------------------

  /** Astray: the copy reads outside the framebuffer or writes outside its temporary buffer. */
  datatype CopyResult = Copied | BadClip | OutOfMemory | Astray

  function ClampRect(width: int, height: int, r: Rect): Rect {
    Rect(Max(r.x0, 0), Max(r.y0, 0), Min(r.x1, width), Min(r.y1, height))
  }

  /** The pixels of the frame that lie in r, and no others. */
  lemma ClampIsIntersection(width: int, height: int, r: Rect, p: Point)
    ensures Contains(ClampRect(width, height, r), p) <==> Contains(r, p) && Inside(width, height, p)
  {}

  const INT_MAX := 0x7fff_ffff
  const INT_MIN := -0x8000_0000

  /** The coordinates are C ints. */
  predicate IsInt(r: Rect) {
    INT_MIN <= r.x0 <= INT_MAX && INT_MIN <= r.y0 <= INT_MAX && INT_MIN <= r.x1 <= INT_MAX && INT_MIN <= r.y1 <= INT_MAX
  }

  ghost predicate AllInts(damage: seq<Rect>) { forall i :: 0 <= i < |damage| ==> IsInt(damage[i]) }

  /** r lies in q, side by side. */
  predicate Within(r: Rect, q: Rect) { q.x0 <= r.x0 && q.y0 <= r.y0 && r.x1 <= q.x1 && r.y1 <= q.y1 }

  ghost predicate AllWithin(damage: seq<Rect>, q: Rect) { forall i :: 0 <= i < |damage| ==> Within(damage[i], q) }

  /** q is the least rectangle in which all the damage lies. */
  ghost predicate IsHull(q: Rect, damage: seq<Rect>) {
    AllWithin(damage, q) && IsLeast(q, damage)
  }

  ghost predicate IsLeast(q: Rect, damage: seq<Rect>) {
    forall other: Rect :: AllWithin(damage, other) ==> Within(q, other)
  }

  lemma WithinSnoc(damage: seq<Rect>, d: Rect, before: Rect, bb: Rect)
    requires AllWithin(damage, before) && Within(before, bb) && Within(d, bb)
    ensures AllWithin(damage + [d], bb)
  {
    var longer := damage + [d];
    forall i | 0 <= i < |longer| ensures Within(longer[i], bb) {
      if i < |damage| {
        assert Within(damage[i], before);
      }
    }
  }

  ghost predicate InDamage(damage: seq<Rect>, p: Point) {
    exists i :: 0 <= i < |damage| && Contains(damage[i], p)
  }

  /** Whether a copy of the clip stays inside the buffers. */
  ghost predicate StaysInside(fb: Framebuffer, clip: Rect, rot: Rotation, width: int) {
    Holds(fb, clip) && (rot != UPRIGHT ==> TempFits(clip.x1 - clip.x0, clip.y1 - clip.y0, width))
  }

  /**
   pipe_enable asks for a copy of the whole framebuffer.  When a rotation set through sysfs has exchanged the
   frame's dimensions since, the framebuffer is h x w and the clip clamps to a square; a rotated copy of it
   stays in its temporary buffer exactly on a frame that is not wider than high, or is one row high.
   */
  lemma StaleEnable(w: int, h: int)
    requires 0 < w && 0 < h
    ensures ClampRect(w, h, Whole(h, w)) == Whole(Min(w, h), Min(w, h))
    ensures TempFits(Min(w, h), Min(w, h), w) <==> w <= h || h == 1
    ensures ClampRect(800, 480, Whole(480, 800)) == Whole(480, 480) && Offset(800, Point(0, 479)) > 480 * 480
  {}

  /** pipe_update asks for the whole frame; that stays inside exactly if it is not higher than wide, or one row high. */
  lemma StaleUpdate(w: int, h: int, fb: Framebuffer)
    requires 0 < w && 0 < h && fb.pitch == h && PixelCount(fb) == h * w
    ensures Holds(fb, Whole(w, h)) <==> h <= w || h == 1
  {
    HoldsExact(fb, Whole(w, h));
    SwappedArea(w, h);
  }

  class MproDrm {
    const width: nat
    const height: nat
    const modelHeight: nat
    const data: array<bv16>
    var blanked: bool
    var disablePartial: bool

    ghost predicate Valid()
      reads this
    {
      0 < width && 0 < height && width * height <= data.Length
    }

    constructor (w: nat, h: nat, model: nat, margin: nat, whole: bool)
      requires 0 < w && 0 < h
      ensures Valid() && width == w && height == h && modelHeight == model && data.Length == w * h + margin && fresh(data)
      ensures !blanked && disablePartial == whole && forall k :: 0 <= k < data.Length ==> data[k] == 0
    {
      width, height, modelHeight, blanked, disablePartial := w, h, model, false, whole;
      data := new bv16[w * h + margin](_ => 0);
    }

    /** mpro_drm__copy_frame; `memory` says whether the temporary buffer can be had. */
    method CopyFrame(fb: Framebuffer, lut: Gamma, clip: Rect, rot: Rotation, memory: bool) returns (res: CopyResult)
      requires Valid() && ValidGamma(lut)
      modifies data
      ensures res == BadClip <==> !ProperRect(width, height, clip)
      ensures res == OutOfMemory <==> ProperRect(width, height, clip) && rot != UPRIGHT && !memory
      ensures res == Astray <==>
                ProperRect(width, height, clip) && (rot != UPRIGHT ==> memory) && !StaysInside(fb, clip, rot, width)
      ensures res == BadClip || res == OutOfMemory ==> data[..] == old(data[..])
      ensures res == Copied ==> Holds(fb, clip) && 0 <= Corner(width, clip)
      ensures res == Copied && rot == UPRIGHT ==>
                Drawn(old(data[..]), data[..], width, height, fb, lut, clip, clip.x0, clip.y1)
      ensures res == Copied && rot != UPRIGHT ==> TurnedPicture(old(data[..]), data[..], width, fb, lut, clip, rot)
      ensures data[width * height..] == old(data[width * height..])
    {
      if clip.x1 > width || clip.y1 > height || clip.x0 < 0 || clip.y0 < 0 {
        return BadClip;
      }
      if clip.x1 <= clip.x0 || clip.y1 <= clip.y0 {
        return BadClip;
      }
      OffsetBounds(width, height, Point(clip.x0, clip.y0));
      var inside;
      if rot != UPRIGHT {
        if !memory {
          return OutOfMemory;
        }
        inside := CopyTurned(data, width, height, fb, lut, clip, rot);
      } else {
        inside := ConvertRows(data, width, height, fb, lut, clip);
      }
      return if inside then Copied else Astray;
    }

    /** The rectangle that is really transferred. */
    function Requested(x: nat, y: nat, w: nat, h: nat): Rect
      reads this
    {
      if disablePartial then Whole(width, height) else Rect(x, y, x + w, y + h)
    }

    /** mpro_drm__request_update; `memory` says whether the bounce buffer can be had. */
    method RequestUpdate(x: nat, y: nat, w: nat, h: nat, force: bool, memory: bool) returns (o: Outcome)
      requires Valid() && x + w <= width && y + h <= height
      ensures o == Ignored <==> blanked && !force
      ensures o.Full? <==> o != Ignored && Requested(x, y, w, h) == Whole(width, height)
      ensures o.Full? ==> o.cells == data[..]
      ensures disablePartial && o != Ignored ==> o.Full?
      ensures o.Partial? <==> o != Ignored && !o.Full? && 0 < w && 0 < h && y + h < modelHeight &&
                              (memory || (x == 0 && w == width))
      ensures o.Partial? ==> (o.x, o.fy, o.w, o.h) == (x, modelHeight - 1 - (y + h), w, h)
      ensures o.Partial? ==> IsSlice(o.cells, data[..], width, height, Rect(x, y, x + w, y + h))
      ensures o == NoMemory <==>
                o != Ignored && !o.Full? && !(x == 0 && w == width) && !memory
    {
      if blanked && !force {
        return Ignored;
      }
      var rx, ry, rw, rh := x, y, w, h;
      if disablePartial {
        rx, ry, rw, rh := 0, 0, width, height;
      }
      if rx == 0 && ry == 0 && rw == width && rh == height {
        return Full(data[..]);
      }
      if rw == width && rx == 0 {
        if rh == 0 {
          return SendPartial(modelHeight, [], rx, ry, rw, rh);
        }
        RowsAreSlice(data[..], width, height, ry, rh);
        return SendPartial(modelHeight, data[..][ry * width..ry * width + rw * rh], rx, ry, rw, rh);
      }
      if !memory {
        return NoMemory;
      }
      if rw == 0 || rh == 0 {
        return SendPartial(modelHeight, [], rx, ry, rw, rh);
      }
      var bounce := Bounce(data, width, height, Rect(rx, ry, rx + rw, ry + rh));
      return SendPartial(modelHeight, bounce[..], rx, ry, rw, rh);
    }

    /** mpro_drm__fb_mark_dirty: a failed copy or an empty rectangle requests nothing. */
    method MarkDirty(fb: Framebuffer, lut: Gamma, rect: Rect, rot: Rotation, memory: bool)
      returns (safe: Rect, res: CopyResult, o: Outcome)
      requires Valid() && ValidGamma(lut)
      modifies data
      ensures forall p :: Contains(safe, p) <==> Contains(rect, p) && Inside(width, height, p)
      ensures safe == ClampRect(width, height, rect)
      ensures res == BadClip <==> !ProperRect(width, height, safe)
      ensures res == OutOfMemory <==> ProperRect(width, height, safe) && rot != UPRIGHT && !memory
      ensures res == Astray <==>
                ProperRect(width, height, safe) && (rot != UPRIGHT ==> memory) && !StaysInside(fb, safe, rot, width)
      ensures res == BadClip || res == OutOfMemory ==> data[..] == old(data[..])
      ensures res == Copied ==> Holds(fb, safe) && 0 <= Corner(width, safe)
      ensures res == Copied && rot == UPRIGHT ==>
                Drawn(old(data[..]), data[..], width, height, fb, lut, safe, safe.x0, safe.y1)
      ensures res == Copied && rot != UPRIGHT ==> TurnedPicture(old(data[..]), data[..], width, fb, lut, safe, rot)
      ensures data[width * height..] == old(data[width * height..])
      ensures res != Copied ==> o == Ignored
      ensures disablePartial && o != Ignored ==> o.Full?
      ensures o.Full? ==> o.cells == data[..]
      ensures o.Partial? ==> ProperRect(width, height, safe) && IsSlice(o.cells, data[..], width, height, safe)
      ensures res == Copied && memory ==>
                (o.Full? || o.Partial? <==>
                  !blanked && (Requested(safe.x0, safe.y0, safe.x1 - safe.x0, safe.y1 - safe.y0) == Whole(width, height)
                               || safe.y1 < modelHeight))
    {
      safe := ClampRect(width, height, rect);
      forall p ensures Contains(safe, p) <==> Contains(rect, p) && Inside(width, height, p) {
        ClampIsIntersection(width, height, rect, p);
      }
      o := Ignored;
      if rect.x1 <= rect.x0 || rect.y1 <= rect.y0 {
        res := BadClip;
        return;
      }
      if safe.x1 <= safe.x0 || safe.y1 <= safe.y0 {
        res := BadClip;
        return;
      }
      res := CopyFrame(fb, lut, safe, rot, memory);
      if res != Copied {
        return;
      }
      o := RequestUpdate(safe.x0, safe.y0, safe.x1 - safe.x0, safe.y1 - safe.y0, false, memory);
    }

    /** The loop of pipe_update over the damage iterator. */
    method Bound(damage: seq<Rect>) returns (bb: Rect)
      requires AllInts(damage)
      ensures damage != [] ==> IsHull(bb, damage)
    {
      bb := Rect(INT_MAX, INT_MAX, INT_MIN, INT_MIN);
      for i := 0 to |damage|
        invariant AllWithin(damage[..i], bb)
        invariant bb.x0 <= INT_MAX && bb.y0 <= INT_MAX && INT_MIN <= bb.x1 && INT_MIN <= bb.y1
        invariant if i == 0 then bb == Rect(INT_MAX, INT_MAX, INT_MIN, INT_MIN) else IsLeast(bb, damage)
      {
        ghost var before := bb;
        var d := damage[i];
        assert IsInt(d);
        bb := Rect(Min(bb.x0, d.x0), Min(bb.y0, d.y0), Max(bb.x1, d.x1), Max(bb.y1, d.y1));
        WithinSnoc(damage[..i], d, before, bb);
        assert damage[..i] + [d] == damage[..i + 1];
        forall other: Rect | AllWithin(damage, other) ensures Within(bb, other) {
          assert Within(d, other);
        }
      }
      assert damage[..|damage|] == damage;
    }

    /**
     mpro_drm__pipe_update with a mapped framebuffer: the damage as one rectangle, or the whole frame if it is
     rotated, goes through mark_dirty; without damage nothing does.
     */
    method PipeUpdate(fb: Framebuffer, lut: Gamma, damage: seq<Rect>, rot: Rotation, memory: bool)
      returns (bb: Rect, safe: Rect, res: CopyResult, o: Outcome)
      requires Valid() && ValidGamma(lut) && AllInts(damage)
      modifies data
      ensures damage == [] ==> res == BadClip && o == Ignored
      ensures damage != [] ==> if rot == UPRIGHT then IsHull(bb, damage) else bb == Whole(width, height)
      ensures damage != [] ==> forall p :: Contains(safe, p) <==> Contains(bb, p) && Inside(width, height, p)
      ensures damage != [] && rot == UPRIGHT ==> (res == Copied <==> ProperRect(width, height, safe) && Holds(fb, safe))
      ensures damage != [] && rot != UPRIGHT ==> (res == Copied <==> memory && Holds(fb, Whole(width, height)))
      ensures res == Copied ==> ProperRect(width, height, safe) && Holds(fb, safe) && 0 <= Corner(width, safe)
      ensures res == Copied && rot == UPRIGHT ==>
                Drawn(old(data[..]), data[..], width, height, fb, lut, safe, safe.x0, safe.y1)
      ensures res == Copied && rot != UPRIGHT ==> TurnedPicture(old(data[..]), data[..], width, fb, lut, safe, rot)
      ensures res == BadClip || res == OutOfMemory ==> data[..] == old(data[..])
      ensures o.Full? ==> o.cells == data[..]
      ensures o.Partial? ==> ProperRect(width, height, safe) && IsSlice(o.cells, data[..], width, height, safe)
    {
      bb := Bound(damage);
      safe, res, o := bb, BadClip, Ignored;
      if rot != UPRIGHT {
        bb := Rect(0, 0, width, height);
      }
      if damage != [] {
        safe, res, o := MarkDirty(fb, lut, bb, rot, memory);
      }
    }
  }

  /** Every pixel of the frame is that pixel of the framebuffer. */
  ghost predicate FrameShows(data: seq<bv16>, width: int, height: int, fb: Framebuffer, lut: Gamma)
    requires 0 < width && 0 < height && width * height <= |data| && Holds(fb, Whole(width, height)) && ValidGamma(lut)
  {
    forall p :: Inside(width, height, p) ==> ShowsAt(data, width, height, fb, lut, p)
  }

  ghost predicate ShowsAt(data: seq<bv16>, width: int, height: int, fb: Framebuffer, lut: Gamma, p: Point)
    requires Inside(width, height, p) && width * height <= |data| && Holds(fb, Whole(width, height)) && ValidGamma(lut)
  {
    OffsetBounds(width, height, p);
    assert Contains(Whole(width, height), p);
    data[Offset(width, p)] == MproPixel(fb, lut, p)
  }

  /**
   Damage tracking loses nothing: if the frame showed the old framebuffer and the new one differs from it only
   where damage is reported, then after an upright update the frame shows the new one.
   */
  lemma FrameFollows(before: seq<bv16>, after: seq<bv16>, width: int, height: int, old': Framebuffer, fb: Framebuffer,
                     lut: Gamma, damage: seq<Rect>, bb: Rect, safe: Rect)
    requires 0 < width && 0 < height && width * height <= |before| == |after| && ValidGamma(lut)
    requires Holds(old', Whole(width, height)) && Holds(fb, Whole(width, height)) && Holds(fb, safe)
    requires FrameShows(before, width, height, old', lut)
    requires forall p :: Inside(width, height, p) && !InDamage(damage, p) ==> SamePixel(old', fb, lut, width, height, p)
    requires IsHull(bb, damage) && forall p :: Contains(safe, p) <==> Contains(bb, p) && Inside(width, height, p)
    requires Drawn(before, after, width, height, fb, lut, safe, safe.x0, safe.y1)
    ensures FrameShows(after, width, height, fb, lut)
  {
    forall p | Inside(width, height, p) ensures ShowsAt(after, width, height, fb, lut, p) {
      assert DrawnAt(before, after, width, height, fb, lut, safe, safe.x0, safe.y1, p);
      assert ShowsAt(before, width, height, old', lut, p);
      if InDamage(damage, p) {
        var i :| 0 <= i < |damage| && Contains(damage[i], p);
        assert Within(damage[i], bb);
      } else {
        assert SamePixel(old', fb, lut, width, height, p);
      }
    }
  }

  ghost predicate SamePixel(a: Framebuffer, b: Framebuffer, lut: Gamma, width: int, height: int, p: Point)
    requires Inside(width, height, p) && ValidGamma(lut)
    requires Holds(a, Whole(width, height)) && Holds(b, Whole(width, height))
  {
    assert Contains(Whole(width, height), p);
    MproPixel(a, lut, p) == MproPixel(b, lut, p)
  }

  /**
   From damage to panel: if the panel showed the old frame, the frame changed only inside clip, and the
   transfer is the slice of clip, then the panel shows the new frame.
   */
  lemma PanelFollowsFrame(oldData: seq<bv16>, newData: seq<bv16>, width: int, height: int, fb: Framebuffer, lut: Gamma,
                          clip: Rect, cells: seq<bv16>, shown: seq<bv16>, after: seq<bv16>)
    requires 0 < width && 0 < height && ProperRect(width, height, clip) && Holds(fb, clip) && ValidGamma(lut)
    requires width * height <= |oldData| == |newData|
    requires Drawn(oldData, newData, width, height, fb, lut, clip, clip.x0, clip.y1)
    requires IsSlice(cells, newData, width, height, clip)
    requires |shown| == |after| == width * height && shown == oldData[..width * height]
    requires Painted(shown, after, cells, width, height, clip)
    ensures after == newData[..width * height]
    ensures newData[width * height..] == oldData[width * height..]
  {
    forall p | Inside(width, height, p) && !Contains(clip, p) ensures SameAt(shown, newData, width, height, p) {
      assert DrawnAt(oldData, newData, width, height, fb, lut, clip, clip.x0, clip.y1, p);
      OffsetBounds(width, height, p);
    }
    PaintingSliceCompletes(shown, after, cells, newData, width, height, clip);
  }
}
