/** The two buffer-to-buffer blits: rotate_buffer of the MPro driver and blit_rect of the Beada driver. */
module PixelBlits {
  import opened Grid
  import opened Orientation
  import opened PixelFormat

  // ---- What a blit writes --------------------------------------------------------------------------

  /** Every cell of the turned image holds the source pixel that the display map sends there. */
  ghost predicate IsTurned<T>(dst: seq<T>, src: seq<T>, r: Rotation, w: int, h: int)
    requires 0 <= w && 0 <= h && w * h <= |dst| && w * h == |src|
  {
    forall q :: Inside(OutW(r.angle, w, h), OutH(r.angle, w, h), q) ==> TurnedAt(dst, src, r, w, h, q)
  }

  ghost predicate TurnedAt<T>(dst: seq<T>, src: seq<T>, r: Rotation, w: int, h: int, q: Point)
    requires 0 <= w && 0 <= h && w * h <= |dst| && w * h == |src|
    requires Inside(OutW(r.angle, w, h), OutH(r.angle, w, h), q)
  {
    SourceCell(r, w, h, q);
    dst[Offset(OutW(r.angle, w, h), q)] == src[Offset(w, MproSource(r, w, h, q))]
  }

  lemma Area(a: Angle, w: int, h: int)
    ensures OutW(a, w, h) * OutH(a, w, h) == w * h
  {}

  lemma TargetCell(a: Angle, w: int, h: int, q: Point)
    requires Inside(OutW(a, w, h), OutH(a, w, h), q)
    ensures 0 <= Offset(OutW(a, w, h), q) < w * h
  {
    Area(a, w, h);
    OffsetBounds(OutW(a, w, h), OutH(a, w, h), q);
  }

  lemma SourceCell(r: Rotation, w: int, h: int, q: Point)
    requires Inside(OutW(r.angle, w, h), OutH(r.angle, w, h), q)
    ensures 0 <= Offset(OutW(r.angle, w, h), q) < w * h
    ensures 0 <= Offset(w, MproSource(r, w, h, q)) < w * h
  {
    TargetCell(r.angle, w, h, q);
    MproMapOnto(r, w, h, q);
    OffsetBounds(w, h, MproSource(r, w, h, q));
  }

  /** Each of the w * h cells is written by one source pixel and by no other. */
  lemma WrittenOnce(r: Rotation, w: int, h: int, k: int) returns (p: Point)
    requires 0 < w && 0 < h && 0 <= k < w * h
    ensures Inside(w, h, p) && Offset(OutW(r.angle, w, h), MproMap(r, w, h, p)) == k
    ensures forall p' {:trigger MproMap(r, w, h, p')} ::
              Inside(w, h, p') && Offset(OutW(r.angle, w, h), MproMap(r, w, h, p')) == k ==> p' == p
  {
    var ow, oh := OutW(r.angle, w, h), OutH(r.angle, w, h);
    var q := OffsetOnto(ow, oh, k);
    p := MproSource(r, w, h, q);
    MproMapOnto(r, w, h, q);
    forall p' | Inside(w, h, p') && Offset(ow, MproMap(r, w, h, p')) == k ensures p' == p {
      MproMapUndone(r, w, h, p');
      OffsetInjective(ow, oh, MproMap(r, w, h, p'), q);
    }
  }

  /** So the turned image is determined cell by cell. */
  lemma TurnedDetermined<T>(a: seq<T>, b: seq<T>, src: seq<T>, r: Rotation, w: int, h: int)
    requires 0 < w && 0 < h && w * h == |a| == |b| == |src|
    requires IsTurned(a, src, r, w, h) && IsTurned(b, src, r, w, h)
    ensures a == b
  {
    forall k | 0 <= k < w * h ensures a[k] == b[k] {
      var q := OffsetOnto(OutW(r.angle, w, h), OutH(r.angle, w, h), k);
      assert TurnedAt(a, src, r, w, h, q) && TurnedAt(b, src, r, w, h, q);
    }
  }

  /** Turning by `base` and then by `extra` gives the picture of the composed rotation if the two commute. */
  lemma TurnedTwice<T>(src: seq<T>, mid: seq<T>, dst: seq<T>, base: Rotation, extra: Rotation, w: int, h: int)
    requires 0 < w && 0 < h && w * h == |src| == |mid| == |dst| && Commutes(base, extra)
    requires OutW(base.angle, w, h) * OutH(base.angle, w, h) == |mid|
    requires IsTurned(mid, src, base, w, h)
    requires IsTurned(dst, mid, extra, OutW(base.angle, w, h), OutH(base.angle, w, h))
    ensures IsTurned(dst, src, Compose(base, extra), w, h)
  {
    var w1, h1 := OutW(base.angle, w, h), OutH(base.angle, w, h);
    var both := Compose(base, extra);
    forall q | Inside(OutW(both.angle, w, h), OutH(both.angle, w, h), q)
      ensures TurnedAt(dst, src, both, w, h, q)
    {
      var m := MproSource(extra, w1, h1, q);
      MproMapOnto(extra, w1, h1, q);
      var p := MproSource(base, w, h, m);
      MproMapOnto(base, w, h, m);
      ComposeMeaning(base, extra, w, h, p);
      MproMapUndone(both, w, h, p);
      SourceCell(both, w, h, q);
      assert TurnedAt(dst, mid, extra, w1, h1, q);
      assert TurnedAt(mid, src, base, w, h, m);
    }
  }

  // ---- rotate_buffer -------------------------------------------------------------------------------

  /** The part of the turned image that the scan has written. */
  ghost predicate PartlyTurned<T>(dst: seq<T>, src: seq<T>, r: Rotation, w: int, h: int, x: int, y: int)
    requires 0 <= w && 0 <= h && w * h <= |dst| && w * h == |src|
  {
    forall q :: Inside(OutW(r.angle, w, h), OutH(r.angle, w, h), q) ==>
      (Visited(Whole(w, h), x, y, ScanPoint(r, w, h, q)) ==> TurnedAt(dst, src, r, w, h, q))
  }

  /** The loop position at which destination pixel q is written. */
  function ScanPoint(r: Rotation, w: int, h: int, q: Point): Point {
    Turn(Opposite(r.angle), OutW(r.angle, w, h), OutH(r.angle, w, h), q)
  }

  /** One iteration writes one cell and leaves the others. */
  lemma TurnOne<T>(before: seq<T>, after: seq<T>, src: seq<T>, r: Rotation, w: int, h: int, x: int, y: int)
    requires 0 <= x < w && 0 <= y < h && w * h <= |before| == |after| && w * h == |src|
    requires PartlyTurned(before, src, r, w, h, x, y)
    requires var q := Turn(r.angle, w, h, Point(x, y));
             Inside(OutW(r.angle, w, h), OutH(r.angle, w, h), q) && TurnedAt(after, src, r, w, h, q)
    requires forall k :: 0 <= k < |before| && k != Offset(OutW(r.angle, w, h), Turn(r.angle, w, h, Point(x, y))) ==>
               after[k] == before[k]
    ensures PartlyTurned(after, src, r, w, h, x + 1, y)
  {
    var ow, oh := OutW(r.angle, w, h), OutH(r.angle, w, h);
    var here := Turn(r.angle, w, h, Point(x, y));
    forall q | Inside(ow, oh, q) && Visited(Whole(w, h), x + 1, y, ScanPoint(r, w, h, q))
      ensures TurnedAt(after, src, r, w, h, q)
    {
      SourceCell(r, w, h, q);
      TurnBack(Opposite(r.angle), ow, oh, q);
      if ScanPoint(r, w, h, q) != Point(x, y) {
        assert TurnedAt(before, src, r, w, h, q);
        if Offset(ow, q) == Offset(ow, here) {
          OffsetInjective(ow, oh, q, here);
        }
      }
    }
  }

  lemma NextRow<T>(dst: seq<T>, src: seq<T>, r: Rotation, w: int, h: int, y: int)
    requires 0 <= w && 0 <= h && w * h <= |dst| && w * h == |src|
    requires PartlyTurned(dst, src, r, w, h, w, y)
    ensures PartlyTurned(dst, src, r, w, h, 0, y + 1)
  {
    forall q | Inside(OutW(r.angle, w, h), OutH(r.angle, w, h), q) &&
      Visited(Whole(w, h), 0, y + 1, ScanPoint(r, w, h, q))
      ensures TurnedAt(dst, src, r, w, h, q)
    {
      assert Visited(Whole(w, h), w, y, ScanPoint(r, w, h, q));
    }
  }

  lemma AllTurned<T>(dst: seq<T>, src: seq<T>, r: Rotation, w: int, h: int)
    requires 0 <= w && 0 <= h && w * h <= |dst| && w * h == |src|
    requires PartlyTurned(dst, src, r, w, h, 0, h)
    ensures IsTurned(dst, src, r, w, h)
  {
    forall q | Inside(OutW(r.angle, w, h), OutH(r.angle, w, h), q) ensures TurnedAt(dst, src, r, w, h, q) {
      TurnBack(Opposite(r.angle), OutW(r.angle, w, h), OutH(r.angle, w, h), q);
      assert Visited(Whole(w, h), 0, h, ScanPoint(r, w, h, q));
    }
  }

  lemma CopiedIsTurned<T>(dst: seq<T>, src: seq<T>, w: int, h: int)
    requires 0 <= w && 0 <= h && w * h <= |dst| && w * h == |src| && dst[..w * h] == src
    ensures IsTurned(dst, src, Rotation(R0, false, false), w, h)
  {
    var r := Rotation(R0, false, false);
    forall q | Inside(w, h, q) ensures TurnedAt(dst, src, r, w, h, q) {
      SourceCell(r, w, h, q);
      assert dst[Offset(w, q)] == dst[..w * h][Offset(w, q)];
    }
  }

  /** The cells of `dst` outside the n cells at `base` are those of `before`. */
  ghost predicate Outside<T>(before: seq<T>, dst: seq<T>, base: nat, n: nat) {
    && |before| == |dst| && base + n <= |dst|
    && dst[..base] == before[..base] && dst[base + n..] == before[base + n..]
  }

  /** mpro_drm__rotate_buffer; the pointer it is given is `base` cells into `dst`. */
  method RotateBuffer<T>(dst: array<T>, base: nat, src: array<T>, width: nat, height: nat, rotation: Rotation)
    requires base + width * height <= dst.Length && src.Length == width * height && dst != src
    modifies dst
    ensures IsTurned(dst[base..], src[..], rotation, width, height)
    ensures Outside(old(dst[..]), dst[..], base, width * height)
  {
    ghost var before := dst[..];
    if rotation.angle == R0 && !rotation.reflectX && !rotation.reflectY {
      forall k | 0 <= k < width * height {
        dst[base + k] := src[k];
      }
      assert dst[base..][..width * height] == src[..];
      CopiedIsTurned(dst[base..], src[..], width, height);
      return;
    }
    var y := 0;
    while y < height
      invariant 0 <= y <= height
      invariant PartlyTurned(dst[base..], src[..], rotation, width, height, 0, y)
      invariant Outside(before, dst[..], base, width * height)
    {
      RotateRow(dst, base, src, width, height, rotation, y, before);
      y := y + 1;
    }
    AllTurned(dst[base..], src[..], rotation, width, height);
  }

  /** The inner loop of rotate_buffer. */
  method RotateRow<T>(dst: array<T>, base: nat, src: array<T>, width: nat, height: nat, rotation: Rotation, y: nat,
                      ghost before: seq<T>)
    requires base + width * height <= dst.Length && src.Length == width * height && dst != src && y < height
    requires PartlyTurned(dst[base..], src[..], rotation, width, height, 0, y)
    requires Outside(before, dst[..], base, width * height)
    modifies dst
    ensures PartlyTurned(dst[base..], src[..], rotation, width, height, 0, y + 1)
    ensures Outside(before, dst[..], base, width * height)
  {
    var x := 0;
    while x < width
      invariant 0 <= x <= width
      invariant PartlyTurned(dst[base..], src[..], rotation, width, height, x, y)
      invariant Outside(before, dst[..], base, width * height)
    {
      RotatePixel(dst, base, src, width, height, rotation, x, y, before);
      x := x + 1;
    }
    NextRow(dst[base..], src[..], rotation, width, height, y);
  }

  /** Its body. */
  method RotatePixel<T>(dst: array<T>, base: nat, src: array<T>, width: nat, height: nat, rotation: Rotation,
                        x: nat, y: nat, ghost before: seq<T>)
    requires base + width * height <= dst.Length && src.Length == width * height && dst != src
    requires x < width && y < height
    requires PartlyTurned(dst[base..], src[..], rotation, width, height, x, y)
    requires Outside(before, dst[..], base, width * height)
    modifies dst
    ensures PartlyTurned(dst[base..], src[..], rotation, width, height, x + 1, y)
    ensures Outside(before, dst[..], base, width * height)
  {
    var sx := if rotation.reflectX then width - 1 - x else x;
    var sy := if rotation.reflectY then height - 1 - y else y;
    var dx, dy, dw;
    match rotation.angle {
      case R0 => dx, dy, dw := x, y, width;
      case R90 => dx, dy, dw := height - 1 - y, x, height;
      case R180 => dx, dy, dw := width - 1 - x, height - 1 - y, width;
      case R270 => dx, dy, dw := y, width - 1 - x, height;
    }
    ghost var q := Turn(rotation.angle, width, height, Point(x, y));
    TurnBack(rotation.angle, width, height, Point(x, y));
    assert Point(dx, dy) == q && dw == OutW(rotation.angle, width, height);
    assert Point(sx, sy) == MproSource(rotation, width, height, q);
    SourceCell(rotation, width, height, q);
    assert sy * width + sx == Offset(width, Point(sx, sy)) && dy * dw + dx == Offset(dw, q);
    PutCell(dst, base, dy * dw + dx, src[sy * width + sx], width * height, before);
    TurnOne(old(dst[base..]), dst[base..], src[..], rotation, width, height, x, y);
  }

  /** A store through the pointer. */
  method PutCell<T>(dst: array<T>, base: nat, k: nat, v: T, n: nat, ghost before: seq<T>)
    requires k < n && base + n <= dst.Length && Outside(before, dst[..], base, n)
    modifies dst
    ensures dst[base..] == old(dst[base..])[k := v]
    ensures Outside(before, dst[..], base, n)
  {
    dst[base + k] := v;
    assert dst[..base] == old(dst[..base]) && dst[base + n..] == old(dst[base + n..]);
    assert old(dst[..])[..base] == old(dst[..base]) && old(dst[..])[base + n..] == old(dst[base + n..]);
    assert dst[..][..base] == dst[..base] && dst[..][base + n..] == dst[base + n..];
  }

  // ---- blit_rect -----------------------------------------------------------------------------------

  /** The arguments of beada_blit_rect, apart from the shadow buffer it writes. */
  datatype Blit = Blit(
    fb: Framebuffer,
    clip: Rect,
    rot: Rotation,
    srcW: int,
    srcH: int,
    outW: int,
    outH: int,
    gamma: Gamma,
    bgr: bool)

  /** What the caller guarantees: the clip lies in the framebuffer. */
  ghost predicate ValidBlit(j: Blit) {
    0 < j.outW && 0 < j.outH && ValidGamma(j.gamma) && Holds(j.fb, j.clip)
  }

  /**
   The logical screen has the size of the panel, seen through the rotation, and the clip lies on it.  After a
   rotation set through sysfs a framebuffer from before it can reach beyond that screen.
   */
  predicate Matching(j: Blit) {
    && j.outW == OutW(j.rot.angle, j.srcW, j.srcH) && j.outH == OutH(j.rot.angle, j.srcW, j.srcH)
    && 0 <= j.clip.x0 && j.clip.x1 <= j.srcW && 0 <= j.clip.y0 && j.clip.y1 <= j.srcH
  }

  function Converted(j: Blit, p: Point): bv16
    requires ValidGamma(j.gamma) && 0 <= Offset(j.fb.pitch, p) < PixelCount(j.fb)
  {
    var d := Corrected(j.gamma, PixelAt(j.fb, p));
    if j.bgr then PackBgr565(d) else PackRgb565(d)
  }

  /** The converted pixel as a number: its graded color in RGB565, or in BGR565. */
  lemma ConvertedNumber(j: Blit, p: Point)
    requires ValidGamma(j.gamma) && 0 <= Offset(j.fb.pitch, p) < PixelCount(j.fb)
    ensures var (r, g, b) := Graded(j.fb, j.gamma, p);
            Converted(j, p) as int == if j.bgr then Number565(b, g, r) else Number565(r, g, b)
  {
    var d := Corrected(j.gamma, PixelAt(j.fb, p));
    GradedPixel(j.fb, j.gamma, p);
    if j.bgr {
      PackedBackwards(d);
    } else {
      PackedNumber(d);
    }
  }

  /** Panel cell q shows its converted source pixel if the scan has passed it, and is untouched otherwise. */
  ghost predicate BlitAt(j: Blit, before: seq<bv16>, after: seq<bv16>, x: int, y: int, q: Point)
    requires ValidBlit(j) && |before| == |after| && 0 <= Offset(j.outW, q) < |before|
  {
    var p := BeadaSource(j.rot, j.srcW, j.srcH, q);
    after[Offset(j.outW, q)] == if Visited(j.clip, x, y, p) then Converted(j, p) else before[Offset(j.outW, q)]
  }

  ghost predicate PartlyBlitted(j: Blit, before: seq<bv16>, after: seq<bv16>, x: int, y: int)
    requires ValidBlit(j) && |before| == |after| == j.outW * j.outH
  {
    forall q :: Inside(j.outW, j.outH, q) ==>
      (OffsetBounds(j.outW, j.outH, q); BlitAt(j, before, after, x, y, q))
  }

  /** The cell of p is the only one whose source is p. */
  lemma SoleCell(j: Blit, p: Point, q: Point)
    requires Matching(j) && Inside(j.srcW, j.srcH, p) && Inside(j.outW, j.outH, q)
    ensures var here := BeadaMap(j.rot, j.srcW, j.srcH, p);
            && Inside(j.outW, j.outH, here)
            && (BeadaSource(j.rot, j.srcW, j.srcH, q) == p <==> q == here)
            && (Offset(j.outW, q) == Offset(j.outW, here) <==> q == here)
  {
    BeadaMapUndone(j.rot, j.srcW, j.srcH, p);
    BeadaMapOnto(j.rot, j.srcW, j.srcH, q);
    var here := BeadaMap(j.rot, j.srcW, j.srcH, p);
    if Offset(j.outW, q) == Offset(j.outW, here) {
      OffsetInjective(j.outW, j.outH, q, here);
    }
  }

  /** One iteration advances the scan by one pixel. */
  lemma BlitOne(j: Blit, before: seq<bv16>, mid: seq<bv16>, p: Point, k: int)
    requires ValidBlit(j) && Matching(j) && |before| == |mid| == j.outW * j.outH && Contains(j.clip, p)
    requires PartlyBlitted(j, before, mid, p.x, p.y)
    requires k == Offset(j.outW, BeadaMap(j.rot, j.srcW, j.srcH, p)) && 0 <= k < |mid|
    ensures PartlyBlitted(j, before, mid[k := Converted(j, p)], p.x + 1, p.y)
  {
    var after := mid[k := Converted(j, p)];
    forall q | Inside(j.outW, j.outH, q)
      ensures 0 <= Offset(j.outW, q) < |mid| && BlitAt(j, before, after, p.x + 1, p.y, q)
    {
      OffsetBounds(j.outW, j.outH, q);
      SoleCell(j, p, q);
      assert BlitAt(j, before, mid, p.x, p.y, q);
    }
  }

  lemma BlitNextRow(j: Blit, before: seq<bv16>, after: seq<bv16>, y: int)
    requires ValidBlit(j) && |before| == |after| == j.outW * j.outH
    requires PartlyBlitted(j, before, after, Max(j.clip.x0, j.clip.x1), y)
    ensures PartlyBlitted(j, before, after, j.clip.x0, y + 1)
  {
    forall q | Inside(j.outW, j.outH, q)
      ensures 0 <= Offset(j.outW, q) < |before| && BlitAt(j, before, after, j.clip.x0, y + 1, q)
    {
      OffsetBounds(j.outW, j.outH, q);
      assert BlitAt(j, before, after, Max(j.clip.x0, j.clip.x1), y, q);
    }
  }

  /** The shadow after the blit: every panel cell whose source lies in the clip, and no other. */
  ghost predicate Blitted(j: Blit, before: seq<bv16>, after: seq<bv16>)
    requires ValidBlit(j) && |before| == |after| == j.outW * j.outH
  {
    forall q :: Inside(j.outW, j.outH, q) ==>
      (OffsetBounds(j.outW, j.outH, q);
       var p := BeadaSource(j.rot, j.srcW, j.srcH, q);
       after[Offset(j.outW, q)] == if Contains(j.clip, p) then Converted(j, p) else before[Offset(j.outW, q)])
  }

  /** beada_blit_rect: never leaves the shadow buffer, and is exact when dimensions and clip match. */
  method BlitRect(shadow: array<bv16>, j: Blit)
    requires ValidBlit(j) && shadow.Length == j.outW * j.outH
    modifies shadow
    ensures Matching(j) ==> Blitted(j, old(shadow[..]), shadow[..])
  {
    ghost var before := shadow[..];
    var sy := j.clip.y0;
    while sy < j.clip.y1
      invariant j.clip.y0 <= sy
      invariant Matching(j) ==> PartlyBlitted(j, before, shadow[..], j.clip.x0, sy)
    {
      var sx := j.clip.x0;
      while sx < j.clip.x1
        invariant j.clip.x0 <= sx <= Max(j.clip.x0, j.clip.x1)
        invariant Matching(j) ==> PartlyBlitted(j, before, shadow[..], sx, sy)
      {
        BlitPixel(shadow, j, before, sx, sy);
        sx := sx + 1;
      }
      if Matching(j) {
        BlitNextRow(j, before, shadow[..], sy);
      }
      sy := sy + 1;
    }
  }

  /** The body of its loops. */
  method BlitPixel(shadow: array<bv16>, j: Blit, ghost before: seq<bv16>, sx: int, sy: int)
    requires ValidBlit(j) && shadow.Length == |before| == j.outW * j.outH && Contains(j.clip, Point(sx, sy))
    requires Matching(j) ==> PartlyBlitted(j, before, shadow[..], sx, sy)
    modifies shadow
    ensures Matching(j) ==> PartlyBlitted(j, before, shadow[..], sx + 1, sy)
  {
    var c;
    match j.fb {
      case Xrgb8888(pitch, argb) =>
        c := FromXrgb8888(argb[sy * pitch + sx]);
      case Rgb565(pitch, rgb) =>
        c := FromRgb565(rgb[sy * pitch + sx]);
    }
    c := Corrected(j.gamma, c);
    var px := if j.bgr then PackBgr565(c) else PackRgb565(c);
    var o := BeadaCoord(j.rot, j.srcW, j.srcH, j.outW, j.outH, Point(sx, sy));
    OffsetBounds(j.outW, j.outH, o);
    ghost var mid := shadow[..];
    shadow[o.y * j.outW + o.x] := px;
    if Matching(j) {
      assert shadow[..] == mid[Offset(j.outW, o) := Converted(j, Point(sx, sy))];
      BlitOne(j, before, mid, Point(sx, sy), Offset(j.outW, o));
    }
  }

  /** And as a number it is the graded color of its source pixel. */
  lemma BlittedCell(j: Blit, before: seq<bv16>, shadow: seq<bv16>, p: Point, q: Point)
    requires ValidBlit(j) && |before| == |shadow| == j.outW * j.outH && Blitted(j, before, shadow)
    requires Inside(j.outW, j.outH, q) && BeadaSource(j.rot, j.srcW, j.srcH, q) == p && Contains(j.clip, p)
    ensures 0 <= Offset(j.outW, q) < |shadow| && shadow[Offset(j.outW, q)] == Converted(j, p)
    ensures var (r, g, b) := Graded(j.fb, j.gamma, p);
            shadow[Offset(j.outW, q)] as int == if j.bgr then Number565(b, g, r) else Number565(r, g, b)
  {
    OffsetBounds(j.outW, j.outH, q);
    ConvertedNumber(j, p);
  }

  /** The framebuffer shows the RGB565 pixels src, in either format: they agree on every channel, widened. */
  ghost predicate ShowsPixels(fb: Framebuffer, w: nat, src: seq<bv16>) {
    && fb.pitch == w && PixelCount(fb) == |src|
    && forall p :: 0 <= Offset(w, p) < |src| ==> Levels(fb, p) == Levels(Rgb565(w, src), p)
  }

  lemma SameLevels(a: Rgb, b: Rgb)
    requires a.r as int == b.r as int && a.g as int == b.g as int && a.b as int == b.b as int
    ensures a == b
  {}

  lemma PlainConversion(j: Blit, src: seq<bv16>, p: Point)
    requires 0 <= j.srcW && ShowsPixels(j.fb, j.srcW, src) && j.gamma == Off && !j.bgr && 0 <= Offset(j.srcW, p) < |src|
    ensures Converted(j, p) == src[Offset(j.srcW, p)]
  {
    var fb := Rgb565(j.srcW, src);
    PixelLevels(j.fb, p);
    PixelLevels(fb, p);
    SameLevels(PixelAt(j.fb, p), PixelAt(fb, p));
    Rgb565Unchanged(src[Offset(j.srcW, p)]);
  }

  /** Rotation a of the Beada driver and rotation b of the MPro driver show the same pixels. */
  ghost predicate SameSources(a: Rotation, b: Rotation, w: int, h: int) {
    forall q :: Inside(OutW(b.angle, w, h), OutH(b.angle, w, h), q) ==>
      Inside(w, h, MproSource(b, w, h, q)) && BeadaSource(a, w, h, q) == MproSource(b, w, h, q)
  }

  lemma SysfsSameSources(mode: nat, w: int, h: int)
    requires mode < 8
    ensures SameSources(SysfsRotation(Twin(mode)), SysfsRotation(mode), w, h)
  {
    var r := SysfsRotation(mode);
    forall q | Inside(OutW(r.angle, w, h), OutH(r.angle, w, h), q)
      ensures Inside(w, h, MproSource(r, w, h, q))
      ensures BeadaSource(SysfsRotation(Twin(mode)), w, h, q) == MproSource(r, w, h, q)
    {
      var p := BeadaSource(SysfsRotation(Twin(mode)), w, h, q);
      BeadaMapOnto(SysfsRotation(Twin(mode)), w, h, q);
      SysfsModesAgree(mode, w, h, p);
      MproMapUndone(r, w, h, p);
    }
  }

  /** A blit of the whole framebuffer without color correction to the panel that rotation r needs. */
  ghost predicate Plain(j: Blit, src: seq<bv16>, r: Rotation) {
    && ValidBlit(j) && 0 <= j.srcW && 0 <= j.srcH && ShowsPixels(j.fb, j.srcW, src) && j.clip == Whole(j.srcW, j.srcH)
    && j.outW == OutW(r.angle, j.srcW, j.srcH) && j.outH == OutH(r.angle, j.srcW, j.srcH)
    && j.gamma == Off && !j.bgr
  }

  /**
   The two drivers draw the same picture: for one image and no color correction, the Beada shadow equals the
   buffer that rotate_buffer fills, with sysfs modes 5 and 7 exchanged, whichever format Beada reads it in.
   */
  lemma SamePicture(mode: nat, j: Blit, src: seq<bv16>, turned: seq<bv16>, before: seq<bv16>, shadow: seq<bv16>)
    requires mode < 8 && Plain(j, src, SysfsRotation(mode)) && j.rot == SysfsRotation(Twin(mode))
    requires |src| == |turned| == j.srcW * j.srcH && IsTurned(turned, src, SysfsRotation(mode), j.srcW, j.srcH)
    requires |before| == |shadow| == j.outW * j.outH && Blitted(j, before, shadow)
    ensures shadow == turned
  {
    SysfsSameSources(mode, j.srcW, j.srcH);
    SameContent(SysfsRotation(mode), j, src, turned, before, shadow);
  }

  lemma SameContent(r: Rotation, j: Blit, src: seq<bv16>, turned: seq<bv16>, before: seq<bv16>, shadow: seq<bv16>)
    requires Plain(j, src, r) && SameSources(j.rot, r, j.srcW, j.srcH)
    requires |src| == |turned| == j.srcW * j.srcH && IsTurned(turned, src, r, j.srcW, j.srcH)
    requires |before| == |shadow| == j.outW * j.outH && Blitted(j, before, shadow)
    ensures shadow == turned
  {
    Area(r.angle, j.srcW, j.srcH);
    forall k | 0 <= k < |turned| ensures shadow[k] == turned[k] {
      var q := OffsetOnto(j.outW, j.outH, k);
      var p := MproSource(r, j.srcW, j.srcH, q);
      OffsetBounds(j.srcW, j.srcH, p);
      BlittedCell(j, before, shadow, p, q);
      PlainConversion(j, src, p);
      assert TurnedAt(turned, src, r, j.srcW, j.srcH, q);
    }
  }
}
