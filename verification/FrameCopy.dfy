/**
 copy_frame of the MPro driver: conversion of a clip into the frame, or through a temporary buffer and
 rotate_buffer.  The frame is a sequence of 16-bit cells: the image, row by row, and then the margin.
 */
module FrameCopy {
  import opened Grid
  import opened Orientation
  import opened PixelBlits
  import opened PixelFormat

  // ---- Straight into the frame -------------------------------------------------------------------------

  /** The color tables of the driver: the identity, or one combined table per channel. */
  function MproPixel(fb: Framebuffer, lut: Gamma, p: Point): bv16
    requires ValidGamma(lut) && 0 <= Offset(fb.pitch, p) < PixelCount(fb)
  {
    match fb
    case Xrgb8888(_, _) => PackRgb565(Corrected(lut, PixelAt(fb, p)))
    case Rgb565(pitch, rgb) =>
      var raw := rgb[Offset(pitch, p)];
      if lut == Off then raw else PackRgb565(Corrected(lut, FieldsOf(raw)))
  }

  /** The copied cell of an XRGB8888 pixel is the RGB565 number of its graded color. */
  lemma MproNumberOfXrgb8888(fb: Framebuffer, lut: Gamma, p: Point)
    requires fb.Xrgb8888? && ValidGamma(lut) && 0 <= Offset(fb.pitch, p) < PixelCount(fb)
    ensures var (r, g, b) := Graded(fb, lut, p); MproPixel(fb, lut, p) as int == Number565(r, g, b)
  {
    GradedPixel(fb, lut, p);
    PackedNumber(Corrected(lut, PixelAt(fb, p)));
  }

  /** The bare fields of a pixel, five, six and five bits, index the tables. */
  function FieldsGraded(raw: bv16, lut: Gamma): int
    requires ValidGamma(lut)
  {
    var n := raw as int;
    match lut
    case Off => n
    case Tables(r, g, b) => Number565(r[n / 2048] as int, g[n / 32 % 64] as int, b[n % 32] as int)
  }

  lemma TabledFields(raw: bv16, lut: Gamma)
    requires ValidGamma(lut) && lut.Tables?
    ensures PackRgb565(Corrected(lut, FieldsOf(raw))) as int == FieldsGraded(raw, lut)
  {
    FieldNumbers(raw);
    PackedNumber(Corrected(lut, FieldsOf(raw)));
  }

  /** An RGB565 pixel is copied as it is, or replaced by what its fields index. */
  lemma MproNumberOfRgb565(fb: Framebuffer, lut: Gamma, p: Point)
    requires fb.Rgb565? && ValidGamma(lut) && 0 <= Offset(fb.pitch, p) < PixelCount(fb)
    ensures MproPixel(fb, lut, p) as int == FieldsGraded(fb.rgb[Offset(fb.pitch, p)], lut)
  {
    if lut.Tables? {
      TabledFields(fb.rgb[Offset(fb.pitch, p)], lut);
    }
  }

  /** The clip up to column x of row y is converted; every other cell, margin included, is as before. */
  ghost predicate Drawn(before: seq<bv16>, after: seq<bv16>, width: int, height: int, fb: Framebuffer, lut: Gamma,
                        clip: Rect, x: int, y: int)
    requires Holds(fb, clip) && ValidGamma(lut) && 0 <= width * height <= |before| == |after|
  {
    && (forall p :: Inside(width, height, p) ==> DrawnAt(before, after, width, height, fb, lut, clip, x, y, p))
    && after[width * height..] == before[width * height..]
  }

  ghost predicate DrawnAt(before: seq<bv16>, after: seq<bv16>, width: int, height: int, fb: Framebuffer, lut: Gamma,
                          clip: Rect, x: int, y: int, p: Point)
    requires Holds(fb, clip) && ValidGamma(lut) && 0 <= width * height <= |before| == |after|
    requires Inside(width, height, p)
  {
    OffsetBounds(width, height, p);
    after[Offset(width, p)] == if Visited(clip, x, y, p) then MproPixel(fb, lut, p) else before[Offset(width, p)]
  }

  lemma DrawOne(before: seq<bv16>, mid: seq<bv16>, width: int, height: int, fb: Framebuffer, lut: Gamma, clip: Rect,
                p: Point)
    requires Holds(fb, clip) && ValidGamma(lut) && 0 <= width * height <= |before| == |mid|
    requires Contains(clip, p) && Inside(width, height, p)
    requires Drawn(before, mid, width, height, fb, lut, clip, p.x, p.y)
    ensures 0 <= Offset(width, p) < width * height
    ensures Drawn(before, mid[Offset(width, p) := MproPixel(fb, lut, p)], width, height, fb, lut, clip, p.x + 1, p.y)
  {
    OffsetBounds(width, height, p);
    var after := mid[Offset(width, p) := MproPixel(fb, lut, p)];
    assert after[width * height..] == mid[width * height..];
    forall q | Inside(width, height, q) ensures DrawnAt(before, after, width, height, fb, lut, clip, p.x + 1, p.y, q) {
      OffsetBounds(width, height, q);
      assert DrawnAt(before, mid, width, height, fb, lut, clip, p.x, p.y, q);
      if Offset(width, q) == Offset(width, p) {
        OffsetInjective(width, height, q, p);
      }
    }
  }

  lemma DrawNextRow(before: seq<bv16>, after: seq<bv16>, width: int, height: int, fb: Framebuffer, lut: Gamma,
                    clip: Rect, y: int)
    requires Holds(fb, clip) && ValidGamma(lut) && 0 <= width * height <= |before| == |after|
    requires Drawn(before, after, width, height, fb, lut, clip, clip.x1, y)
    ensures Drawn(before, after, width, height, fb, lut, clip, clip.x0, y + 1)
  {
    forall q | Inside(width, height, q)
      ensures DrawnAt(before, after, width, height, fb, lut, clip, clip.x0, y + 1, q) {
      assert DrawnAt(before, after, width, height, fb, lut, clip, clip.x1, y, q);
    }
  }

  /**
   The conversion loops of copy_frame straight into the frame.  They say whether every pixel they read lies
   in the framebuffer; the model stops at the first that does not.
   */
  method ConvertRows(target: array<bv16>, width: int, height: int, fb: Framebuffer, lut: Gamma, clip: Rect)
    returns (inside: bool)
    requires ValidGamma(lut) && ProperRect(width, height, clip) && 0 <= width * height <= target.Length
    modifies target
    ensures inside <==> Holds(fb, clip)
    ensures inside ==> Drawn(old(target[..]), target[..], width, height, fb, lut, clip, clip.x0, clip.y1)
    ensures target[width * height..] == old(target[width * height..])
  {
    ghost var before := target[..];
    var y := clip.y0;
    while y < clip.y1
      invariant clip.y0 <= y <= clip.y1 && ReadsInside(fb, clip, clip.x0, y)
      invariant Holds(fb, clip) ==> Drawn(before, target[..], width, height, fb, lut, clip, clip.x0, y)
      invariant target[width * height..] == old(target[width * height..])
    {
      inside := ConvertRow(target, width, height, fb, lut, clip, y, before);
      if !inside {
        return;
      }
      y := y + 1;
    }
    AllRead(fb, clip);
    return true;
  }

  /** One row of them. */
  method ConvertRow(target: array<bv16>, width: int, height: int, fb: Framebuffer, lut: Gamma, clip: Rect, y: int,
                    ghost before: seq<bv16>)
    returns (inside: bool)
    requires ValidGamma(lut) && ProperRect(width, height, clip) && 0 <= width * height <= target.Length
    requires clip.y0 <= y < clip.y1 && ReadsInside(fb, clip, clip.x0, y) && |before| == target.Length
    requires Holds(fb, clip) ==> Drawn(before, target[..], width, height, fb, lut, clip, clip.x0, y)
    modifies target
    ensures if inside then ReadsInside(fb, clip, clip.x0, y + 1) else !Holds(fb, clip)
    ensures Holds(fb, clip) ==> Drawn(before, target[..], width, height, fb, lut, clip, clip.x0, y + 1)
    ensures target[width * height..] == old(target[width * height..])
  {
    var x := clip.x0;
    while x < clip.x1
      invariant clip.x0 <= x <= clip.x1 && ReadsInside(fb, clip, x, y)
      invariant Holds(fb, clip) ==> Drawn(before, target[..], width, height, fb, lut, clip, x, y)
      invariant target[width * height..] == old(target[width * height..])
    {
      ghost var p := Point(x, y);
      ReadOffset(fb, p);
      assert Contains(clip, p);
      if y * fb.pitch + x >= PixelCount(fb) {
        return false;
      }
      ghost var mid := target[..];
      OffsetBounds(width, height, p);
      if Holds(fb, clip) {
        DrawOne(before, mid, width, height, fb, lut, clip, p);
      }
      target[y * width + x] := MproPixel(fb, lut, Point(x, y));
      assert target[..] == mid[Offset(width, p) := MproPixel(fb, lut, p)];
      x := x + 1;
    }
    ReadNextRow(fb, clip, y);
    if Holds(fb, clip) {
      DrawNextRow(before, target[..], width, height, fb, lut, clip, y);
    }
    return true;
  }

  // ---- The rotated copy ------------------------------------------------------------------------------

  const UPRIGHT := Rotation(R0, false, false)

  /** The temporary buffer has w * h cells but is filled with the pitch of the frame. */
  predicate TempFits(w: int, h: int, pitch: int) { w == pitch || h == 1 }

  /** Every write stays inside it exactly for a clip as wide as the frame, or one row high. */
  lemma TempFitsExact(w: int, h: int, pitch: int)
    requires 0 < w <= pitch && 0 < h
    ensures (forall p :: Inside(w, h, p) ==> Offset(pitch, p) < w * h) <==> TempFits(w, h, pitch)
  {
    var last := Point(w - 1, h - 1);
    assert Inside(w, h, last);
    if TempFits(w, h, pitch) {
      forall p | Inside(w, h, p) ensures Offset(pitch, p) < w * h {
        OffsetBounds(w, h, p);
      }
    } else {
      assert (h - 1) * pitch >= (h - 1) * (w + 1) by { MulNonNegative(h - 1, pitch - w - 1); }
      assert (h - 1) * (w + 1) + (w - 1) == h * w + (h - 2);
    }
  }

  /** The part of the clip that the temporary buffer holds when the scan stands at (x, y) of it. */
  ghost predicate PartlyConverted(temp: seq<bv16>, fb: Framebuffer, lut: Gamma, clip: Rect, x: int, y: int)
    requires Holds(fb, clip) && ValidGamma(lut) && |temp| == (clip.x1 - clip.x0) * (clip.y1 - clip.y0)
  {
    forall p :: Visited(clip, x, y, p) ==> ConvertedAt(temp, fb, lut, clip, p)
  }

  ghost predicate ConvertedAt(temp: seq<bv16>, fb: Framebuffer, lut: Gamma, clip: Rect, p: Point)
    requires Holds(fb, clip) && ValidGamma(lut) && |temp| == (clip.x1 - clip.x0) * (clip.y1 - clip.y0)
    requires Contains(clip, p)
  {
    PackedBounds(clip, p);
    temp[Packed(clip, p)] == MproPixel(fb, lut, p)
  }

  lemma ConvertOne(temp: seq<bv16>, fb: Framebuffer, lut: Gamma, clip: Rect, p: Point, k: int)
    requires Holds(fb, clip) && ValidGamma(lut) && |temp| == (clip.x1 - clip.x0) * (clip.y1 - clip.y0)
    requires Contains(clip, p) && k == Packed(clip, p) && 0 <= k < |temp|
    requires PartlyConverted(temp, fb, lut, clip, p.x, p.y)
    ensures PartlyConverted(temp[k := MproPixel(fb, lut, p)], fb, lut, clip, p.x + 1, p.y)
  {
    var after := temp[k := MproPixel(fb, lut, p)];
    forall q | Visited(clip, p.x + 1, p.y, q) ensures ConvertedAt(after, fb, lut, clip, q) {
      PackedBounds(clip, q);
      if q != p {
        assert ConvertedAt(temp, fb, lut, clip, q);
        if Packed(clip, q) == k {
          PackedInjective(clip, p, q);
        }
      }
    }
  }

  lemma ConvertNextRow(temp: seq<bv16>, fb: Framebuffer, lut: Gamma, clip: Rect, y: int)
    requires Holds(fb, clip) && ValidGamma(lut) && |temp| == (clip.x1 - clip.x0) * (clip.y1 - clip.y0)
    requires PartlyConverted(temp, fb, lut, clip, clip.x1, y)
    ensures PartlyConverted(temp, fb, lut, clip, clip.x0, y + 1)
  {
    forall p | Visited(clip, clip.x0, y + 1, p) ensures ConvertedAt(temp, fb, lut, clip, p) {
      assert Visited(clip, clip.x1, y, p);
    }
  }

  /** Nothing the rotated copy touches lies outside the framebuffer or the temporary buffer. */
  ghost predicate Tame(fb: Framebuffer, clip: Rect, pitch: int) {
    Holds(fb, clip) && TempFits(clip.x1 - clip.x0, clip.y1 - clip.y0, pitch)
  }

  /** The writes made so far stay in the temporary buffer. */
  ghost predicate WritesInside(clip: Rect, pitch: int, x: int, y: int) {
    forall p :: Visited(clip, x, y, p) ==>
      Offset(pitch, Point(p.x - clip.x0, p.y - clip.y0)) < (clip.x1 - clip.x0) * (clip.y1 - clip.y0)
  }

  lemma WriteNextRow(clip: Rect, pitch: int, y: int)
    requires WritesInside(clip, pitch, clip.x1, y)
    ensures WritesInside(clip, pitch, clip.x0, y + 1)
  {
    forall p | Visited(clip, clip.x0, y + 1, p)
      ensures Offset(pitch, Point(p.x - clip.x0, p.y - clip.y0)) < (clip.x1 - clip.x0) * (clip.y1 - clip.y0)
    {
      assert Visited(clip, clip.x1, y, p);
    }
  }

  lemma WroteAll(clip: Rect, pitch: int)
    requires clip.x0 < clip.x1 && clip.y0 < clip.y1 && clip.x1 - clip.x0 <= pitch
    requires WritesInside(clip, pitch, clip.x0, clip.y1)
    ensures TempFits(clip.x1 - clip.x0, clip.y1 - clip.y0, pitch)
  {
    var w, h := clip.x1 - clip.x0, clip.y1 - clip.y0;
    forall q | Inside(w, h, q) ensures Offset(pitch, q) < w * h {
      assert Visited(clip, clip.x0, clip.y1, Point(q.x + clip.x0, q.y + clip.y0));
    }
    TempFitsExact(w, h, pitch);
  }

  /** In a clip that fits, the cell that is written is the one that packing assigns. */
  lemma TempCell(clip: Rect, pitch: int, p: Point)
    requires Contains(clip, p) && clip.x1 - clip.x0 <= pitch
    requires TempFits(clip.x1 - clip.x0, clip.y1 - clip.y0, pitch)
    ensures Offset(pitch, Point(p.x - clip.x0, p.y - clip.y0)) == Packed(clip, p)
    ensures 0 <= Packed(clip, p) < (clip.x1 - clip.x0) * (clip.y1 - clip.y0)
  {
    PackedBounds(clip, p);
  }

  /** The same conversion loops into the temporary buffer; the model stops at the first stray access. */
  method ConvertClip(temp: array<bv16>, pitch: int, fb: Framebuffer, lut: Gamma, clip: Rect) returns (tame: bool)
    requires ValidGamma(lut) && 0 <= clip.x0 < clip.x1 && 0 <= clip.y0 < clip.y1 && clip.x1 - clip.x0 <= pitch
    requires temp.Length == (clip.x1 - clip.x0) * (clip.y1 - clip.y0)
    modifies temp
    ensures tame <==> Tame(fb, clip, pitch)
    ensures tame ==> PartlyConverted(temp[..], fb, lut, clip, clip.x0, clip.y1)
  {
    var y := clip.y0;
    while y < clip.y1
      invariant clip.y0 <= y <= clip.y1
      invariant ReadsInside(fb, clip, clip.x0, y) && WritesInside(clip, pitch, clip.x0, y)
      invariant Tame(fb, clip, pitch) ==> PartlyConverted(temp[..], fb, lut, clip, clip.x0, y)
    {
      tame := ConvertClipRow(temp, pitch, fb, lut, clip, y);
      if !tame {
        return;
      }
      y := y + 1;
    }
    AllRead(fb, clip);
    WroteAll(clip, pitch);
    return true;
  }

  /** One row of them. */
  method ConvertClipRow(temp: array<bv16>, pitch: int, fb: Framebuffer, lut: Gamma, clip: Rect, y: int)
    returns (tame: bool)
    requires ValidGamma(lut) && 0 <= clip.x0 < clip.x1 && 0 <= clip.y0 <= y < clip.y1 && clip.x1 - clip.x0 <= pitch
    requires temp.Length == (clip.x1 - clip.x0) * (clip.y1 - clip.y0)
    requires ReadsInside(fb, clip, clip.x0, y) && WritesInside(clip, pitch, clip.x0, y)
    requires Tame(fb, clip, pitch) ==> PartlyConverted(temp[..], fb, lut, clip, clip.x0, y)
    modifies temp
    ensures !tame ==> !Tame(fb, clip, pitch)
    ensures tame ==> ReadsInside(fb, clip, clip.x0, y + 1) && WritesInside(clip, pitch, clip.x0, y + 1)
    ensures Tame(fb, clip, pitch) ==> PartlyConverted(temp[..], fb, lut, clip, clip.x0, y + 1)
  {
    var x := clip.x0;
    while x < clip.x1
      invariant clip.x0 <= x <= clip.x1
      invariant ReadsInside(fb, clip, x, y) && WritesInside(clip, pitch, x, y)
      invariant Tame(fb, clip, pitch) ==> PartlyConverted(temp[..], fb, lut, clip, x, y)
    {
      ghost var p := Point(x, y);
      ReadOffset(fb, p);
      assert Contains(clip, p);
      if y * fb.pitch + x >= PixelCount(fb) {
        return false;
      }
      var k := (y - clip.y0) * pitch + (x - clip.x0);
      if Tame(fb, clip, pitch) {
        TempCell(clip, pitch, p);
      }
      if k >= temp.Length {
        return false;
      }
      MulNonNegative(y - clip.y0, pitch);
      ghost var mid := temp[..];
      temp[k] := MproPixel(fb, lut, Point(x, y));
      assert temp[..] == mid[k := MproPixel(fb, lut, p)];
      if Tame(fb, clip, pitch) {
        ConvertOne(mid, fb, lut, clip, p, k);
      }
      x := x + 1;
    }
    ReadNextRow(fb, clip, y);
    WriteNextRow(clip, pitch, y);
    if Tame(fb, clip, pitch) {
      ConvertNextRow(temp[..], fb, lut, clip, y);
    }
    return true;
  }

  /** Where in the frame the rotated copy starts to write, and that it has room there. */
  function Corner(width: int, clip: Rect): int { Offset(width, Point(clip.x0, clip.y0)) }

  lemma CornerRoom(width: int, height: int, clip: Rect)
    requires ProperRect(width, height, clip) && TempFits(clip.x1 - clip.x0, clip.y1 - clip.y0, width)
    ensures 0 <= Corner(width, clip)
    ensures Corner(width, clip) + (clip.x1 - clip.x0) * (clip.y1 - clip.y0) <= width * height
  {
    OffsetBounds(width, height, Point(clip.x0, clip.y0));
    OffsetBounds(width, height, Point(clip.x1 - 1, clip.y1 - 1));
    if clip.x1 - clip.x0 == width {
      assert (clip.y1 - 1) * width == clip.y0 * width + (clip.y1 - clip.y0) * width - width;
    }
  }

  /** The frame shows the clip turned by rot from its corner on; the rest, margin included, is as before. */
  ghost predicate TurnedPicture(before: seq<bv16>, after: seq<bv16>, width: int, fb: Framebuffer, lut: Gamma,
                                clip: Rect, rot: Rotation)
    requires Holds(fb, clip) && ValidGamma(lut) && clip.x0 < clip.x1 && clip.y0 < clip.y1 && 0 <= Corner(width, clip)
  {
    var w, h := clip.x1 - clip.x0, clip.y1 - clip.y0;
    MulNonNegative(w, h);
    && |after| == |before| && Corner(width, clip) + w * h <= |after|
    && Outside(before, after, Corner(width, clip), w * h)
    && forall q :: Inside(OutW(rot.angle, w, h), OutH(rot.angle, w, h), q) ==>
         PictureAt(after[Corner(width, clip)..], fb, lut, clip, rot, q)
  }

  ghost predicate PictureAt(image: seq<bv16>, fb: Framebuffer, lut: Gamma, clip: Rect, rot: Rotation, q: Point)
    requires Holds(fb, clip) && ValidGamma(lut) && clip.x0 < clip.x1 && clip.y0 < clip.y1
    requires (clip.x1 - clip.x0) * (clip.y1 - clip.y0) <= |image|
    requires Inside(OutW(rot.angle, clip.x1 - clip.x0, clip.y1 - clip.y0),
                    OutH(rot.angle, clip.x1 - clip.x0, clip.y1 - clip.y0), q)
  {
    var w, h := clip.x1 - clip.x0, clip.y1 - clip.y0;
    var p := MproSource(rot, w, h, q);
    SourceCell(rot, w, h, q);
    MproMapOnto(rot, w, h, q);
    assert Contains(clip, Point(p.x + clip.x0, p.y + clip.y0));
    image[Offset(OutW(rot.angle, w, h), q)] == MproPixel(fb, lut, Point(p.x + clip.x0, p.y + clip.y0))
  }

  /** Conversion of the clip followed by rotate_buffer. */
  lemma ConvertedThenTurned(temp: seq<bv16>, image: seq<bv16>, fb: Framebuffer, lut: Gamma, clip: Rect, rot: Rotation,
                            q: Point)
    requires Holds(fb, clip) && ValidGamma(lut) && clip.x0 < clip.x1 && clip.y0 < clip.y1
    requires |temp| == (clip.x1 - clip.x0) * (clip.y1 - clip.y0) <= |image|
    requires PartlyConverted(temp, fb, lut, clip, clip.x0, clip.y1)
    requires IsTurned(image, temp, rot, clip.x1 - clip.x0, clip.y1 - clip.y0)
    requires Inside(OutW(rot.angle, clip.x1 - clip.x0, clip.y1 - clip.y0),
                    OutH(rot.angle, clip.x1 - clip.x0, clip.y1 - clip.y0), q)
    ensures PictureAt(image, fb, lut, clip, rot, q)
  {
    var w, h := clip.x1 - clip.x0, clip.y1 - clip.y0;
    var p := MproSource(rot, w, h, q);
    MproMapOnto(rot, w, h, q);
    assert TurnedAt(image, temp, rot, w, h, q);
    assert ConvertedAt(temp, fb, lut, clip, Point(p.x + clip.x0, p.y + clip.y0));
  }

  /** The rotated half of copy_frame. */
  method CopyTurned(data: array<bv16>, width: nat, height: nat, fb: Framebuffer, lut: Gamma, clip: Rect, rot: Rotation)
    returns (tame: bool)
    requires ValidGamma(lut) && ProperRect(width, height, clip) && width * height <= data.Length
    modifies data
    ensures tame <==> Tame(fb, clip, width)
    ensures 0 <= Corner(width, clip)
    ensures tame ==> TurnedPicture(old(data[..]), data[..], width, fb, lut, clip, rot)
    ensures !tame ==> data[..] == old(data[..])
    ensures data[width * height..] == old(data[width * height..])
  {
    ghost var before := data[..];
    var w, h := clip.x1 - clip.x0, clip.y1 - clip.y0;
    MulNonNegative(w, h);
    OffsetBounds(width, height, Point(clip.x0, clip.y0));
    var temp := new bv16[w * h];
    tame := ConvertClip(temp, width, fb, lut, clip);
    if !tame {
      return;
    }
    CornerRoom(width, height, clip);
    var base := clip.y0 * width + clip.x0;
    RotateBuffer(data, base, temp, w, h, rot);
    forall q | Inside(OutW(rot.angle, w, h), OutH(rot.angle, w, h), q)
      ensures PictureAt(data[..][base..], fb, lut, clip, rot, q)
    {
      assert data[..][base..] == data[base..];
      ConvertedThenTurned(temp[..], data[..][base..], fb, lut, clip, rot, q);
    }
    MarginKept(before, data[..], base, w * h, width * height);
  }

  lemma MarginKept(before: seq<bv16>, after: seq<bv16>, base: nat, n: nat, margin: nat)
    requires Outside(before, after, base, n) && base + n <= margin <= |after|
    ensures after[margin..] == before[margin..]
  {
    assert after[margin..] == after[base + n..][margin - (base + n)..];
    assert before[margin..] == before[base + n..][margin - (base + n)..];
  }
}
