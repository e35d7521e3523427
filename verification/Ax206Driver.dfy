/**
 The AX206 driver object: the commit-thread routines and the worker's lock section as the source writes
 them, on arrays and fields.  Each is proved to be a run of the state machine in Ax206Blit, so the
 theorems of Ax206Runs speak about this code.
 */
module Ax206Driver {
  import opened Grid
  import opened Orientation
  import opened Ax206Blit
  import opened Ax206Draws
  import opened Ax206Runs
  import opened PixelFormat

  /** A framebuffer pixel in RGB565. */
  function ColorOf(fb: Framebuffer, l: Point): Color
    requires 0 <= Offset(fb.pitch, l) < PixelCount(fb)
  {
    match fb
    case Xrgb8888(_, _) => PackRgb565(PixelAt(fb, l))
    case Rgb565(pitch, rgb) => rgb[Offset(pitch, l)]
  }

  /** And as the device expects it. */
  function DevicePixel(fb: Framebuffer, l: Point): Color
    requires 0 <= Offset(fb.pitch, l) < PixelCount(fb)
  {
    Swab16(ColorOf(fb, l))
  }

  lemma BigEndian(v: bv16)
    ensures 256 * (Swab16(v) as int % 256) + Swab16(v) as int / 256 == v as int
  {
    SwappedNumber(v);
    Digits16(Swab16(v) as int, v as int % 256, v as int / 256);
  }

  /** The framebuffer's color as an RGB565 number, red in the top five bits; an RGB565 pixel is one already. */
  function ColorNumber(fb: Framebuffer, l: Point): int
    requires 0 <= Offset(fb.pitch, l) < PixelCount(fb)
  {
    var (r, g, b) := Levels(fb, l);
    if fb.Xrgb8888? then Number565(r, g, b) else fb.rgb[Offset(fb.pitch, l)] as int
  }

  lemma PackedColor(fb: Framebuffer, l: Point)
    requires 0 <= Offset(fb.pitch, l) < PixelCount(fb)
    ensures var (r, g, b) := Levels(fb, l); PackRgb565(PixelAt(fb, l)) as int == Number565(r, g, b)
  {
    PixelLevels(fb, l);
    PackedNumber(PixelAt(fb, l));
  }

  lemma ColorOfNumber(fb: Framebuffer, l: Point)
    requires 0 <= Offset(fb.pitch, l) < PixelCount(fb)
    ensures ColorOf(fb, l) as int == ColorNumber(fb, l)
  {
    if fb.Xrgb8888? {
      PackedColor(fb, l);
    }
  }

  /** The panel is big-endian: the number it reads out of a stored pixel is the framebuffer's color. */
  lemma PanelReads(fb: Framebuffer, l: Point)
    requires 0 <= Offset(fb.pitch, l) < PixelCount(fb)
    ensures var cell := DevicePixel(fb, l) as int;
            256 * (cell % 256) + cell / 256 == ColorNumber(fb, l)
  {
    ColorOfNumber(fb, l);
    BigEndian(ColorOf(fb, l));
  }

  /** The shadow after a flush, pixel by pixel: unconditional conversion of the clip. */
  ghost function FlushedFrame(c: Config, mode: int, shadow: Frame, fb: Framebuffer, clip: Rect): Frame
    requires Holds(fb, clip)
  {
    map q | q in shadow ::
      var l := Ax206Source(mode, c.width, c.height, q);
      if Contains(clip, l) then DevicePixel(fb, l) else shadow[q]
  }

  lemma SourceOfMap(mode: int, w: int, h: int, p: Point, q: Point)
    ensures Ax206Map(mode, w, h, p) == q <==> p == Ax206Source(mode, w, h, q)
  {}

  /** The logical pixel shown at each panel pixel. */
  ghost function Sources(c: Config, mode: int): map<Point, Point> {
    map q | q in Cells(Everything(c)) :: Ax206Source(mode, c.width, c.height, q)
  }

  /** The flush has done its work up to (lx, ly). */
  ghost predicate PartlyFlushed(src: map<Point, Point>, before: Frame, after: Frame, fb: Framebuffer, clip: Rect,
                                lx: int, ly: int)
    requires Holds(fb, clip) && src.Keys == before.Keys
  {
    && after.Keys == before.Keys
    && forall q :: q in before ==>
         after[q] == if Visited(clip, lx, ly, src[q]) then DevicePixel(fb, src[q]) else before[q]
  }

  /** One more pixel l: it is the source of at most one panel pixel, q. */
  lemma FlushAdvances(src: map<Point, Point>, before: Frame, after: Frame, fb: Framebuffer, clip: Rect, l: Point,
                      q: Point)
    requires Holds(fb, clip) && src.Keys == before.Keys && Contains(clip, l)
    requires forall p :: p in src ==> (src[p] == l <==> p == q)
    requires PartlyFlushed(src, before, after, fb, clip, l.x, l.y)
    ensures q in before ==>
              && after[q] == before[q]
              && PartlyFlushed(src, before, after[q := DevicePixel(fb, l)], fb, clip, l.x + 1, l.y)
    ensures q !in before ==> PartlyFlushed(src, before, after, fb, clip, l.x + 1, l.y)
  {
    forall p | p in before
      ensures Visited(clip, l.x + 1, l.y, src[p]) <==> Visited(clip, l.x, l.y, src[p]) || p == q
    {
      assert src[p] == l <==> p == q;
    }
  }

  lemma FlushNextRow(src: map<Point, Point>, before: Frame, after: Frame, fb: Framebuffer, clip: Rect, ly: int)
    requires Holds(fb, clip) && src.Keys == before.Keys && clip.x0 <= clip.x1
    requires PartlyFlushed(src, before, after, fb, clip, clip.x1, ly)
    ensures PartlyFlushed(src, before, after, fb, clip, clip.x0, ly + 1)
  {
    forall p | p in before
      ensures Visited(clip, clip.x0, ly + 1, src[p]) <==> Visited(clip, clip.x1, ly, src[p])
    {}
  }

  lemma FlushComplete(c: Config, mode: int, before: Frame, after: Frame, fb: Framebuffer, clip: Rect)
    requires Holds(fb, clip) && Covers(c, before) && Sources(c, mode).Keys == before.Keys && clip.y0 <= clip.y1
    requires PartlyFlushed(Sources(c, mode), before, after, fb, clip, clip.x0, clip.y1)
    ensures after == FlushedFrame(c, mode, before, fb, clip)
  {
    forall q | q in before ensures after[q] == FlushedFrame(c, mode, before, fb, clip)[q] {
      assert Sources(c, mode)[q] == Ax206Source(mode, c.width, c.height, q);
    }
  }

  // ---- The steps of a flush --------------------------------------------------------------------

  /** The write that the flush loops make for clip pixel l, if its place is on the panel. */
  function PixelOps(c: Config, mode: int, fb: Framebuffer, l: Point): seq<DrawOp>
    requires 0 <= Offset(fb.pitch, l) < PixelCount(fb)
  {
    var q := Ax206Map(mode, c.width, c.height, l);
    if OnPanel(c, q) then [FlushPixel(q, DevicePixel(fb, l))] else []
  }

  /** The writes made when the scan of the clip has come to position (lx, ly). */
  ghost function ScanOps(c: Config, mode: int, fb: Framebuffer, clip: Rect, lx: int, ly: int): seq<DrawOp>
    requires Holds(fb, clip) && lx <= Max(clip.x0, clip.x1) && ly <= clip.y1 && (clip.x0 < lx ==> ly < clip.y1)
    decreases ly - clip.y0, lx - clip.x0
  {
    if ly < clip.y0 || (ly == clip.y0 && lx <= clip.x0) then []
    else if lx <= clip.x0 then ScanOps(c, mode, fb, clip, Max(clip.x0, clip.x1), ly - 1)
    else ScanOps(c, mode, fb, clip, lx - 1, ly) + PixelOps(c, mode, fb, Point(lx - 1, ly))
  }

  /** All draw steps of ax206_drm_flush: a function of its arguments, whatever the shadow holds. */
  ghost function FlushOps(c: Config, mode: int, fb: Framebuffer, clip: Rect): seq<DrawOp>
    requires ValidClip(fb, clip)
  {
    [FlushBegin] + ScanOps(c, mode, fb, clip, clip.x0, clip.y1) + [FlushEnd]
  }

  /** src names for each panel pixel the logical pixel that maps there. */
  ghost predicate Inverse(c: Config, mode: int, src: map<Point, Point>) {
    forall p, l :: p in src ==> (src[p] == l <==> p == Ax206Map(mode, c.width, c.height, l))
  }

  lemma PixelDraws(c: Config, mode: int, src: map<Point, Point>, before: Frame, ops: seq<DrawOp>, fb: Framebuffer,
                   clip: Rect, l: Point)
    requires Covers(c, before) && src.Keys == before.Keys && Inverse(c, mode, src)
    requires Holds(fb, clip) && Contains(clip, l)
    requires PartlyFlushed(src, before, Drawn(before, ops), fb, clip, l.x, l.y)
    ensures PartlyFlushed(src, before, Drawn(before, ops + PixelOps(c, mode, fb, l)), fb, clip, l.x + 1, l.y)
  {
    var q, f := Ax206Map(mode, c.width, c.height, l), Drawn(before, ops);
    DrawnConcat(before, ops, PixelOps(c, mode, fb, l));
    FlushAdvances(src, before, f, fb, clip, l, q);
    if OnPanel(c, q) {
      var o := FlushPixel(q, DevicePixel(fb, l));
      assert [o][1..] == [];
      assert Drawn(f, [o]) == Written(f, o);
    }
  }

  lemma {:induction false} ScanDraws(c: Config, mode: int, src: map<Point, Point>, before: Frame, fb: Framebuffer,
                                     clip: Rect, lx: int, ly: int)
    requires Covers(c, before) && src.Keys == before.Keys && Inverse(c, mode, src) && ValidClip(fb, clip)
    requires clip.x0 <= lx <= clip.x1 && clip.y0 <= ly <= clip.y1 && (clip.x0 < lx ==> ly < clip.y1)
    ensures PartlyFlushed(src, before, Drawn(before, ScanOps(c, mode, fb, clip, lx, ly)), fb, clip, lx, ly)
    decreases ly, lx
  {
    if clip.x0 < lx {
      ScanDraws(c, mode, src, before, fb, clip, lx - 1, ly);
      PixelDraws(c, mode, src, before, ScanOps(c, mode, fb, clip, lx - 1, ly), fb, clip, Point(lx - 1, ly));
    } else if clip.y0 < ly {
      ScanDraws(c, mode, src, before, fb, clip, clip.x1, ly - 1);
      FlushNextRow(src, before, Drawn(before, ScanOps(c, mode, fb, clip, clip.x1, ly - 1)), fb, clip, ly - 1);
    }
  }

  /** On whatever shadow they fall, they convert the clip. */
  lemma FlushDraws(c: Config, mode: int, f: Frame, fb: Framebuffer, clip: Rect)
    requires Covers(c, f) && ValidClip(fb, clip)
    ensures Drawn(f, FlushOps(c, mode, fb, clip)) == FlushedFrame(c, mode, f, fb, clip)
  {
    var scan := ScanOps(c, mode, fb, clip, clip.x0, clip.y1);
    DrawnConcat(f, [FlushBegin] + scan, [FlushEnd]);
    DrawnConcat(f, [FlushBegin], scan);
    assert [FlushBegin][1..] == [] && [FlushEnd][1..] == [];
    forall p, l | p in Sources(c, mode)
      ensures Sources(c, mode)[p] == l <==> p == Ax206Map(mode, c.width, c.height, l)
    {
      SourceOfMap(mode, c.width, c.height, l, p);
    }
    ScanDraws(c, mode, Sources(c, mode), f, fb, clip, clip.x0, clip.y1);
    FlushComplete(c, mode, f, Drawn(f, scan), fb, clip);
  }

  // ---- A flush in progress -----------------------------------------------------------------------

  predicate PixelsOnly(c: Config, ops: seq<DrawOp>) {
    forall k :: 0 <= k < |ops| ==> ops[k].FlushPixel? && OnPanel(c, ops[k].p)
  }

  /** The box that these writes accumulate, when they fall on this frame. */
  function Box(c: Config, f: Frame, ops: seq<DrawOp>): Acc
    decreases |ops|
  {
    if ops == [] then EmptyAcc(c)
    else
      var o, front := ops[|ops| - 1], ops[..|ops| - 1];
      if !o.FlushPixel? || Written(Drawn(f, front), o) == Drawn(f, front) then Box(c, f, front)
      else Grow(Box(c, f, front), o.p)
  }

  /** Write k changes the pixel it falls on. */
  predicate Changes(f: Frame, ops: seq<DrawOp>, k: nat)
    requires k < |ops|
  {
    ops[k].FlushPixel? && Written(Drawn(f, ops[..k]), ops[k]) != Drawn(f, ops[..k])
  }

  /** Every write that changes anything falls into the box q. */
  ghost predicate Boxed(f: Frame, ops: seq<DrawOp>, q: Acc) {
    forall k :: 0 <= k < |ops| && Changes(f, ops, k) ==> InAcc(q, ops[k].p)
  }

  lemma ChangesInFront(f: Frame, ops: seq<DrawOp>, n: nat, k: nat)
    requires k < n <= |ops|
    ensures Changes(f, ops[..n], k) <==> Changes(f, ops, k)
  {
    assert ops[..n][..k] == ops[..k];
  }

  /** The accumulated box holds the changed pixels. */
  lemma {:induction false} BoxHolds(c: Config, f: Frame, ops: seq<DrawOp>)
    requires ValidConfig(c) && PixelsOnly(c, ops)
    ensures ValidAcc(c, Box(c, f, ops)) && Boxed(f, ops, Box(c, f, ops))
    decreases |ops|
  {
    if ops != [] {
      var n := |ops| - 1;
      var front := ops[..n];
      BoxHolds(c, f, front);
      GrowCovers(c, Box(c, f, front), ops[n].p, ops[n].p);
      forall k | 0 <= k < n && Changes(f, ops, k) ensures InAcc(Box(c, f, ops), ops[k].p) {
        ChangesInFront(f, ops, n, k);
        GrowCovers(c, Box(c, f, front), ops[n].p, front[k].p);
      }
    }
  }

  predicate WithinBox(a: Acc, q: Acc) { q.x0 <= a.x0 && q.y0 <= a.y0 && a.x1 <= q.x1 && a.y1 <= q.y1 }

  /** And it is the least box that does. */
  lemma {:induction false} BoxIsLeast(c: Config, f: Frame, ops: seq<DrawOp>, q: Acc)
    requires ValidConfig(c) && PixelsOnly(c, ops) && Boxed(f, ops, q)
    ensures Box(c, f, ops).changed ==> WithinBox(Box(c, f, ops), q)
    decreases |ops|
  {
    if ops != [] {
      var n := |ops| - 1;
      forall k | 0 <= k < n && Changes(f, ops[..n], k) ensures InAcc(q, ops[k].p) {
        ChangesInFront(f, ops, n, k);
      }
      BoxIsLeast(c, f, ops[..n], q);
      BoxHolds(c, f, ops[..n]);
      LastChange(c, f, ops, q);
    }
  }

  lemma LastChange(c: Config, f: Frame, ops: seq<DrawOp>, q: Acc)
    requires ValidConfig(c) && PixelsOnly(c, ops) && Boxed(f, ops, q) && ops != []
    requires var acc := Box(c, f, ops[..|ops| - 1]); ValidAcc(c, acc) && (acc.changed ==> WithinBox(acc, q))
    ensures Box(c, f, ops).changed ==> WithinBox(Box(c, f, ops), q)
  {
    var n := |ops| - 1;
    assert Changes(f, ops, n) ==> InAcc(q, ops[n].p);
  }

  /** The writes `ops` have made f of the frame before, and have accumulated acc. */
  ghost predicate UnderFlush(c: Config, before: Frame, ops: seq<DrawOp>, f: Frame, acc: Acc) {
    PixelsOnly(c, ops) && f == Drawn(before, ops) && acc == Box(c, before, ops)
  }

  lemma FlushWrite(c: Config, before: Frame, ops: seq<DrawOp>, f: Frame, acc: Acc, q: Point, v: Color)
    requires UnderFlush(c, before, ops, f, acc) && OnPanel(c, q) && q in f
    ensures UnderFlush(c, before, ops + [FlushPixel(q, v)], f[q := v], if f[q] == v then acc else Grow(acc, q))
  {
    var o := FlushPixel(q, v);
    DrawnConcat(before, ops, [o]);
    assert [o][1..] == [] && Drawn(f, [o]) == Written(f, o);
    assert (ops + [o])[..|ops|] == ops;
    assert f[q := v] == f <==> f[q] == v;
  }

  /** Such writes are steps of the state machine, from a commit thread that has just begun to flush. */
  lemma {:induction false} FlushIsRun(c: Config, s: State, ops: seq<DrawOp>) returns (run: seq<Action>, m: State)
    requires Covers(c, s.shadow) && s.commit == Free && PixelsOnly(c, ops)
    ensures ValidRun(c, s, run, m) && Draws(run) == [FlushBegin] + ops && Covers(c, m.shadow)
    ensures m == s.(shadow := Drawn(s.shadow, ops), commit := Flushing(Box(c, s.shadow, ops)))
    decreases |ops|
  {
    if ops == [] {
      RunSnoc(c, s, [], s, Draw(FlushBegin));
      DrawsSnoc([], FlushBegin);
      run, m := [] + [Draw(FlushBegin)], DoDraw(c, s, FlushBegin);
    } else {
      var o, front := ops[|ops| - 1], ops[..|ops| - 1];
      assert ops == front + [o];
      run, m := FlushIsRun(c, s, front);
      DrawsSnoc(run, o);
      DrawnConcat(s.shadow, front, [o]);
      run, m := OneWrite(c, s, run, m, o);
    }
  }

  lemma OneWrite(c: Config, s: State, run0: seq<Action>, m0: State, o: DrawOp) returns (run: seq<Action>, m: State)
    requires ValidRun(c, s, run0, m0) && Covers(c, m0.shadow) && m0.commit.Flushing?
    requires o.FlushPixel? && OnPanel(c, o.p)
    ensures run == run0 + [Draw(o)] && ValidRun(c, s, run, m) && Covers(c, m.shadow)
    ensures Drawn(m0.shadow, [o]) == Written(m0.shadow, o)
    ensures m == m0.(shadow := Written(m0.shadow, o),
                     commit := Flushing(if Written(m0.shadow, o) == m0.shadow then m0.commit.acc
                                        else Grow(m0.commit.acc, o.p)))
  {
    RunSnoc(c, s, run0, m0, Draw(o));
    run, m := run0 + [Draw(o)], DoDraw(c, m0, o);
    assert [o][1..] == [] && Drawn(m0.shadow, [o]) == Written(m0.shadow, o);
    assert m0.shadow[o.p := o.v] == m0.shadow <==> m0.shadow[o.p] == o.v;
  }

  /** What the lock section at the end of a flush leaves in the driver's part of the state. */
  predicate Marked(s: State, acc: Acc, t: State) {
    && (t.dirty, t.rect) == (if acc.changed then (true, Merge(s.dirty, s.rect, acc)) else (s.dirty, s.rect))
    && (t.active, t.queued) == (if acc.changed then (true, s.queued || !s.active) else (s.active, s.queued))
    && (t.idle, t.cleared, t.commit) == (s.idle, s.cleared, Free)
  }

  /** The run that a flush is: to its end, or to a stray read in the middle of it. */
  lemma FlushRun(c: Config, s: State, whole: bool, ops: seq<DrawOp>, f: Frame, acc: Acc)
    returns (run: seq<Action>, t: State)
    requires UnderFlush(c, s.shadow, ops, f, acc) && s.commit == Free && Covers(c, s.shadow)
    requires whole ==> (acc.changed <==> f != s.shadow)
    ensures ValidRun(c, s, run, t) && t.shadow == f && t.panel == s.panel && t.worker == s.worker && t.lost == s.lost
    ensures !whole ==> t == s.(shadow := f, commit := Flushing(acc))
    ensures whole ==> Marked(s, acc, t) && Draws(run) == [FlushBegin] + ops + [FlushEnd]
    ensures whole ==> t.damages == s.damages + (if t.shadow == s.shadow then 0 else 1)
  {
    run, t := FlushIsRun(c, s, ops);
    if whole {
      RunSnoc(c, s, run, t, Draw(FlushEnd));
      DrawsSnoc(run, FlushEnd);
      run, t := run + [Draw(FlushEnd)], EndFlush(t);
    }
  }

  /** A pixel that the flush has not passed is as it was before, so a write to it is seen by the comparison. */
  lemma ChangeSeen(before: Frame, mid: Frame, q: Point, v: Color, changed: bool)
    requires q in before && mid.Keys == before.Keys && mid[q] == before[q] && (changed <==> mid != before)
    ensures mid[q := v] != before <==> changed || v != before[q]
  {
    if v != before[q] {
      assert mid[q := v][q] != before[q];
    } else {
      assert mid[q := v] == mid;
    }
  }

  /** How far a scan has come, if the clip lies in the framebuffer. */
  ghost predicate Scanned(c: Config, mode: int, fb: Framebuffer, clip: Rect, before: Frame, ops: seq<DrawOp>, f: Frame,
                          acc: Acc, lx: int, ly: int)
    requires lx <= Max(clip.x0, clip.x1) && ly <= clip.y1 && (clip.x0 < lx ==> ly < clip.y1)
  {
    && UnderFlush(c, before, ops, f, acc) && Sources(c, mode).Keys == before.Keys
    && (Holds(fb, clip) ==>
          && (acc.changed <==> f != before)
          && PartlyFlushed(Sources(c, mode), before, f, fb, clip, lx, ly)
          && ops == ScanOps(c, mode, fb, clip, lx, ly))
  }

  /** What the body of the loops does with clip pixel l, whose place is q, takes the scan one pixel further. */
  lemma PixelDone(c: Config, mode: int, fb: Framebuffer, clip: Rect, lx: int, ly: int, q: Point, before: Frame,
                  ops: seq<DrawOp>, f0: Frame, acc0: Acc, f: Frame, acc: Acc)
    requires 0 <= Offset(fb.pitch, Point(lx, ly)) < PixelCount(fb) && Contains(clip, Point(lx, ly))
    requires q == Ax206Map(mode, c.width, c.height, Point(lx, ly))
    requires forall p :: p in Sources(c, mode) ==> (Sources(c, mode)[p] == Point(lx, ly) <==> p == q)
    requires Scanned(c, mode, fb, clip, before, ops, f0, acc0, lx, ly)
    requires UnderFlush(c, before, ops + PixelOps(c, mode, fb, Point(lx, ly)), f, acc)
    requires Covers(c, f0) && f == if OnPanel(c, q) then f0[q := DevicePixel(fb, Point(lx, ly))] else f0
    requires acc == if OnPanel(c, q) && f0[q] != DevicePixel(fb, Point(lx, ly)) then Grow(acc0, q) else acc0
    ensures Scanned(c, mode, fb, clip, before, ops + PixelOps(c, mode, fb, Point(lx, ly)), f, acc, lx + 1, ly)
  {
    if Holds(fb, clip) {
      var l := Point(lx, ly);
      FlushAdvances(Sources(c, mode), before, f0, fb, clip, l, q);
      if OnPanel(c, q) {
        ChangeSeen(before, f0, q, DevicePixel(fb, l), acc0.changed);
      }
    }
  }

  lemma ScannedRow(c: Config, mode: int, fb: Framebuffer, clip: Rect, before: Frame, ops: seq<DrawOp>, f: Frame,
                   acc: Acc, ly: int)
    requires clip.x0 <= clip.x1 && clip.y0 <= ly < clip.y1
    requires Scanned(c, mode, fb, clip, before, ops, f, acc, clip.x1, ly)
    ensures Scanned(c, mode, fb, clip, before, ops, f, acc, clip.x0, ly + 1)
  {
    if Holds(fb, clip) {
      FlushNextRow(Sources(c, mode), before, f, fb, clip, ly);
    }
  }

  /** A rectangle as the flush loops see it: its coordinates fit into u16. */
  predicate U16Clip(clip: Rect) { 0 <= clip.x0 <= clip.x1 < 0x1_0000 && 0 <= clip.y0 <= clip.y1 < 0x1_0000 }

  ghost predicate ValidClip(fb: Framebuffer, clip: Rect) {
    U16Clip(clip) && Holds(fb, clip)
  }

  ghost predicate ValidClips(fb: Framebuffer, clips: seq<Rect>) {
    forall i :: 0 <= i < |clips| ==> ValidClip(fb, clips[i])
  }

  /** The shadow after flushing the clips one after the other. */
  ghost function UpdatedFrame(c: Config, mode: int, shadow: Frame, fb: Framebuffer, clips: seq<Rect>): Frame
    requires ValidClips(fb, clips)
  {
    if clips == [] then shadow
    else FlushedFrame(c, mode, UpdatedFrame(c, mode, shadow, fb, clips[..|clips| - 1]), fb, clips[|clips| - 1])
  }

  lemma UpdateSnoc(c: Config, mode: int, shadow: Frame, fb: Framebuffer, clips: seq<Rect>, clip: Rect)
    requires ValidClips(fb, clips) && ValidClip(fb, clip)
    ensures ValidClips(fb, clips + [clip])
    ensures UpdatedFrame(c, mode, shadow, fb, clips + [clip]) ==
            FlushedFrame(c, mode, UpdatedFrame(c, mode, shadow, fb, clips), fb, clip)
  {
    assert (clips + [clip])[..|clips|] == clips;
  }

  lemma UpdateOpsSnoc(c: Config, mode: int, fb: Framebuffer, clips: seq<Rect>, clip: Rect)
    requires ValidClips(fb, clips) && ValidClip(fb, clip)
    ensures ValidClips(fb, clips + [clip])
    ensures UpdateOps(c, mode, fb, clips + [clip]) == UpdateOps(c, mode, fb, clips) + FlushOps(c, mode, fb, clip)
  {
    assert (clips + [clip])[..|clips|] == clips;
  }

  /** All draw steps of a page update. */
  ghost function UpdateOps(c: Config, mode: int, fb: Framebuffer, clips: seq<Rect>): seq<DrawOp>
    requires ValidClips(fb, clips)
  {
    if clips == [] then []
    else UpdateOps(c, mode, fb, clips[..|clips| - 1]) + FlushOps(c, mode, fb, clips[|clips| - 1])
  }

  /**
   A mode set through sysfs exchanges the logical dimensions at once, but every framebuffer keeps the size that
   the logical screen had at probe.  The next flush of the whole screen then stays inside it exactly if the
   old screen was not wider than high, or a single pixel wide.
   */
  lemma RotationStrays(c: Config, probed: int, mode: int, fb: Framebuffer)
    requires ValidConfig(c) && fb.pitch == Ax206LogicalW(probed, c.width, c.height)
    requires PixelCount(fb) == Ax206LogicalW(probed, c.width, c.height) * Ax206LogicalH(probed, c.width, c.height)
    ensures var lw, lh := Ax206LogicalW(probed, c.width, c.height), Ax206LogicalH(probed, c.width, c.height);
            var screen := Whole(Ax206LogicalW(mode, c.width, c.height), Ax206LogicalH(mode, c.width, c.height));
            Holds(fb, screen) <==> screen == Whole(lw, lh) || lw <= lh || lw == 1
  {
    var lw, lh := Ax206LogicalW(probed, c.width, c.height), Ax206LogicalH(probed, c.width, c.height);
    if Ax206LogicalW(mode, c.width, c.height) == lw {
      HoldsExact(fb, Whole(lw, lh));
      assert (lh - 1) * lw + lw == lh * lw;
    } else {
      HoldsExact(fb, Whole(lh, lw));
      SwappedArea(lh, lw);
    }
  }

  /** The run so far has flushed the first i clips. */
  ghost predicate Updated(c: Config, mode: int, fb: Framebuffer, clips: seq<Rect>, i: nat, s: State, run: seq<Action>,
                          t: State)
    requires ValidClips(fb, clips)
  {
    && i <= |clips| && ValidRun(c, s, run, t) && Draws(run) == UpdateOps(c, mode, fb, clips[..i])
    && t.shadow == UpdatedFrame(c, mode, s.shadow, fb, clips[..i])
    && t.panel == s.panel && t.worker == s.worker && t.commit == Free && t.lost == s.lost
  }

  lemma OneMoreClip(c: Config, mode: int, fb: Framebuffer, clips: seq<Rect>, i: nat, s: State, run: seq<Action>,
                    t: State, more: seq<Action>, u: State)
    returns (longer: seq<Action>, v: State)
    requires ValidClips(fb, clips) && i < |clips| && Updated(c, mode, fb, clips, i, s, run, t)
    requires ValidRun(c, t, more, u) && Draws(more) == FlushOps(c, mode, fb, clips[i])
    requires u.shadow == FlushedFrame(c, mode, t.shadow, fb, clips[i])
    requires u.panel == t.panel && u.worker == t.worker && u.commit == Free && u.lost == t.lost
    ensures v == u && Updated(c, mode, fb, clips, i + 1, s, longer, v)
  {
    UpdateSnoc(c, mode, s.shadow, fb, clips[..i], clips[i]);
    UpdateOpsSnoc(c, mode, fb, clips[..i], clips[i]);
    assert clips[..i] + [clips[i]] == clips[..i + 1];
    RunConcat(c, s, run, t, more, u);
    DrawsConcat(run, more);
    longer, v := run + more, u;
  }

  class Driver {
    const width: int
    const height: int
    const shadow: array<Color>
    var rotation: int
    var lwidth: int
    var lheight: int
    var dirtyX0: int
    var dirtyY0: int
    var dirtyX1: int
    var dirtyY1: int
    var blitDirty: bool
    var blitActive: bool
    var workQueued: bool
    var idleActive: bool
    var cleared: bool

    function Cfg(): Config { Config(width, height) }

    predicate Valid() {
      ValidConfig(Cfg()) && shadow.Length == width * height
    }

    /** The fields hold the driver's part of state s, as seen between two routines of the commit thread. */
    ghost predicate Represents(s: State)
      requires Valid()
      reads this, shadow
    {
      SameShadow(s.shadow) && Books(s)
    }

    /** All of it but the shadow. */
    predicate Books(s: State)
      reads this
    {
      && s.dirty == blitDirty && s.rect == Rect(dirtyX0, dirtyY0, dirtyX1, dirtyY1)
      && s.active == blitActive && s.queued == workQueued
      && s.idle == idleActive && s.cleared == cleared
    }

    ghost predicate SameShadow(f: Frame)
      requires Valid()
      reads shadow
    {
      && Covers(Cfg(), f)
      && forall p {:trigger f[p]} :: OnPanel(Cfg(), p) ==>
           0 <= Offset(width, p) < shadow.Length && shadow[Offset(width, p)] == f[p]
    }

    /** Probe: black shadow, clean rectangle. */
    constructor (w: int, h: int, rot: int)
      requires ValidConfig(Config(w, h))
      ensures Valid() && width == w && height == h && fresh(shadow)
      ensures forall s :: Init(Cfg(), s) ==> Represents(s)
      ensures lwidth == Ax206LogicalW(rot, w, h) && lheight == Ax206LogicalH(rot, w, h)
    {
      MulNonNegative(w, h);
      width, height := w, h;
      shadow := new Color[w * h](_ => BLACK);
      dirtyX0, dirtyY0, dirtyX1, dirtyY1 := w, h, 0, 0;
      blitDirty, blitActive, workQueued, idleActive, cleared := false, false, false, false, false;
      rotation, lwidth, lheight := rot, w, h;
      new;
      SetRotation(rot);
      forall p | OnPanel(Cfg(), p) ensures 0 <= Offset(width, p) < shadow.Length { OffsetBounds(width, height, p); }
    }

    /** ax206_drm_set_rotation: the logical screen is the domain on which the map is defined. */
    method SetRotation(rot: int)
      modifies this`rotation, this`lwidth, this`lheight
      ensures rotation == rot
      ensures lwidth == Ax206LogicalW(rot, width, height) && lheight == Ax206LogicalH(rot, width, height)
    {
      rotation := rot;
      match rot {
        case 1 => lwidth, lheight := height, width;
        case 3 => lwidth, lheight := height, width;
        case 5 => lwidth, lheight := height, width;
        case 7 => lwidth, lheight := height, width;
        case _ => lwidth, lheight := width, height;
      }
    }

    /** One iteration of the flush loops: skip an equal pixel, otherwise write it and grow the box. */
    method PutPixel(acc: Acc, q: Point, pixel: Color, ghost f: Frame) returns (acc': Acc)
      requires Valid() && SameShadow(f) && OnPanel(Cfg(), q)
      modifies shadow
      ensures SameShadow(f[q := pixel])
      ensures acc' == if f[q] == pixel then acc else Grow(acc, q)
    {
      ghost var k := Offset(width, q);
      if shadow[q.y * width + q.x] == pixel {
        return acc;
      }
      shadow[q.y * width + q.x] := pixel;
      acc' := Acc(if q.x < acc.x0 then q.x else acc.x0, if q.y < acc.y0 then q.y else acc.y0,
                  if q.x > acc.x1 then q.x else acc.x1, if q.y > acc.y1 then q.y else acc.y1, true);
      forall p | OnPanel(Cfg(), p)
        ensures 0 <= Offset(width, p) < shadow.Length && shadow[Offset(width, p)] == f[q := pixel][p]
      {
        OffsetBounds(width, height, p);
        if Offset(width, p) == k {
          OffsetInjective(width, height, p, q);
        }
      }
    }

    /** ax206_rotate_pixel: the panel pixel, if any, whose source is l. */
    method RotatePixel(l: Point) returns (q: Point)
      ensures q == Ax206Map(rotation, width, height, l)
      ensures forall p :: p in Sources(Cfg(), rotation) ==> (Sources(Cfg(), rotation)[p] == l <==> p == q)
    {
      var w, h, lx, ly := width, height, l.x, l.y;
      match rotation {
        case 1 => q := Point(h - 1 - ly, lx);
        case 2 => q := Point(w - 1 - lx, h - 1 - ly);
        case 3 => q := Point(ly, w - 1 - lx);
        case 4 => q := Point(w - 1 - lx, ly);
        case 5 => q := Point(ly, lx);
        case 6 => q := Point(lx, h - 1 - ly);
        case 7 => q := Point(h - 1 - ly, w - 1 - lx);
        case _ => q := Point(lx, ly);
      }
      forall p | p in Sources(Cfg(), rotation) ensures Sources(Cfg(), rotation)[p] == l <==> p == q {
        SourceOfMap(rotation, width, height, l, p);
      }
    }

    /** A pixel whose place is not on the panel is passed over. */
    method PlacePixel(q: Point, pixel: Color, acc0: Acc, ghost before: Frame, ghost ops: seq<DrawOp>, ghost f0: Frame)
      returns (acc: Acc, ghost f: Frame)
      requires Valid() && SameShadow(f0) && UnderFlush(Cfg(), before, ops, f0, acc0)
      modifies shadow
      ensures SameShadow(f)
      ensures UnderFlush(Cfg(), before, ops + (if OnPanel(Cfg(), q) then [FlushPixel(q, pixel)] else []), f, acc)
      ensures f == if OnPanel(Cfg(), q) then f0[q := pixel] else f0
      ensures acc == if OnPanel(Cfg(), q) && f0[q] != pixel then Grow(acc0, q) else acc0
    {
      acc, f := acc0, f0;
      if 0 <= q.x < width && 0 <= q.y < height {
        FlushWrite(Cfg(), before, ops, f0, acc0, q, pixel);
        acc := PutPixel(acc0, q, pixel, f0);
        f := f0[q := pixel];
      } else {
        assert ops + [] == ops;
      }
    }

    /**
     The body of the loops of ax206_drm_flush: convert, rotate, compare and write one pixel of the clip.  It says
     whether the pixel lies in the framebuffer; the model stops at the first that does not.
     */
    method ScanPixel(fb: Framebuffer, clip: Rect, lx: int, ly: int, acc0: Acc, ghost before: Frame,
                     ghost ops0: seq<DrawOp>, ghost f0: Frame)
      returns (inside: bool, acc: Acc, ghost ops: seq<DrawOp>, ghost f: Frame)
      requires Valid() && SameShadow(f0) && U16Clip(clip) && clip.x0 <= lx < clip.x1 && clip.y0 <= ly < clip.y1
      requires Scanned(Cfg(), rotation, fb, clip, before, ops0, f0, acc0, lx, ly)
      requires ReadsInside(fb, clip, lx, ly)
      modifies shadow
      ensures SameShadow(f) && UnderFlush(Cfg(), before, ops, f, acc)
      ensures if inside then ReadsInside(fb, clip, lx + 1, ly) else !Holds(fb, clip)
      ensures inside ==> Scanned(Cfg(), rotation, fb, clip, before, ops, f, acc, lx + 1, ly)
    {
      acc, ops, f := acc0, ops0, f0;
      var l := Point(lx, ly);
      ReadOne(fb, clip, l);
      if ly * fb.pitch + lx >= PixelCount(fb) {
        inside := false;
        return;
      }
      inside := true;
      var pixel := DevicePixel(fb, l);
      var q := RotatePixel(l);
      acc, f := PlacePixel(q, pixel, acc0, before, ops0, f0);
      ops := ops0 + PixelOps(Cfg(), rotation, fb, l);
      PixelDone(Cfg(), rotation, fb, clip, lx, ly, q, before, ops0, f0, acc0, f, acc);
    }

    /** The inner loop of ax206_drm_flush: one row of the clip. */
    method ScanRow(fb: Framebuffer, clip: Rect, ly: int, acc0: Acc, ghost before: Frame, ghost ops0: seq<DrawOp>,
                   ghost f0: Frame)
      returns (inside: bool, acc: Acc, ghost ops: seq<DrawOp>, ghost f: Frame)
      requires Valid() && SameShadow(f0) && U16Clip(clip) && clip.y0 <= ly < clip.y1
      requires Scanned(Cfg(), rotation, fb, clip, before, ops0, f0, acc0, clip.x0, ly)
      requires ReadsInside(fb, clip, clip.x0, ly)
      modifies shadow
      ensures SameShadow(f) && UnderFlush(Cfg(), before, ops, f, acc)
      ensures if inside then ReadsInside(fb, clip, clip.x1, ly) else !Holds(fb, clip)
      ensures inside ==> Scanned(Cfg(), rotation, fb, clip, before, ops, f, acc, clip.x1, ly)
    {
      inside, acc, ops, f := true, acc0, ops0, f0;
      var lx := clip.x0;
      while inside && lx < clip.x1
        invariant clip.x0 <= lx <= clip.x1
        invariant SameShadow(f) && UnderFlush(Cfg(), before, ops, f, acc)
        invariant if inside then ReadsInside(fb, clip, lx, ly) else !Holds(fb, clip)
        invariant inside ==> Scanned(Cfg(), rotation, fb, clip, before, ops, f, acc, lx, ly)
      {
        inside, acc, ops, f := ScanPixel(fb, clip, lx, ly, acc, before, ops, f);
        lx := lx + 1;
      }
    }

    /** The outer loop. */
    method ScanRows(fb: Framebuffer, clip: Rect, acc0: Acc, ghost before: Frame)
      returns (inside: bool, acc: Acc, ghost ops: seq<DrawOp>, ghost f: Frame)
      requires Valid() && SameShadow(before) && U16Clip(clip)
      requires Scanned(Cfg(), rotation, fb, clip, before, [], before, acc0, clip.x0, clip.y0)
      modifies shadow
      ensures inside <==> Holds(fb, clip)
      ensures SameShadow(f) && UnderFlush(Cfg(), before, ops, f, acc)
      ensures inside ==> Scanned(Cfg(), rotation, fb, clip, before, ops, f, acc, clip.x0, clip.y1)
    {
      inside, acc, ops, f := true, acc0, [], before;
      var ly := clip.y0;
      while ly < clip.y1
        invariant clip.y0 <= ly <= clip.y1
        invariant SameShadow(f)
        invariant Scanned(Cfg(), rotation, fb, clip, before, ops, f, acc, clip.x0, ly)
        invariant ReadsInside(fb, clip, clip.x0, ly)
      {
        inside, acc, ops, f := ScanRow(fb, clip, ly, acc, before, ops, f);
        if !inside {
          return;
        }
        ReadNextRow(fb, clip, ly);
        ScannedRow(Cfg(), rotation, fb, clip, before, ops, f, acc, ly);
        ly := ly + 1;
      }
      AllRead(fb, clip);
      inside := true;
    }

    /** The loops of ax206_drm_flush together: the shadow as unconditional conversion would leave it. */
    method Scan(fb: Framebuffer, clip: Rect, ghost before: Frame)
      returns (inside: bool, acc: Acc, ghost ops: seq<DrawOp>, ghost f: Frame)
      requires Valid() && SameShadow(before) && U16Clip(clip)
      modifies shadow
      ensures inside <==> Holds(fb, clip)
      ensures SameShadow(f) && UnderFlush(Cfg(), before, ops, f, acc)
      ensures inside ==> f == FlushedFrame(Cfg(), rotation, before, fb, clip) && (acc.changed <==> f != before)
      ensures inside ==> ops == ScanOps(Cfg(), rotation, fb, clip, clip.x0, clip.y1)
    {
      inside, acc, ops, f := ScanRows(fb, clip, Acc(width, height, 0, 0, false), before);
      if inside {
        FlushComplete(Cfg(), rotation, before, f, fb, clip);
      }
    }

    /** The lock section of ax206_drm_flush. */
    method MarkDamage(acc: Acc)
      modifies this`dirtyX0, this`dirtyY0, this`dirtyX1, this`dirtyY1, this`blitDirty, this`blitActive, this`workQueued
      ensures Rect(dirtyX0, dirtyY0, dirtyX1, dirtyY1) ==
              Merge(old(blitDirty), old(Rect(dirtyX0, dirtyY0, dirtyX1, dirtyY1)), acc)
      ensures blitDirty && blitActive && workQueued == (old(workQueued) || !old(blitActive))
    {
      if blitDirty {
        if acc.x0 < dirtyX0 { dirtyX0 := acc.x0; }
        if acc.y0 < dirtyY0 { dirtyY0 := acc.y0; }
        if U16(acc.x1 + 1) > dirtyX1 { dirtyX1 := U16(acc.x1 + 1); }
        if U16(acc.y1 + 1) > dirtyY1 { dirtyY1 := U16(acc.y1 + 1); }
      } else {
        dirtyX0, dirtyY0, dirtyX1, dirtyY1 := acc.x0, acc.y0, U16(acc.x1 + 1), U16(acc.y1 + 1);
      }
      blitDirty := true;
      if !blitActive {
        blitActive := true;
        workQueued := true;
      }
    }

    /** The end of ax206_drm_flush: the lock section, if anything has changed. */
    method FinishFlush(acc: Acc, ghost s: State, ghost t: State)
      requires Books(s) && Marked(s, acc, t)
      modifies this`dirtyX0, this`dirtyY0, this`dirtyX1, this`dirtyY1, this`blitDirty, this`blitActive, this`workQueued
      ensures Books(t)
    {
      if acc.changed {
        MarkDamage(acc);
      }
    }

    /**
     ax206_drm_flush.  Whatever the shadow held, the skip-if-equal loop leaves it as the unconditional
     conversion would; damage is marked exactly when the shadow changed; and the whole call is a run of
     the state machine.  `inside` says whether every pixel it reads lies in the framebuffer; if not, the
     run ends in the middle of the flush.
     */
    method Flush(fb: Framebuffer, clip: Rect, ghost s: State)
      returns (inside: bool, ghost run: seq<Action>, ghost t: State)
      requires Valid() && Represents(s) && s.commit == Free && U16Clip(clip)
      modifies this`dirtyX0, this`dirtyY0, this`dirtyX1, this`dirtyY1, this`blitDirty, this`blitActive, this`workQueued
      modifies shadow
      ensures inside <==> Holds(fb, clip)
      ensures Represents(t) && ValidRun(Cfg(), s, run, t)
      ensures !inside ==> t.commit.Flushing?
      ensures inside ==> t.shadow == FlushedFrame(Cfg(), rotation, s.shadow, fb, clip)
      ensures t.panel == s.panel && t.worker == s.worker && t.lost == s.lost
      ensures inside ==> t.commit == Free && t.damages == s.damages + (if t.shadow == s.shadow then 0 else 1)
      ensures inside ==> Draws(run) == FlushOps(Cfg(), rotation, fb, clip)
    {
      var acc;
      ghost var ops, f;
      inside, acc, ops, f := Scan(fb, clip, s.shadow);
      run, t := FlushRun(Cfg(), s, inside, ops, f, acc);
      if inside {
        FinishFlush(acc, s, t);
      }
    }

    /** The memset of ax206_drm_blank. */
    method ClearShadow(ghost f: Frame)
      requires Valid() && SameShadow(f)
      modifies shadow
      ensures SameShadow(AllBlack(f))
    {
      forall k | 0 <= k < shadow.Length { shadow[k] := BLACK; }
      forall p | OnPanel(Cfg(), p) ensures 0 <= Offset(width, p) < shadow.Length { OffsetBounds(width, height, p); }
    }

    /** ax206_drm_blank: zero the shadow, then mark the whole panel dirty and leave idle. */
    method Blank(first: bool, ghost s: State) returns (ghost run: seq<Action>, ghost t: State)
      requires Valid() && Represents(s) && s.commit == Free && s.link != Down && (first ==> !s.cleared)
      modifies this`dirtyX0, this`dirtyY0, this`dirtyX1, this`dirtyY1
      modifies this`blitDirty, this`blitActive, this`workQueued, this`idleActive, this`cleared
      modifies shadow
      ensures Represents(t) && ValidRun(Cfg(), s, run, t)
      ensures t.shadow == AllBlack(s.shadow)
      ensures t.dirty && t.rect == Everything(Cfg()) && t.active && !t.idle
      ensures t.panel == s.panel && t.worker == s.worker && t.commit == Free && t.lost == s.lost
    {
      cleared := cleared || first;
      run, t := BlankRun(Cfg(), s, first);
      ClearShadow(s.shadow);
      dirtyX0, dirtyY0, dirtyX1, dirtyY1 := 0, 0, width, height;
      blitDirty := true;
      idleActive := false;
      if !blitActive {
        blitActive := true;
        workQueued := true;
      }
    }

    /**
     ax206_drm_pipe_update with a mapped framebuffer: flush the whole logical screen when the framebuffer
     size changed, otherwise each damage rectangle in turn.  The damage iterator keeps its rectangles inside
     the framebuffer; the logical screen can have left it, and then the flush strays outside.
     */
    method PipeUpdate(fb: Framebuffer, sizeChanged: bool, damage: seq<Rect>, ghost s: State)
      returns (inside: bool, ghost run: seq<Action>, ghost t: State)
      requires Valid() && Represents(s) && s.commit == Free && (!sizeChanged ==> ValidClips(fb, damage))
      requires lwidth == Ax206LogicalW(rotation, width, height) && lheight == Ax206LogicalH(rotation, width, height)
      modifies this`dirtyX0, this`dirtyY0, this`dirtyX1, this`dirtyY1, this`blitDirty, this`blitActive, this`workQueued
      modifies shadow
      ensures inside <==> !sizeChanged || Holds(fb, Whole(lwidth, lheight))
      ensures Represents(t) && ValidRun(Cfg(), s, run, t)
      ensures !inside ==> t.commit.Flushing?
      ensures inside && sizeChanged ==>
                t.shadow == FlushedFrame(Cfg(), rotation, s.shadow, fb, Whole(lwidth, lheight))
      ensures !sizeChanged ==> t.shadow == UpdatedFrame(Cfg(), rotation, s.shadow, fb, damage)
      ensures inside ==>
                Draws(run) == if sizeChanged then FlushOps(Cfg(), rotation, fb, Whole(lwidth, lheight))
                              else UpdateOps(Cfg(), rotation, fb, damage)
      ensures t.panel == s.panel && t.worker == s.worker && t.lost == s.lost && (inside ==> t.commit == Free)
    {
      if sizeChanged {
        inside, run, t := Flush(fb, Rect(0, 0, lwidth, lheight), s);
      } else {
        inside := true;
        run, t := FlushDamage(fb, damage, s);
      }
    }

    /** Its loop over the damage iterator. */
    method FlushDamage(fb: Framebuffer, damage: seq<Rect>, ghost s: State)
      returns (ghost run: seq<Action>, ghost t: State)
      requires Valid() && Represents(s) && s.commit == Free && ValidClips(fb, damage)
      modifies this`dirtyX0, this`dirtyY0, this`dirtyX1, this`dirtyY1, this`blitDirty, this`blitActive, this`workQueued
      modifies shadow
      ensures Represents(t) && ValidRun(Cfg(), s, run, t)
      ensures t.shadow == UpdatedFrame(Cfg(), rotation, s.shadow, fb, damage)
      ensures Draws(run) == UpdateOps(Cfg(), rotation, fb, damage)
      ensures t.panel == s.panel && t.worker == s.worker && t.commit == Free && t.lost == s.lost
    {
      run, t := [], s;
      for i := 0 to |damage|
        invariant Represents(t)
        invariant Updated(Cfg(), rotation, fb, damage, i, s, run, t)
      {
        ghost var more, u;
        var inside;
        inside, more, u := Flush(fb, damage[i], t);
        run, t := OneMoreClip(Cfg(), rotation, fb, damage, i, s, run, t, more, u);
      }
      assert damage[..|damage|] == damage;
    }

    /** The lock section of the blit worker. */
    method TakeDirty(ghost s: State) returns (taken: bool, r: Rect)
      requires Valid() && Represents(s) && s.worker == Coalescing
      modifies this`dirtyX0, this`dirtyY0, this`dirtyX1, this`dirtyY1, this`blitDirty, this`blitActive
      ensures Represents(TakeRect(Cfg(), s))
      ensures taken == s.dirty && r == s.rect
    {
      r := Rect(dirtyX0, dirtyY0, dirtyX1, dirtyY1);
      taken := blitDirty;
      if !blitDirty {
        blitActive := false;
        return;
      }
      blitDirty := false;
      dirtyX0, dirtyY0, dirtyX1, dirtyY1 := width, height, 0, 0;
    }

    /** One memcpy of the worker: row `row` of rectangle r. */
    method CopyRow(r: Rect, row: int, buf: array<Color>)
      requires Valid() && ProperRect(width, height, r) && 0 <= row < r.y1 - r.y0
      requires buf != shadow && buf.Length == (r.x1 - r.x0) * (r.y1 - r.y0)
      modifies buf
      ensures forall p :: Contains(r, p) && p.y == r.y0 + row ==>
                && 0 <= Packed(r, p) < buf.Length && 0 <= Offset(width, p) < shadow.Length
                && buf[Packed(r, p)] == shadow[Offset(width, p)]
      ensures forall k :: 0 <= k < row * (r.x1 - r.x0) && k < buf.Length ==> buf[k] == old(buf[k])
    {
      var rw := r.x1 - r.x0;
      var dst, src := row * rw, (r.y0 + row) * width + r.x0;
      OffsetBounds(rw, r.y1 - r.y0, Point(0, row));
      OffsetBounds(rw, r.y1 - r.y0, Point(rw - 1, row));
      OffsetBounds(width, height, Point(r.x0, r.y0 + row));
      OffsetBounds(width, height, Point(r.x1 - 1, r.y0 + row));
      forall j | 0 <= j < rw { buf[dst + j] := shadow[src + j]; }
      forall p | Contains(r, p) && p.y == r.y0 + row
        ensures Packed(r, p) == dst + (p.x - r.x0) && Offset(width, p) == src + (p.x - r.x0)
      {}
    }

    /** The worker's copy of a rectangle out of the shadow into a packed transfer buffer. */
    method CopyRect(r: Rect) returns (buf: array<Color>)
      requires Valid() && ProperRect(width, height, r)
      ensures fresh(buf) && buf.Length == (r.x1 - r.x0) * (r.y1 - r.y0)
      ensures forall p :: Contains(r, p) ==>
                && 0 <= Packed(r, p) < buf.Length && 0 <= Offset(width, p) < shadow.Length
                && buf[Packed(r, p)] == shadow[Offset(width, p)]
    {
      var rw, rh := r.x1 - r.x0, r.y1 - r.y0;
      MulNonNegative(rw, rh);
      buf := new Color[rw * rh];
      for row := 0 to rh
        invariant forall p :: Contains(r, p) && p.y < r.y0 + row ==>
                    && 0 <= Packed(r, p) < row * rw && Packed(r, p) < buf.Length && 0 <= Offset(width, p) < shadow.Length
                    && buf[Packed(r, p)] == shadow[Offset(width, p)]
      {
        CopyRow(r, row, buf);
        forall p | Contains(r, p) && p.y == r.y0 + row ensures Packed(r, p) < (row + 1) * rw {}
      }
    }
  }
}
