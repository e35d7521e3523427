/**
 How the three display drivers map pixels between logical and panel coordinates, and how the MPro touch
 driver and its rotation table relate to the display map.
 */
module Orientation {
  import opened Grid

  datatype Angle = R0 | R90 | R180 | R270

  /** DRM rotation bits: one angle and two reflection flags. */
  datatype Rotation = Rotation(angle: Angle, reflectX: bool, reflectY: bool)

  predicate SwapsDims(a: Angle) { a.R90? || a.R270? }

  function OutW(a: Angle, w: int, h: int): int { if SwapsDims(a) then h else w }

  function OutH(a: Angle, w: int, h: int): int { if SwapsDims(a) then w else h }

  /** The angle part of every driver's map, from a w x h source. */
  function Turn(a: Angle, w: int, h: int, p: Point): Point {
    match a
    case R0 => p
    case R90 => Point(h - 1 - p.y, p.x)
    case R180 => Point(w - 1 - p.x, h - 1 - p.y)
    case R270 => Point(p.y, w - 1 - p.x)
  }

  function Reflect(x: bool, y: bool, w: int, h: int, p: Point): Point {
    Point(if x then w - 1 - p.x else p.x, if y then h - 1 - p.y else p.y)
  }

  function HalfTurn(w: int, h: int, p: Point): Point { Point(w - 1 - p.x, h - 1 - p.y) }

  /** mpro_drm__rotate_buffer: reflect in the source, then turn. */
  function MproMap(r: Rotation, w: int, h: int, p: Point): Point {
    Turn(r.angle, w, h, Reflect(r.reflectX, r.reflectY, w, h, p))
  }

  function Clamp(v: int, lo: int, hi: int): int { Min(Max(v, lo), hi) }

  /** rotate_coord of the Beada driver: turn, then reflect in the output, then clamp. */
  function BeadaCoord(r: Rotation, srcW: int, srcH: int, outW: int, outH: int, p: Point): Point {
    var t := Turn(r.angle, srcW, srcH, p);
    Point(Clamp(if r.reflectX then outW - 1 - t.x else t.x, 0, outW - 1), Clamp(t.y, 0, outH - 1))
  }

  /** rotate_coord for a framebuffer that fits the panel in the active rotation. */
  function BeadaMap(r: Rotation, w: int, h: int, p: Point): Point {
    BeadaCoord(r, w, h, OutW(r.angle, w, h), OutH(r.angle, w, h), p)
  }

  /** The rotation table that the MPro and the Beada sysfs attributes share. */
  function SysfsRotation(mode: nat): Rotation
    requires mode < 8
  {
    var angle := match mode % 4 { case 0 => R0 case 1 => R90 case 2 => R180 case _ => R270 };
    Rotation(angle, mode >= 4, false)
  }

  // ---- AX206 ---------------------------------------------------------------------------------

  predicate Ax206Swaps(mode: int) { mode == 1 || mode == 3 || mode == 5 || mode == 7 }

  function Ax206LogicalW(mode: int, w: int, h: int): int { if Ax206Swaps(mode) then h else w }

  function Ax206LogicalH(mode: int, w: int, h: int): int { if Ax206Swaps(mode) then w else h }

  /** ax206_rotate_pixel: from a logical pixel to a w x h panel.  Modes outside 1..7 act as 0. */
  function Ax206Map(mode: int, w: int, h: int, p: Point): Point {
    match mode
    case 1 => Point(h - 1 - p.y, p.x)
    case 2 => Point(w - 1 - p.x, h - 1 - p.y)
    case 3 => Point(p.y, w - 1 - p.x)
    case 4 => Point(w - 1 - p.x, p.y)
    case 5 => Point(p.y, p.x)
    case 6 => Point(p.x, h - 1 - p.y)
    case 7 => Point(h - 1 - p.y, w - 1 - p.x)
    case _ => p
  }

  /** The modes whose map needs a square panel. */
  predicate Ax206NeedsSquare(mode: int) { mode == 1 || mode == 3 || mode == 7 }

  lemma Ax206MapInjective(mode: int, w: int, h: int, p: Point, q: Point)
    requires Ax206Map(mode, w, h, p) == Ax206Map(mode, w, h, q)
    ensures p == q
  {}

  ghost predicate Ax206Onto(mode: int, w: int, h: int) {
    forall q :: Inside(w, h, q) ==>
      exists p :: Inside(Ax206LogicalW(mode, w, h), Ax206LogicalH(mode, w, h), p) && Ax206Map(mode, w, h, p) == q
  }

  ghost predicate Ax206StaysOnPanel(mode: int, w: int, h: int) {
    forall p :: Inside(Ax206LogicalW(mode, w, h), Ax206LogicalH(mode, w, h), p) ==>
      Inside(w, h, Ax206Map(mode, w, h, p))
  }

  /** The logical pixel shown at panel pixel q. */
  function Ax206Source(mode: int, w: int, h: int, q: Point): Point {
    match mode
    case 1 => Point(q.y, h - 1 - q.x)
    case 3 => Point(w - 1 - q.y, q.x)
    case 5 => Point(q.y, q.x)
    case 7 => Point(w - 1 - q.y, h - 1 - q.x)
    case _ => Ax206Map(mode, w, h, q)
  }

  /**
   The AX206 map is a bijection between the logical screen and the panel exactly in the modes 0, 2, 4,
   5, 6 and on square panels; otherwise some logical pixels fall off the panel and some panel pixels
   are never drawn.
   */
  lemma Ax206MapBijective(mode: int, w: int, h: int)
    requires 0 < w && 0 < h
    ensures Ax206StaysOnPanel(mode, w, h) <==> !Ax206NeedsSquare(mode) || w == h
    ensures Ax206Onto(mode, w, h) <==> !Ax206NeedsSquare(mode) || w == h
  {
    if !Ax206NeedsSquare(mode) || w == h {
      Ax206Fits(mode, w, h);
    } else {
      Ax206Misses(mode, w, h);
    }
  }

  lemma Ax206OnPanel(mode: int, w: int, h: int, p: Point)
    requires !Ax206NeedsSquare(mode) || w == h
    requires Inside(Ax206LogicalW(mode, w, h), Ax206LogicalH(mode, w, h), p)
    ensures Inside(w, h, Ax206Map(mode, w, h, p))
  {}

  lemma Ax206Covers(mode: int, w: int, h: int, q: Point)
    requires (!Ax206NeedsSquare(mode) || w == h) && Inside(w, h, q)
    ensures var p := Ax206Source(mode, w, h, q);
            Inside(Ax206LogicalW(mode, w, h), Ax206LogicalH(mode, w, h), p) && Ax206Map(mode, w, h, p) == q
  {}

  lemma Ax206Fits(mode: int, w: int, h: int)
    requires !Ax206NeedsSquare(mode) || w == h
    ensures Ax206StaysOnPanel(mode, w, h) && Ax206Onto(mode, w, h)
  {
    var lw, lh := Ax206LogicalW(mode, w, h), Ax206LogicalH(mode, w, h);
    forall p | Inside(lw, lh, p) ensures Inside(w, h, Ax206Map(mode, w, h, p)) {
      Ax206OnPanel(mode, w, h, p);
    }
    forall q | Inside(w, h, q) ensures exists p :: Inside(lw, lh, p) && Ax206Map(mode, w, h, p) == q {
      Ax206Covers(mode, w, h, q);
    }
  }

  /** A pixel that falls off and a pixel that stays undrawn, in a mode that needs a square panel. */
  lemma Ax206Misses(mode: int, w: int, h: int)
    requires 0 < w && 0 < h && w != h && Ax206NeedsSquare(mode)
    ensures !Ax206StaysOnPanel(mode, w, h) && !Ax206Onto(mode, w, h)
  {
    var lw, lh := Ax206LogicalW(mode, w, h), Ax206LogicalH(mode, w, h);
    var first, last := Point(0, 0), Point(lw - 1, lh - 1);
    assert Inside(lw, lh, first) && Inside(lw, lh, last);
    assert !Inside(w, h, Ax206Map(mode, w, h, first)) || !Inside(w, h, Ax206Map(mode, w, h, last));
    var origin, corner := Point(0, 0), Point(w - 1, h - 1);
    assert Inside(w, h, origin) && Inside(w, h, corner);
    assert (forall p :: Inside(lw, lh, p) ==> Ax206Map(mode, w, h, p) != origin)
        || (forall p :: Inside(lw, lh, p) ==> Ax206Map(mode, w, h, p) != corner);
  }

  // ---- Beada and MPro ------------------------------------------------------------------------

  function Opposite(a: Angle): Angle {
    match a { case R90 => R270 case R270 => R90 case _ => a }
  }

  lemma TurnBack(a: Angle, w: int, h: int, p: Point)
    requires Inside(w, h, p)
    ensures Inside(OutW(a, w, h), OutH(a, w, h), Turn(a, w, h, p))
    ensures Turn(Opposite(a), OutW(a, w, h), OutH(a, w, h), Turn(a, w, h, p)) == p
  {}

  /** The source pixel that rotate_buffer moves to q. */
  function MproSource(r: Rotation, w: int, h: int, q: Point): Point {
    Reflect(r.reflectX, r.reflectY, w, h, Turn(Opposite(r.angle), OutW(r.angle, w, h), OutH(r.angle, w, h), q))
  }

  /** rotate_buffer sends the source onto the destination, and MproSource undoes it. */
  lemma MproMapUndone(r: Rotation, w: int, h: int, p: Point)
    requires Inside(w, h, p)
    ensures Inside(OutW(r.angle, w, h), OutH(r.angle, w, h), MproMap(r, w, h, p))
    ensures MproSource(r, w, h, MproMap(r, w, h, p)) == p
  {
    TurnBack(r.angle, w, h, Reflect(r.reflectX, r.reflectY, w, h, p));
  }

  lemma MproMapOnto(r: Rotation, w: int, h: int, q: Point)
    requires Inside(OutW(r.angle, w, h), OutH(r.angle, w, h), q)
    ensures Inside(w, h, MproSource(r, w, h, q))
    ensures MproMap(r, w, h, MproSource(r, w, h, q)) == q
  {
    TurnBack(Opposite(r.angle), OutW(r.angle, w, h), OutH(r.angle, w, h), q);
  }

  /** The source pixel that the Beada blit moves to q. */
  function BeadaSource(r: Rotation, w: int, h: int, q: Point): Point {
    var ow, oh := OutW(r.angle, w, h), OutH(r.angle, w, h);
    Turn(Opposite(r.angle), ow, oh, Reflect(r.reflectX, false, ow, oh, q))
  }

  /** The clamp of rotate_coord never acts on a framebuffer that fits the panel. */
  lemma BeadaUnclamped(r: Rotation, w: int, h: int, p: Point)
    requires Inside(w, h, p)
    ensures BeadaMap(r, w, h, p) ==
            Reflect(r.reflectX, false, OutW(r.angle, w, h), OutH(r.angle, w, h), Turn(r.angle, w, h, p))
  {
    TurnBack(r.angle, w, h, p);
  }

  lemma BeadaMapUndone(r: Rotation, w: int, h: int, p: Point)
    requires Inside(w, h, p)
    ensures Inside(OutW(r.angle, w, h), OutH(r.angle, w, h), BeadaMap(r, w, h, p))
    ensures BeadaSource(r, w, h, BeadaMap(r, w, h, p)) == p
  {
    BeadaUnclamped(r, w, h, p);
    TurnBack(r.angle, w, h, p);
  }

  /** The pixel of a w x h screen next to p, p itself if it lies on it. */
  function Nearest(w: int, h: int, p: Point): Point { Point(Clamp(p.x, 0, w - 1), Clamp(p.y, 0, h - 1)) }

  lemma TurnNearest(a: Angle, w: int, h: int, p: Point)
    requires 0 < w && 0 < h
    ensures Turn(a, w, h, Nearest(w, h, p)) == Nearest(OutW(a, w, h), OutH(a, w, h), Turn(a, w, h, p))
  {
    match a {
      case R0 =>
      case R90 =>
      case R180 =>
      case R270 =>
    }
  }

  lemma ClampMirrored(n: int, x: int)
    requires 0 < n
    ensures Clamp(n - 1 - x, 0, n - 1) == n - 1 - Clamp(x, 0, n - 1)
    ensures Clamp(Clamp(x, 0, n - 1), 0, n - 1) == Clamp(x, 0, n - 1)
  {}

  /** A pixel beyond the logical screen is folded onto the cell of the nearest pixel on it, and only such a pixel is. */
  lemma BeadaFolds(r: Rotation, w: int, h: int, p: Point)
    requires 0 < w && 0 < h
    ensures BeadaMap(r, w, h, p) == BeadaMap(r, w, h, Nearest(w, h, p))
    ensures BeadaSource(r, w, h, BeadaMap(r, w, h, p)) == p <==> Inside(w, h, p)
  {
    var t := Turn(r.angle, w, h, p);
    TurnNearest(r.angle, w, h, p);
    ClampMirrored(OutW(r.angle, w, h), t.x);
    ClampMirrored(OutW(r.angle, w, h), Clamp(t.x, 0, OutW(r.angle, w, h) - 1));
    ClampMirrored(OutH(r.angle, w, h), t.y);
    BeadaMapUndone(r, w, h, Nearest(w, h, p));
  }

  lemma BeadaMapOnto(r: Rotation, w: int, h: int, q: Point)
    requires Inside(OutW(r.angle, w, h), OutH(r.angle, w, h), q)
    ensures Inside(w, h, BeadaSource(r, w, h, q))
    ensures BeadaMap(r, w, h, BeadaSource(r, w, h, q)) == q
  {
    var ow, oh := OutW(r.angle, w, h), OutH(r.angle, w, h);
    TurnBack(Opposite(r.angle), ow, oh, Reflect(r.reflectX, false, ow, oh, q));
    BeadaUnclamped(r, w, h, BeadaSource(r, w, h, q));
  }

  function Twin(mode: nat): nat { if mode == 5 then 7 else if mode == 7 then 5 else mode }

  /** Sysfs modes 5 and 7 are exchanged between the two drivers; the others mean the same. */
  lemma SysfsModesAgree(mode: nat, w: int, h: int, p: Point)
    requires mode < 8 && Inside(w, h, p)
    ensures MproMap(SysfsRotation(mode), w, h, p) == BeadaMap(SysfsRotation(Twin(mode)), w, h, p)
  {}

  /** So the same mode number draws the same picture, except that 5 and 7 come out turned by 180 degrees. */
  lemma SysfsModesDiffer(mode: nat, w: int, h: int, p: Point)
    requires mode < 8 && Inside(w, h, p)
    ensures var r := SysfsRotation(mode);
            BeadaMap(r, w, h, p) ==
              if mode == 5 || mode == 7 then HalfTurn(OutW(r.angle, w, h), OutH(r.angle, w, h), MproMap(r, w, h, p))
              else MproMap(r, w, h, p)
  {}

  function Ax206ToBeada(mode: nat, w: int, h: int, p: Point): Point
    requires mode < 8
  {
    BeadaMap(SysfsRotation(mode), Ax206LogicalW(mode, w, h), Ax206LogicalH(mode, w, h), p)
  }

  lemma Ax206MatchesBeada(mode: nat, w: int, h: int, p: Point)
    requires mode < 8 && Inside(Ax206LogicalW(mode, w, h), Ax206LogicalH(mode, w, h), p)
    ensures Ax206Map(mode, w, h, p) == Ax206ToBeada(mode, w, h, p) <==> !Ax206NeedsSquare(mode) || w == h
  {}

  /** The AX206 and the Beada map agree on every pixel exactly where the AX206 map is a bijection. */
  lemma Ax206VersusBeada(mode: nat, w: int, h: int)
    requires mode < 8 && 0 < w && 0 < h
    ensures (forall p :: Inside(Ax206LogicalW(mode, w, h), Ax206LogicalH(mode, w, h), p) ==>
               Ax206Map(mode, w, h, p) == Ax206ToBeada(mode, w, h, p))
            <==> Ax206Onto(mode, w, h)
  {
    Ax206MapBijective(mode, w, h);
    Ax206MatchesBeada(mode, w, h, Point(0, 0));
    forall p | Inside(Ax206LogicalW(mode, w, h), Ax206LogicalH(mode, w, h), p)
      ensures Ax206Map(mode, w, h, p) == Ax206ToBeada(mode, w, h, p) <==> Ax206Onto(mode, w, h)
    { Ax206MatchesBeada(mode, w, h, p); }
  }

  // ---- Composition and touch -----------------------------------------------------------------

  function AngleIndex(a: Angle): nat {
    match a { case R0 => 0 case R90 => 1 case R180 => 2 case R270 => 3 }
  }

  /** The angle_add table of mpro_drm__compose_rotation. */
  const ANGLE_ADD: seq<seq<Angle>> :=
    [[R0, R90, R180, R270], [R90, R180, R270, R0], [R180, R270, R0, R90], [R270, R0, R90, R180]]

  function Compose(base: Rotation, extra: Rotation): Rotation {
    Rotation(ANGLE_ADD[AngleIndex(base.angle)][AngleIndex(extra.angle)],
             base.reflectX != extra.reflectX, base.reflectY != extra.reflectY)
  }

  /** The reflections of `extra` commute with the turn of `base`. */
  predicate Commutes(base: Rotation, extra: Rotation) {
    extra.reflectX == extra.reflectY || !SwapsDims(base.angle)
  }

  lemma TurnTwice(a: Angle, b: Angle, w: int, h: int, p: Point)
    ensures Turn(b, OutW(a, w, h), OutH(a, w, h), Turn(a, w, h, p)) ==
            Turn(ANGLE_ADD[AngleIndex(a)][AngleIndex(b)], w, h, p)
  {}

  /** A reflection passes through a quarter turn by exchanging its two flags. */
  lemma ReflectAfterTurn(a: Angle, x: bool, y: bool, w: int, h: int, p: Point)
    ensures Reflect(x, y, OutW(a, w, h), OutH(a, w, h), Turn(a, w, h, p)) ==
            if SwapsDims(a) then Turn(a, w, h, Reflect(y, x, w, h, p)) else Turn(a, w, h, Reflect(x, y, w, h, p))
  {}

  lemma HalfTurnPassesTurn(a: Angle, w: int, h: int, p: Point)
    ensures Turn(a, w, h, HalfTurn(w, h, p)) == HalfTurn(OutW(a, w, h), OutH(a, w, h), Turn(a, w, h, p))
  {}

  function Dims(r: Rotation, w: int, h: int): (int, int) {
    (OutW(r.angle, w, h), OutH(r.angle, w, h))
  }

  function BaseThenExtra(base: Rotation, extra: Rotation, w: int, h: int, p: Point): Point {
    MproMap(extra, Dims(base, w, h).0, Dims(base, w, h).1, MproMap(base, w, h, p))
  }

  /** Compose denotes "base, then extra" when the two commute, and is off by a half turn otherwise. */
  lemma ComposeMeaning(base: Rotation, extra: Rotation, w: int, h: int, p: Point)
    ensures var both := Compose(base, extra);
            BaseThenExtra(base, extra, w, h, p) ==
              if Commutes(base, extra) then MproMap(both, w, h, p)
              else HalfTurn(Dims(both, w, h).0, Dims(both, w, h).1, MproMap(both, w, h, p))
  {
    var a, both := base.angle, Compose(base, extra);
    var q := Reflect(base.reflectX, base.reflectY, w, h, p);
    var straight := Reflect(extra.reflectX, extra.reflectY, w, h, q);
    var crossed := Reflect(extra.reflectY, extra.reflectX, w, h, q);
    ReflectAfterTurn(a, extra.reflectX, extra.reflectY, w, h, q);
    TurnTwice(a, extra.angle, w, h, if SwapsDims(a) then crossed else straight);
    assert straight == Reflect(both.reflectX, both.reflectY, w, h, p);
    if extra.reflectX != extra.reflectY {
      assert crossed == HalfTurn(w, h, straight);
      HalfTurnPassesTurn(both.angle, w, h, straight);
    }
  }

  predicate ComposeRight(base: Rotation, extra: Rotation, w: int, h: int, p: Point) {
    BaseThenExtra(base, extra, w, h, p) == MproMap(Compose(base, extra), w, h, p)
  }

  /** A half turn fixes a pixel of the w x h screen only in the middle of it. */
  lemma ComposeRightAt(base: Rotation, extra: Rotation, w: int, h: int, p: Point)
    requires !Commutes(base, extra)
    ensures var (w2, h2) := Dims(Compose(base, extra), w, h);
            var q := MproMap(Compose(base, extra), w, h, p);
            ComposeRight(base, extra, w, h, p) <==> w2 - 1 - q.x == q.x && h2 - 1 - q.y == q.y
  {
    ComposeMeaning(base, extra, w, h, p);
  }

  /** So the table is right on a whole screen exactly when the two commute. */
  lemma ComposeExact(base: Rotation, extra: Rotation, w: int, h: int)
    requires 0 < w && 0 < h
    ensures (forall p :: Inside(w, h, p) ==> ComposeRight(base, extra, w, h, p))
            <==> Commutes(base, extra) || (w == 1 && h == 1)
  {
    var both := Compose(base, extra);
    if Commutes(base, extra) {
      forall p | Inside(w, h, p) ensures ComposeRight(base, extra, w, h, p) { ComposeMeaning(base, extra, w, h, p); }
    } else if w == 1 && h == 1 {
      forall p | Inside(w, h, p) ensures ComposeRight(base, extra, w, h, p) {
        MproMapUndone(both, w, h, p);
        ComposeRightAt(base, extra, w, h, p);
      }
    } else {
      var corner := MproSource(both, w, h, Point(0, 0));
      MproMapOnto(both, w, h, Point(0, 0));
      ComposeRightAt(base, extra, w, h, corner);
    }
  }

  /** mpro_ts__rotate undoes the display map for these rotations, and is off by a half turn otherwise. */
  predicate TouchExact(r: Rotation) {
    r.reflectX == r.reflectY || !SwapsDims(r.angle)
  }

  /** Reflecting the shown position and turning it back leads to p, or to the pixel opposite to it. */
  lemma TouchUndoes(r: Rotation, w: int, h: int, p: Point)
    requires Inside(w, h, p)
    ensures var (dw, dh) := Dims(r, w, h);
            Turn(Opposite(r.angle), dw, dh, Reflect(r.reflectX, r.reflectY, dw, dh, MproMap(r, w, h, p))) ==
              if TouchExact(r) then p else HalfTurn(w, h, p)
  {
    var s := Reflect(r.reflectX, r.reflectY, w, h, p);
    ReflectAfterTurn(r.angle, r.reflectX, r.reflectY, w, h, s);
    var back := if SwapsDims(r.angle) then Reflect(r.reflectY, r.reflectX, w, h, s) else p;
    TurnBack(r.angle, w, h, back);
  }

  /** The first half of mpro_ts__rotate. */
  method TouchReflect(r: Rotation, dw: int, dh: int, x0: int, y0: int) returns (x: int, y: int)
    requires 0 < dw < 0x1_0000 && 0 < dh < 0x1_0000 && Inside(dw, dh, Point(x0, y0))
    ensures Point(x, y) == Reflect(r.reflectX, r.reflectY, dw, dh, Point(x0, y0))
  {
    x, y := x0, y0;
    if r.reflectX {
      x := U16(dw - 1 - x);
    }
    if r.reflectY {
      y := U16(dh - 1 - y);
    }
  }

  /**
   mpro_ts__rotate: rewrites a touch position on the dw x dh panel.  The contract names the logical
   pixel p that the display shows under the finger.
   */
  method TouchRotate(r: Rotation, dw: int, dh: int, x0: int, y0: int, ghost p: Point) returns (x: int, y: int)
    requires 0 < dw < 0x1_0000 && 0 < dh < 0x1_0000
    requires Inside(OutW(r.angle, dw, dh), OutH(r.angle, dw, dh), p)
    requires MproMap(r, OutW(r.angle, dw, dh), OutH(r.angle, dw, dh), p) == Point(x0, y0)
    ensures Point(x, y) ==
            if TouchExact(r) then p else HalfTurn(OutW(r.angle, dw, dh), OutH(r.angle, dw, dh), p)
  {
    ghost var lw, lh := OutW(r.angle, dw, dh), OutH(r.angle, dw, dh);
    MproMapUndone(r, lw, lh, p);
    TouchUndoes(r, lw, lh, p);
    var nx, ny := TouchReflect(r, dw, dh, x0, y0);
    match r.angle {
      case R90 => x, y := ny, U16(dw - 1 - nx);
      case R180 => x, y := U16(dw - 1 - nx), U16(dh - 1 - ny);
      case R270 => x, y := U16(dh - 1 - ny), nx;
      case R0 => x, y := nx, ny;
    }
  }
}
