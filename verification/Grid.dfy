/** Pixels, half-open rectangles and row-major offsets, shared by every display model. */
module Grid {
  datatype Point = Point(x: int, y: int)

  /** Half-open: x0 and y0 belong to the rectangle, x1 and y1 do not. */
  datatype Rect = Rect(x0: int, y0: int, x1: int, y1: int)

  predicate Contains(r: Rect, p: Point) {
    r.x0 <= p.x < r.x1 && r.y0 <= p.y < r.y1
  }

  /** The pixels of r that a row-by-row scan has passed when it stands at column x of row y. */
  predicate Visited(r: Rect, x: int, y: int, p: Point) {
    Contains(r, p) && (p.y < y || (p.y == y && p.x < x))
  }

  function Whole(w: int, h: int): Rect {
    Rect(0, 0, w, h)
  }

  predicate Inside(w: int, h: int, p: Point) {
    0 <= p.x < w && 0 <= p.y < h
  }

  /** A nonempty rectangle that lies on a w x h panel. */
  predicate ProperRect(w: int, h: int, r: Rect) {
    0 <= r.x0 < r.x1 <= w && 0 <= r.y0 < r.y1 <= h
  }

  ghost function Cells(r: Rect): set<Point> {
    set x: int, y: int | r.x0 <= x < r.x1 && r.y0 <= y < r.y1 :: Point(x, y)
  }

  function Min(a: int, b: int): int { if a < b then a else b }

  function Max(a: int, b: int): int { if a > b then a else b }

  /** Assignment to a u16 field. */
  function U16(n: int): int { n % 0x1_0000 }

  /** The row-major position of a pixel in a buffer whose rows are w pixels long. */
  function Offset(w: int, p: Point): int {
    p.y * w + p.x
  }

  /** Where pixel p of rectangle r sits in a buffer that holds just that rectangle. */
  function Packed(r: Rect, p: Point): int {
    Offset(r.x1 - r.x0, Point(p.x - r.x0, p.y - r.y0))
  }

  lemma OffsetBounds(w: int, h: int, p: Point)
    requires Inside(w, h, p)
    ensures 0 <= Offset(w, p) < w * h
  {
    assert p.y * w <= (h - 1) * w;
  }

  lemma MulNonNegative(a: int, b: int)
    requires 0 <= a && 0 <= b
    ensures 0 <= a * b
  {}

  lemma PackedBounds(r: Rect, p: Point)
    requires Contains(r, p)
    ensures 0 <= Packed(r, p) < (r.x1 - r.x0) * (r.y1 - r.y0)
  {
    OffsetBounds(r.x1 - r.x0, r.y1 - r.y0, Point(p.x - r.x0, p.y - r.y0));
  }

  lemma PackedInjective(r: Rect, p: Point, q: Point)
    requires Contains(r, p) && Contains(r, q) && Packed(r, p) == Packed(r, q)
    ensures p == q
  {
    OffsetInjective(r.x1 - r.x0, r.y1 - r.y0, Point(p.x - r.x0, p.y - r.y0), Point(q.x - r.x0, q.y - r.y0));
  }

  lemma OffsetInjective(w: int, h: int, p: Point, q: Point)
    requires Inside(w, h, p) && Inside(w, h, q)
    requires Offset(w, p) == Offset(w, q)
    ensures p == q
  {
    if p.y < q.y {
      RowsApart(w, p, q);
    } else if q.y < p.y {
      RowsApart(w, q, p);
    }
  }

  /** A pixel of a later row has a larger offset than the whole row before it. */
  lemma RowsApart(w: int, p: Point, q: Point)
    requires 0 < w && p.y < q.y && p.x < w && 0 <= q.x
    ensures Offset(w, p) < Offset(w, q)
  {
    MulNonNegative(q.y - p.y - 1, w);
    assert (q.y - p.y - 1) * w == q.y * w - p.y * w - w;
  }

  /** Offset is onto: every cell of a w x h buffer belongs to a pixel. */
  lemma OffsetOnto(w: int, h: int, k: int) returns (p: Point)
    requires 0 <= k < w * h && 0 < w
    ensures Inside(w, h, p) && Offset(w, p) == k
  {
    p := Point(k % w, k / w);
    if h <= p.y {
      MulNonNegative(p.y - h, w);
    }
  }

  /** Where the last pixel of a w x h rectangle lies in a buffer of h x w pixels. */
  lemma SwappedArea(w: int, h: int)
    requires 0 < w && 0 < h
    ensures (h - 1) * h + (w - 1) < h * w <==> h <= w || h == 1
  {
    assert h * w - ((h - 1) * h + (w - 1)) == (h - 1) * (w - h) + 1;
    if h <= w {
      MulNonNegative(h - 1, w - h);
    } else if h > 1 {
      MulNonNegative(h - 2, h - w);
      assert (h - 1) * (w - h) == -(h - 2) * (h - w) - (h - w);
    }
  }
}
