/** RGB565, BGR565 and XRGB8888 pixels, as the drivers take them apart and put them together. */
module PixelFormat {
  import opened Grid

  datatype Rgb = Rgb(r: bv8, g: bv8, b: bv8)

  function FromXrgb8888(argb: bv32): Rgb {
    Rgb(((argb >> 16) & 0xff) as bv8, ((argb >> 8) & 0xff) as bv8, (argb & 0xff) as bv8)
  }

  /** The fields of an RGB565 pixel, of five, six and five bits. */
  function FieldsOf(raw: bv16): Rgb {
    Rgb(((raw >> 11) & 0x1f) as bv8, ((raw >> 5) & 0x3f) as bv8, (raw & 0x1f) as bv8)
  }

  /** The Beada driver repeats the top bits of each channel below them before the gamma lookup. */
  function FromRgb565(raw: bv16): Rgb {
    var c := FieldsOf(raw);
    Rgb((c.r << 3) | (c.r >> 2), (c.g << 2) | (c.g >> 4), (c.b << 3) | (c.b >> 2))
  }

  function TopFive(v: bv8): (t: bv8)
    ensures t < 32
  {
    v >> 3
  }

  function TopSix(v: bv8): (t: bv8)
    ensures t < 64
  {
    v >> 2
  }

  function Fields565(high: bv8, middle: bv8, low: bv8): bv16 {
    (high as bv16 << 11) | (middle as bv16 << 5) | low as bv16
  }

  function PackRgb565(c: Rgb): bv16 { Fields565(TopFive(c.r), TopSix(c.g), TopFive(c.b)) }

  function PackBgr565(c: Rgb): bv16 { Fields565(TopFive(c.b), TopSix(c.g), TopFive(c.r)) }

  function Swab16(v: bv16): bv16 { (v << 8) | (v >> 8) }

  /** Without gamma an RGB565 framebuffer reaches an RGB16 panel bit for bit. */
  lemma Rgb565Unchanged(raw: bv16)
    ensures PackRgb565(FromRgb565(raw)) == raw
  {}

  /** A BGR16 panel gets red and blue exchanged. */
  lemma Bgr565Exchanges(raw: bv16)
    ensures var c := FromRgb565(raw);
            FromRgb565(PackBgr565(c)) == Rgb(c.b, c.g, c.r)
  {}

  /** Packing 8-bit channels loses less than 8 steps of red and blue and less than 4 of green. */
  lemma PackingError(c: Rgb)
    ensures var d := FromRgb565(PackRgb565(c));
            && d.r & 0xf8 == c.r & 0xf8 && d.g & 0xfc == c.g & 0xfc && d.b & 0xf8 == c.b & 0xf8
  {}

  // ---- Pixels as numbers -----------------------------------------------------------------------------

  lemma Join16(v: bv16, hi: bv8, lo: bv8)
    requires v == (hi as bv16 << 8) | lo as bv16
    ensures v as int == 256 * (hi as int) + lo as int
  {}

  lemma Join32(v: bv32, x: bv8, r: bv8, g: bv8, b: bv8)
    requires v == (x as bv32 << 24) | (r as bv32 << 16) | (g as bv32 << 8) | b as bv32
    ensures v as int == 0x1000000 * (x as int) + 65536 * (r as int) + 256 * (g as int) + b as int
  {}

  lemma JoinFields(v: bv16, r: bv8, g: bv8, b: bv8)
    requires v == (r as bv16 << 11) | (g as bv16 << 5) | b as bv16 && r < 32 && g < 64 && b < 32
    ensures v as int == 2048 * (r as int) + 32 * (g as int) + b as int
  {}

  lemma Join565(r: bv8, g: bv8, b: bv8)
    requires r < 32 && g < 64 && b < 32
    ensures Fields565(r, g, b) as int == 2048 * (r as int) + 32 * (g as int) + b as int
  {
    JoinFields(Fields565(r, g, b), r, g, b);
  }

  /** A pixel put together from bytes again; X is what the format ignores. */
  lemma SplitXrgb8888(v: bv32) returns (x: bv8, r: bv8, g: bv8, b: bv8)
    ensures v == (x as bv32 << 24) | (r as bv32 << 16) | (g as bv32 << 8) | b as bv32
    ensures FromXrgb8888(v) == Rgb(r, g, b)
  {
    x, r := ((v >> 24) & 0xff) as bv8, ((v >> 16) & 0xff) as bv8;
    g, b := ((v >> 8) & 0xff) as bv8, (v & 0xff) as bv8;
  }

  lemma Digits16(n: int, hi: int, lo: int)
    requires n == 256 * hi + lo && 0 <= lo < 256
    ensures hi == n / 256 && lo == n % 256
  {}

  lemma Digits256(n: int, x: int, r: int, g: int, b: int)
    requires n == 0x1000000 * x + 65536 * r + 256 * g + b && 0 <= x && 0 <= r < 256 && 0 <= g < 256 && 0 <= b < 256
    ensures r == n / 65536 % 256 && g == n / 256 % 256 && b == n % 256
  {
    Digits16(n, 65536 * x + 256 * r + g, b);
    Digits16(n / 256, 256 * x + r, g);
    Digits16(n / 65536, x, r);
  }

  lemma ChannelsOfXrgb8888(argb: bv32)
    ensures var c, n := FromXrgb8888(argb), argb as int;
            && c.r as int == n / 65536 % 256 && c.g as int == n / 256 % 256 && c.b as int == n % 256
  {
    var x, r, g, b := SplitXrgb8888(argb);
    Join32(argb, x, r, g, b);
    Digits256(argb as int, x as int, r as int, g as int, b as int);
  }

  lemma SplitRgb565(v: bv16)
    ensures var c := FieldsOf(v); v == Fields565(c.r, c.g, c.b) && c.r < 32 && c.g < 64 && c.b < 32
  {}

  lemma FieldNumbers(v: bv16)
    ensures var c, n := FieldsOf(v), v as int;
            && c.r as int == n / 2048 && c.g as int == n / 32 % 64 && c.b as int == n % 32
            && c.r < 32 && c.g < 64 && c.b < 32
  {
    var c := FieldsOf(v);
    SplitRgb565(v);
    Join565(c.r, c.g, c.b);
    Digits565(v as int, c.r as int, c.g as int, c.b as int);
  }

  lemma Digits565(n: int, r: int, g: int, b: int)
    requires n == 2048 * r + 32 * g + b && 0 <= r && 0 <= g < 64 && 0 <= b < 32
    ensures r == n / 2048 && g == n / 32 % 64 && b == n % 32
  {
    assert n / 32 == 64 * r + g;
  }

  lemma Widened(v: bv8)
    ensures v < 32 ==> ((v << 3) | (v >> 2)) as int == 8 * (v as int) + v as int / 4
    ensures v < 64 ==> ((v << 2) | (v >> 4)) as int == 4 * (v as int) + v as int / 16
  {
    assert v as int == 4 * ((v >> 2) as int) + (v & 3) as int;
    assert v as int == 16 * ((v >> 4) as int) + (v & 15) as int;
  }

  lemma ChannelsOfRgb565(raw: bv16)
    ensures var c, n := FromRgb565(raw), raw as int;
            && c.r as int == 8 * (n / 2048) + n / 2048 / 4
            && c.g as int == 4 * (n / 32 % 64) + n / 32 % 64 / 16
            && c.b as int == 8 * (n % 32) + n % 32 / 4
  {
    var c := FieldsOf(raw);
    FieldNumbers(raw);
    Widened(c.r);
    Widened(c.g);
    Widened(c.b);
  }

  lemma TopBits(v: bv8)
    ensures TopFive(v) as int == v as int / 8 && TopSix(v) as int == v as int / 4
  {
    assert v as int == 8 * ((v >> 3) as int) + (v & 7) as int;
    assert v as int == 4 * ((v >> 2) as int) + (v & 3) as int;
  }

  /** Three channels in 16 bits, as a number. */
  function Number565(r: int, g: int, b: int): int { 2048 * (r / 8) + 32 * (g / 4) + b / 8 }

  lemma PackedNumber(c: Rgb)
    ensures PackRgb565(c) as int == Number565(c.r as int, c.g as int, c.b as int)
  {
    TopBits(c.r);
    TopBits(c.g);
    TopBits(c.b);
    Join565(TopFive(c.r), TopSix(c.g), TopFive(c.b));
  }

  lemma PackedBackwards(c: Rgb)
    ensures PackBgr565(c) as int == Number565(c.b as int, c.g as int, c.r as int)
  {
    TopBits(c.r);
    TopBits(c.g);
    TopBits(c.b);
    Join565(TopFive(c.b), TopSix(c.g), TopFive(c.r));
  }

  lemma SplitSwab(v: bv16) returns (hi: bv8, lo: bv8)
    ensures v == (hi as bv16 << 8) | lo as bv16 && Swab16(v) == (lo as bv16 << 8) | hi as bv16
  {
    hi, lo := (v >> 8) as bv8, (v & 0xff) as bv8;
  }

  lemma SwappedNumber(v: bv16)
    ensures Swab16(v) as int == 256 * (v as int % 256) + v as int / 256
  {
    var hi, lo := SplitSwab(v);
    Join16(v, hi, lo);
    Join16(Swab16(v), lo, hi);
    Digits16(v as int, hi as int, lo as int);
  }

  // ---- Gamma -----------------------------------------------------------------------------------------

  /** The per-channel tables of the Beada driver, or none. */
  datatype Gamma = Off | Tables(r: seq<bv8>, g: seq<bv8>, b: seq<bv8>)

  predicate ValidGamma(gamma: Gamma) {
    gamma.Tables? ==> |gamma.r| == 256 && |gamma.g| == 256 && |gamma.b| == 256
  }

  function Corrected(gamma: Gamma, c: Rgb): Rgb
    requires ValidGamma(gamma)
  {
    match gamma
    case Off => c
    case Tables(r, g, b) => Rgb(r[c.r as int], g[c.g as int], b[c.b as int])
  }

  // ---- Framebuffers ----------------------------------------------------------------------------------

  /** The two source formats; pitch is in pixels. */
  datatype Framebuffer =
    | Xrgb8888(pitch: nat, argb: seq<bv32>)
    | Rgb565(pitch: nat, rgb: seq<bv16>)

  function PixelCount(fb: Framebuffer): nat {
    if fb.Xrgb8888? then |fb.argb| else |fb.rgb|
  }

  /** The channels of framebuffer pixel p, widened to eight bits. */
  function Levels(fb: Framebuffer, p: Point): (int, int, int)
    requires 0 <= Offset(fb.pitch, p) < PixelCount(fb)
  {
    match fb
    case Xrgb8888(pitch, argb) =>
      var n := argb[Offset(pitch, p)] as int;
      (n / 65536 % 256, n / 256 % 256, n % 256)
    case Rgb565(pitch, rgb) =>
      var n := rgb[Offset(pitch, p)] as int;
      (8 * (n / 2048) + n / 2048 / 4, 4 * (n / 32 % 64) + n / 32 % 64 / 16, 8 * (n % 32) + n % 32 / 4)
  }

  lemma LevelsBounded(fb: Framebuffer, p: Point)
    requires 0 <= Offset(fb.pitch, p) < PixelCount(fb)
    ensures var (r, g, b) := Levels(fb, p); 0 <= r < 256 && 0 <= g < 256 && 0 <= b < 256
  {}

  /** The color of pixel p after the tables, each channel through its own. */
  function Graded(fb: Framebuffer, gamma: Gamma, p: Point): (int, int, int)
    requires 0 <= Offset(fb.pitch, p) < PixelCount(fb) && ValidGamma(gamma)
  {
    LevelsBounded(fb, p);
    var (r, g, b) := Levels(fb, p);
    match gamma
    case Off => (r, g, b)
    case Tables(red, green, blue) => (red[r] as int, green[g] as int, blue[b] as int)
  }

  /** The same color in the drivers' own terms. */
  function PixelAt(fb: Framebuffer, p: Point): Rgb
    requires 0 <= Offset(fb.pitch, p) < PixelCount(fb)
  {
    match fb
    case Xrgb8888(pitch, argb) => FromXrgb8888(argb[Offset(pitch, p)])
    case Rgb565(pitch, rgb) => FromRgb565(rgb[Offset(pitch, p)])
  }

  lemma PixelLevels(fb: Framebuffer, p: Point)
    requires 0 <= Offset(fb.pitch, p) < PixelCount(fb)
    ensures var c := PixelAt(fb, p); (c.r as int, c.g as int, c.b as int) == Levels(fb, p)
  {
    match fb
    case Xrgb8888(pitch, argb) => ChannelsOfXrgb8888(argb[Offset(pitch, p)]);
    case Rgb565(pitch, rgb) => ChannelsOfRgb565(rgb[Offset(pitch, p)]);
  }

  lemma GradedPixel(fb: Framebuffer, gamma: Gamma, p: Point)
    requires 0 <= Offset(fb.pitch, p) < PixelCount(fb) && ValidGamma(gamma)
    ensures var c := Corrected(gamma, PixelAt(fb, p)); (c.r as int, c.g as int, c.b as int) == Graded(fb, gamma, p)
  {
    PixelLevels(fb, p);
  }

  /** Every pixel of the clip lies in the framebuffer's memory. */
  ghost predicate Holds(fb: Framebuffer, clip: Rect) {
    forall l :: Contains(clip, l) ==> 0 <= Offset(fb.pitch, l) < PixelCount(fb)
  }

  /** For a clip with nonnegative corners its last pixel decides. */
  lemma HoldsExact(fb: Framebuffer, clip: Rect)
    requires 0 <= clip.x0 < clip.x1 && 0 <= clip.y0 < clip.y1
    ensures Holds(fb, clip) <==> Offset(fb.pitch, Point(clip.x1 - 1, clip.y1 - 1)) < PixelCount(fb)
  {
    var last := Point(clip.x1 - 1, clip.y1 - 1);
    assert Contains(clip, last);
    forall l | Contains(clip, l) ensures 0 <= Offset(fb.pitch, l) <= Offset(fb.pitch, last) {
      MulNonNegative(l.y, fb.pitch);
      MulNonNegative(last.y - l.y, fb.pitch);
      assert last.y * fb.pitch - l.y * fb.pitch == (last.y - l.y) * fb.pitch;
    }
  }

  /** The pixels converted so far lie in the framebuffer's memory. */
  ghost predicate ReadsInside(fb: Framebuffer, clip: Rect, x: int, y: int) {
    forall p :: Visited(clip, x, y, p) ==> 0 <= Offset(fb.pitch, p) < PixelCount(fb)
  }

  lemma ReadOffset(fb: Framebuffer, p: Point)
    requires 0 <= p.x && 0 <= p.y
    ensures 0 <= Offset(fb.pitch, p)
  {
    MulNonNegative(p.y, fb.pitch);
  }

  lemma ReadOne(fb: Framebuffer, clip: Rect, p: Point)
    requires 0 <= clip.x0 && 0 <= clip.y0 && Contains(clip, p) && ReadsInside(fb, clip, p.x, p.y)
    ensures 0 <= Offset(fb.pitch, p)
    ensures Offset(fb.pitch, p) < PixelCount(fb) ==> ReadsInside(fb, clip, p.x + 1, p.y)
    ensures Offset(fb.pitch, p) >= PixelCount(fb) ==> !Holds(fb, clip)
  {
    ReadOffset(fb, p);
  }

  lemma ReadNextRow(fb: Framebuffer, clip: Rect, y: int)
    requires ReadsInside(fb, clip, clip.x1, y)
    ensures ReadsInside(fb, clip, clip.x0, y + 1)
  {
    forall p | Visited(clip, clip.x0, y + 1, p) ensures 0 <= Offset(fb.pitch, p) < PixelCount(fb) {
      assert Visited(clip, clip.x1, y, p);
    }
  }

  lemma AllRead(fb: Framebuffer, clip: Rect)
    requires ReadsInside(fb, clip, clip.x0, clip.y1)
    ensures Holds(fb, clip)
  {
    forall p | Contains(clip, p) ensures 0 <= Offset(fb.pitch, p) < PixelCount(fb) {
      assert Visited(clip, clip.x0, clip.y1, p);
    }
  }
}
