/** What the AX206 panel shows after a sequence of page updates: damage tracking loses nothing. */
module Ax206Picture {
  import opened Grid
  import opened Orientation
  import opened Ax206Blit
  import opened Ax206Draws
  import opened Ax206Driver
  import opened Ax206Runs
  import opened PixelFormat

  function Screen(c: Config, mode: int): Rect {
    Whole(Ax206LogicalW(mode, c.width, c.height), Ax206LogicalH(mode, c.width, c.height))
  }

  function SourceOf(c: Config, mode: int, q: Point): Point { Ax206Source(mode, c.width, c.height, q) }

  /** Every panel pixel that a logical pixel maps to holds that pixel of the framebuffer. */
  ghost predicate Shows(c: Config, mode: int, f: Frame, fb: Framebuffer)
    requires Covers(c, f) && Holds(fb, Screen(c, mode))
  {
    forall q :: OnPanel(c, q) && Contains(Screen(c, mode), SourceOf(c, mode, q)) ==>
      f[q] == DevicePixel(fb, SourceOf(c, mode, q))
  }

  ghost predicate Hit(clips: seq<Rect>, l: Point) {
    exists i :: 0 <= i < |clips| && Contains(clips[i], l)
  }

  /** A sequence of flushes converts exactly the pixels that some clip contains. */
  lemma {:induction false} UpdateAt(c: Config, mode: int, f: Frame, fb: Framebuffer, clips: seq<Rect>, q: Point)
    requires Covers(c, f) && ValidClips(fb, clips) && OnPanel(c, q)
    ensures Covers(c, UpdatedFrame(c, mode, f, fb, clips))
    ensures Hit(clips, SourceOf(c, mode, q)) ==>
              && 0 <= Offset(fb.pitch, SourceOf(c, mode, q)) < PixelCount(fb)
              && UpdatedFrame(c, mode, f, fb, clips)[q] == DevicePixel(fb, SourceOf(c, mode, q))
    ensures !Hit(clips, SourceOf(c, mode, q)) ==> UpdatedFrame(c, mode, f, fb, clips)[q] == f[q]
    decreases clips
  {
    if clips != [] {
      var n := |clips| - 1;
      var l := SourceOf(c, mode, q);
      UpdateAt(c, mode, f, fb, clips[..n], q);
      assert ValidClip(fb, clips[n]);
      assert Hit(clips[..n], l) ==> Hit(clips, l);
      assert Hit(clips, l) ==> Hit(clips[..n], l) || Contains(clips[n], l);
    }
  }

  datatype Update = Update(fb: Framebuffer, clips: seq<Rect>)

  /** The damage of an update contains every logical pixel that differs from the framebuffer before it. */
  ghost predicate Damaged(c: Config, mode: int, before: Framebuffer, u: Update)
    requires Holds(before, Screen(c, mode)) && Holds(u.fb, Screen(c, mode))
  {
    forall l :: Contains(Screen(c, mode), l) && DevicePixel(before, l) != DevicePixel(u.fb, l) ==> Hit(u.clips, l)
  }

  lemma UpdateShows(c: Config, mode: int, f: Frame, before: Framebuffer, u: Update)
    requires Covers(c, f) && ValidClips(u.fb, u.clips)
    requires Holds(before, Screen(c, mode)) && Holds(u.fb, Screen(c, mode))
    requires Shows(c, mode, f, before) && Damaged(c, mode, before, u)
    ensures Covers(c, UpdatedFrame(c, mode, f, u.fb, u.clips))
    ensures Shows(c, mode, UpdatedFrame(c, mode, f, u.fb, u.clips), u.fb)
  {
    UpdateCovers(c, mode, f, u);
    forall q | OnPanel(c, q) && Contains(Screen(c, mode), SourceOf(c, mode, q))
      ensures UpdatedFrame(c, mode, f, u.fb, u.clips)[q] == DevicePixel(u.fb, SourceOf(c, mode, q))
    {
      UpdateAt(c, mode, f, u.fb, u.clips, q);
      assert f[q] == DevicePixel(before, SourceOf(c, mode, q));
    }
  }

  lemma {:induction false} UpdateCovers(c: Config, mode: int, f: Frame, u: Update)
    requires Covers(c, f) && ValidClips(u.fb, u.clips)
    ensures Covers(c, UpdatedFrame(c, mode, f, u.fb, u.clips))
    decreases |u.clips|
  {
    if u.clips != [] {
      UpdateCovers(c, mode, f, Update(u.fb, u.clips[..|u.clips| - 1]));
    }
  }

  ghost predicate ValidUpdate(c: Config, mode: int, u: Update) {
    ValidClips(u.fb, u.clips) && Holds(u.fb, Screen(c, mode))
  }

  ghost predicate ValidUpdates(c: Config, mode: int, us: seq<Update>) {
    forall i :: 0 <= i < |us| ==> ValidUpdate(c, mode, us[i])
  }

  /** The first update flushes the whole screen; each later one reports all its changes. */
  ghost predicate WellDamaged(c: Config, mode: int, us: seq<Update>) {
    && us != []
    && ValidUpdates(c, mode, us)
    && us[0].clips == [Screen(c, mode)]
    && forall i :: 0 < i < |us| ==> Damaged(c, mode, us[i - 1].fb, us[i])
  }

  ghost function AfterUpdates(c: Config, mode: int, f: Frame, us: seq<Update>): Frame
    requires ValidUpdates(c, mode, us)
  {
    if us == [] then f
    else var u := us[|us| - 1];
         UpdatedFrame(c, mode, AfterUpdates(c, mode, f, us[..|us| - 1]), u.fb, u.clips)
  }

  /** Partial updates lose nothing: the shadow shows the last framebuffer, whatever it held before. */
  lemma {:induction false} UpdatesShow(c: Config, mode: int, f: Frame, us: seq<Update>)
    requires Covers(c, f) && WellDamaged(c, mode, us)
    ensures Covers(c, AfterUpdates(c, mode, f, us))
    ensures Shows(c, mode, AfterUpdates(c, mode, f, us), us[|us| - 1].fb)
    decreases |us|
  {
    var n := |us| - 1;
    var u := us[n];
    if n == 0 {
      assert AfterUpdates(c, mode, f, us[..0]) == f;
      UpdateCovers(c, mode, f, u);
      forall q | OnPanel(c, q) && Contains(Screen(c, mode), SourceOf(c, mode, q))
        ensures UpdatedFrame(c, mode, f, u.fb, u.clips)[q] == DevicePixel(u.fb, SourceOf(c, mode, q))
      {
        assert Contains(u.clips[0], SourceOf(c, mode, q));
        UpdateAt(c, mode, f, u.fb, u.clips, q);
      }
    } else {
      UpdatesShow(c, mode, f, us[..n]);
      UpdateShows(c, mode, AfterUpdates(c, mode, f, us[..n]), us[n - 1].fb, u);
    }
  }

  /**
   On a square panel, or in the modes 0, 2, 4, 5 and 6, every panel pixel has a logical pixel; otherwise
   some panel pixel has none and is never drawn by an update.
   */
  lemma ScreenCoversPanel(c: Config, mode: int)
    requires ValidConfig(c)
    ensures (forall q :: OnPanel(c, q) ==> Contains(Screen(c, mode), SourceOf(c, mode, q)))
            <==> !Ax206NeedsSquare(mode) || c.width == c.height
  {
    var origin, corner := Point(0, 0), Point(c.width - 1, c.height - 1);
    assert OnPanel(c, origin) && OnPanel(c, corner);
    assert Ax206NeedsSquare(mode) && c.width != c.height ==>
           !Contains(Screen(c, mode), SourceOf(c, mode, origin)) || !Contains(Screen(c, mode), SourceOf(c, mode, corner));
  }

  // ---- Interleaved runs ------------------------------------------------------------------------

  /** The draw steps of a sequence of updates. */
  ghost function UpdatesOps(c: Config, mode: int, us: seq<Update>): seq<DrawOp>
    requires ValidUpdates(c, mode, us)
  {
    if us == [] then []
    else var u := us[|us| - 1];
         UpdatesOps(c, mode, us[..|us| - 1]) + UpdateOps(c, mode, u.fb, u.clips)
  }

  lemma {:induction false} UpdateDraws(c: Config, mode: int, f: Frame, u: Update)
    requires Covers(c, f) && ValidClips(u.fb, u.clips)
    ensures Drawn(f, UpdateOps(c, mode, u.fb, u.clips)) == UpdatedFrame(c, mode, f, u.fb, u.clips)
    decreases |u.clips|
  {
    if u.clips != [] {
      var n := |u.clips| - 1;
      var front := Update(u.fb, u.clips[..n]);
      UpdateDraws(c, mode, f, front);
      UpdateCovers(c, mode, f, front);
      DrawnConcat(f, UpdateOps(c, mode, u.fb, front.clips), FlushOps(c, mode, u.fb, u.clips[n]));
      assert ValidClip(u.fb, u.clips[n]);
      FlushDraws(c, mode, UpdatedFrame(c, mode, f, u.fb, front.clips), u.fb, u.clips[n]);
    }
  }

  lemma {:induction false} UpdatesDraw(c: Config, mode: int, f: Frame, us: seq<Update>)
    requires Covers(c, f) && ValidUpdates(c, mode, us)
    ensures Covers(c, AfterUpdates(c, mode, f, us))
    ensures Drawn(f, UpdatesOps(c, mode, us)) == AfterUpdates(c, mode, f, us)
    decreases |us|
  {
    if us != [] {
      var n := |us| - 1;
      assert ValidUpdate(c, mode, us[n]);
      UpdatesDraw(c, mode, f, us[..n]);
      var m := AfterUpdates(c, mode, f, us[..n]);
      UpdateCovers(c, mode, m, us[n]);
      UpdateDraws(c, mode, m, us[n]);
      DrawnConcat(f, UpdatesOps(c, mode, us[..n]), UpdateOps(c, mode, us[n].fb, us[n].clips));
    }
  }

  /**
   However the blit worker, idle entry, idle exit and resume cut into them: if the commit thread's draw steps
   in a run end with those of a well-damaged sequence of updates, then at rest every panel pixel that was
   not lost and that a logical pixel maps to shows the last framebuffer.
   */
  lemma PanelShowsFramebuffer(c: Config, mode: int, s: State, run: seq<Action>, t: State, earlier: seq<DrawOp>,
                              us: seq<Update>)
    requires Init(c, s) && ValidRun(c, s, run, t)
    requires Quiescent(t) && t.cleared && !t.idle && t.link == Up
    requires WellDamaged(c, mode, us) && Draws(run) == earlier + UpdatesOps(c, mode, us)
    ensures Covers(c, t.panel) && Covers(c, t.shadow) && Shows(c, mode, t.shadow, us[|us| - 1].fb)
    ensures forall q :: OnPanel(c, q) && q !in t.lost && Contains(Screen(c, mode), SourceOf(c, mode, q)) ==>
              t.panel[q] == DevicePixel(us[|us| - 1].fb, SourceOf(c, mode, q))
  {
    var f := Drawn(s.shadow, earlier);
    InitInv(c, s);
    RunInv(c, s, run, t);
    PrefixCovers(c, s, run, t, earlier);
    ShadowIsDrawn(c, s, run, t);
    DrawnConcat(s.shadow, earlier, UpdatesOps(c, mode, us));
    UpdatesDraw(c, mode, f, us);
    UpdatesShow(c, mode, f, us);
    Convergence(c, s, run, t);
  }
}
