/**
 The AX206 shadow buffer and its coalescing blit engine, as a state machine.

 Two threads run.  The commit thread executes the pipe callbacks: it flushes damage into the shadow,
 blanks the panel, or leaves idle.  The queue thread belongs to an ordered work queue and runs one of
 three work items at a time: the blit worker, the idle entry and the resume.  Shadow pixels are read
 and written one at a time and without a lock; everything the source does under blit_lock is one step.
 */
module Ax206Blit {
  import opened Grid

  /** A pixel as the device wants it: big-endian RGB565. */
  type Color = bv16

  type Frame = map<Point, Color>

  const BLACK: Color := 0

  /** Panel dimensions; the source keeps them in u16 fields and rejects zero. */
  datatype Config = Config(width: int, height: int)

  predicate ValidConfig(c: Config) {
    0 < c.width < 0x1_0000 && 0 < c.height < 0x1_0000
  }

  predicate OnPanel(c: Config, p: Point) { Inside(c.width, c.height, p) }

  function Everything(c: Config): Rect { Whole(c.width, c.height) }

  // ---- The dirty rectangle -------------------------------------------------------------------

  /** The box a flush accumulates; x1 and y1 are inclusive here, as in the source. */
  datatype Acc = Acc(x0: int, y0: int, x1: int, y1: int, changed: bool)

  function EmptyAcc(c: Config): Acc { Acc(c.width, c.height, 0, 0, false) }

  function Grow(acc: Acc, p: Point): Acc {
    Acc(Min(acc.x0, p.x), Min(acc.y0, p.y), Max(acc.x1, p.x), Max(acc.y1, p.y), true)
  }

  predicate InAcc(acc: Acc, p: Point) {
    acc.changed && acc.x0 <= p.x <= acc.x1 && acc.y0 <= p.y <= acc.y1
  }

  predicate ValidAcc(c: Config, acc: Acc) {
    if acc.changed then
      0 <= acc.x0 <= acc.x1 < c.width && 0 <= acc.y0 <= acc.y1 < c.height
    else
      acc == EmptyAcc(c)
  }

  function NoRect(c: Config): Rect { Rect(c.width, c.height, 0, 0) }

  /** The lock section of a flush: merge the box into the dirty rectangle, in u16 arithmetic. */
  function Merge(dirty: bool, r: Rect, acc: Acc): Rect {
    if dirty then
      Rect(Min(acc.x0, r.x0), Min(acc.y0, r.y0), Max(U16(acc.x1 + 1), r.x1), Max(U16(acc.y1 + 1), r.y1))
    else
      Rect(acc.x0, acc.y0, U16(acc.x1 + 1), U16(acc.y1 + 1))
  }

  /** What Merge means: the least proper rectangle holding the old rectangle and the box, with no wrap. */
  lemma MergeIsHull(c: Config, dirty: bool, r: Rect, acc: Acc, p: Point)
    requires ValidConfig(c) && ValidAcc(c, acc) && acc.changed
    requires dirty ==> ProperRect(c.width, c.height, r)
    ensures ProperRect(c.width, c.height, Merge(dirty, r, acc))
    ensures (dirty && Contains(r, p)) || InAcc(acc, p) ==> Contains(Merge(dirty, r, acc), p)
    ensures forall q: Rect ::
              && (dirty ==> q.x0 <= r.x0 && q.y0 <= r.y0 && r.x1 <= q.x1 && r.y1 <= q.y1)
              && q.x0 <= acc.x0 && q.y0 <= acc.y0 && acc.x1 < q.x1 && acc.y1 < q.y1
              && Contains(Merge(dirty, r, acc), p)
              ==> Contains(q, p)
  {
    assert U16(acc.x1 + 1) == acc.x1 + 1 && U16(acc.y1 + 1) == acc.y1 + 1;
  }

  // ---- State ---------------------------------------------------------------------------------

  datatype Commit =
    | Free
    | Flushing(acc: Acc)
    | Blanking(zeroed: set<Point>)
    | LeaveChecked                 // idle_leave has seen idle_active
    | LeaveReading(buf: Frame)     // idle_active cleared; the full transfer is reading the shadow

  datatype Worker =
    | Resting
    | Coalescing                   // blit worker, before its lock section
    | Taken(rect: Rect)            // blit worker, rectangle snapshotted and cleared
    | Copying(rect: Rect, buf: Frame)
    | FillingBlack(overtaken: bool)  // idle_enter, idle_active set, black frame not delivered yet
    | ResumeChecked
    | ResumeReading(buf: Frame)

  /** Closing is the software disconnect, which may still push one black frame. */
  datatype Link = Up | Closing | Down

  /**
   Besides the driver's fields: `panel` is what the device shows, `queued` the pending bit of the blit
   work item, `lost` the pixels dropped by a failed transfer or allocation or blackened by an idle
   entry that an idle exit overtook, until a transfer that arrives repaints them, and `damages` and
   `takes` count lock sections that set and clear the dirty rectangle.
   */
  datatype State = State(
    panel: Frame, shadow: Frame,
    dirty: bool, rect: Rect, active: bool, queued: bool,
    idle: bool, cleared: bool, link: Link,
    commit: Commit, worker: Worker,
    lost: set<Point>, damages: nat, takes: nat)

  ghost predicate Covers(c: Config, f: Frame) {
    forall p :: p in f <==> OnPanel(c, p)
  }

  /** The driver just loaded: black shadow, demo image on the panel, nothing dirty. */
  ghost predicate Init(c: Config, s: State) {
    && ValidConfig(c)
    && Covers(c, s.panel) && Covers(c, s.shadow)
    && (forall p :: p in s.shadow ==> s.shadow[p] == BLACK)
    && !s.dirty && s.rect == NoRect(c) && !s.active && !s.queued
    && !s.idle && !s.cleared && s.link == Up
    && s.commit == Free && s.worker == Resting
    && s.lost == {} && s.damages == 0 && s.takes == 0
  }

  // ---- Steps ---------------------------------------------------------------------------------

  /** Commit thread: pipe_update flushes damage, pipe_enable and pipe_disable blank. */
  datatype DrawOp =
    | FlushBegin
    | FlushPixel(p: Point, v: Color)
    | FlushEnd
    | BlankBegin(first: bool)      // first: from pipe_enable on first use
    | BlankPixel(p: Point)
    | BlankEnd

  /** Commit thread: idle_leave called from pipe_enable.  A failed transfer leaves garbage behind. */
  datatype LeaveOp =
    | LeaveCheck
    | LeaveClear
    | LeaveRead(p: Point)
    | LeaveSent
    | LeaveFailed(garbage: Frame)

  /** Queue thread: the blit worker. */
  datatype BlitOp =
    | WorkStart
    | Snapshot
    | CheckRect(gotMemory: bool)
    | CopyPixel(p: Point)
    | BlitSent
    | BlitFailed(garbage: Frame)

  /** Queue thread: the idle entry and the resume work items. */
  datatype IdleOp =
    | EnterBegin
    | FillSent
    | FillFailed(garbage: Frame)
    | ResumeCheck
    | ResumeClear
    | ResumeRead(p: Point)
    | ResumeSent
    | ResumeFailed(garbage: Frame)

  datatype LinkOp =
    | CloseBegin
    | CloseBlack(garbage: Frame)
    | CloseEnd

  datatype Action = Draw(draw: DrawOp) | Leave(leave: LeaveOp) | Blit(blit: BlitOp) | Idle(idleOp: IdleOp) | Usb(usb: LinkOp)

  ghost predicate On(r: Rect, f: Frame) {
    forall p :: p in f ==> Contains(r, p)
  }

  ghost predicate Done(r: Rect, f: Frame) {
    forall p :: Contains(r, p) ==> p in f
  }

  ghost predicate CanDraw(c: Config, s: State, o: DrawOp) {
    match o
    case FlushBegin => s.commit == Free
    case FlushPixel(p, _) => s.commit.Flushing? && OnPanel(c, p)
    case FlushEnd => s.commit.Flushing?
    case BlankBegin(first) => s.commit == Free && s.link != Down && (first ==> !s.cleared)
    case BlankPixel(p) => s.commit.Blanking? && OnPanel(c, p)
    case BlankEnd => s.commit.Blanking? && forall p :: OnPanel(c, p) ==> p in s.commit.zeroed
  }

  ghost predicate CanLeave(c: Config, s: State, o: LeaveOp) {
    match o
    case LeaveCheck => s.commit == Free && s.idle
    case LeaveClear => s.commit == LeaveChecked
    case LeaveRead(p) => s.commit.LeaveReading? && OnPanel(c, p) && p !in s.commit.buf
    case LeaveSent => s.commit.LeaveReading? && Done(Everything(c), s.commit.buf)
    case LeaveFailed(g) => s.commit.LeaveReading? && On(Everything(c), g)
  }

  ghost predicate CanBlit(s: State, o: BlitOp) {
    match o
    case WorkStart => s.worker == Resting && s.queued
    case Snapshot => s.worker == Coalescing
    case CheckRect(_) => s.worker.Taken?
    case CopyPixel(p) => s.worker.Copying? && Contains(s.worker.rect, p) && p in s.shadow && p !in s.worker.buf
    case BlitSent => s.worker.Copying? && Done(s.worker.rect, s.worker.buf)
    case BlitFailed(g) => s.worker.Copying? && On(s.worker.rect, g)
  }

  ghost predicate CanIdle(c: Config, s: State, o: IdleOp) {
    match o
    case EnterBegin => s.worker == Resting && !s.idle
    case FillSent => s.worker.FillingBlack?
    case FillFailed(g) => s.worker.FillingBlack? && On(Everything(c), g)
    case ResumeCheck => s.worker == Resting && s.idle
    case ResumeClear => s.worker == ResumeChecked
    case ResumeRead(p) => s.worker.ResumeReading? && OnPanel(c, p) && p !in s.worker.buf
    case ResumeSent => s.worker.ResumeReading? && Done(Everything(c), s.worker.buf)
    case ResumeFailed(g) => s.worker.ResumeReading? && On(Everything(c), g)
  }

  ghost predicate CanUsb(c: Config, s: State, o: LinkOp) {
    match o
    case CloseBegin => s.link == Up
    case CloseBlack(g) => s.link == Closing && On(Everything(c), g)
    case CloseEnd => s.link == Closing
  }

  ghost predicate Enabled(c: Config, s: State, a: Action) {
    match a
    case Draw(o) => CanDraw(c, s, o)
    case Leave(o) => CanLeave(c, s, o)
    case Blit(o) => CanBlit(s, o)
    case Idle(o) => CanIdle(c, s, o)
    case Usb(o) => CanUsb(c, s, o)
  }

  /** Setting blit_dirty: queue the work item unless it is already queued or looping. */
  function MarkDirty(s: State, r: Rect): State {
    s.(dirty := true, rect := r, active := true, queued := s.queued || !s.active, damages := s.damages + 1)
  }

  /** The lock section at the end of ax206_drm_flush. */
  function EndFlush(s: State): State
    requires s.commit.Flushing?
  {
    var acc := s.commit.acc;
    var t := s.(commit := Free);
    if acc.changed then MarkDirty(t, Merge(s.dirty, s.rect, acc)) else t
  }

  /** The lock section of ax206_drm_blank. */
  function EndBlank(c: Config, s: State): State {
    MarkDirty(s.(idle := false, commit := Free), Everything(c))
  }

  /** The lock section of the blit worker. */
  function TakeRect(c: Config, s: State): State {
    if !s.dirty then s.(active := false, worker := Resting)
    else s.(dirty := false, rect := NoRect(c), worker := Taken(s.rect), takes := s.takes + 1)
  }

  /** The worker's checks between its lock section and its copy; the rectangle test is a sanity check. */
  predicate Sendable(c: Config, s: State, r: Rect) {
    && !s.idle && s.link != Down
    && !(r.x0 >= r.x1 || r.y0 >= r.y1 || r.x1 > c.width || r.y1 > c.height)
  }

  ghost function Vet(c: Config, s: State, gotMemory: bool): State
    requires s.worker.Taken?
  {
    var r := s.worker.rect;
    s.(worker := if Sendable(c, s, r) && gotMemory then Copying(r, map[]) else Coalescing,
       lost := if Sendable(c, s, r) && !gotMemory then s.lost + Cells(r) else s.lost)
  }

  function AllBlack(f: Frame): Frame { map p | p in f :: BLACK }

  /** An idle exit of the commit thread that finishes while the black frame is still on its way. */
  function Overtaken(w: Worker): Worker {
    if w.FillingBlack? then FillingBlack(true) else w
  }

  function DoDraw(c: Config, s: State, o: DrawOp): State
    requires o.FlushPixel? ==> o.p in s.shadow
    requires o.FlushPixel? || o.FlushEnd? ==> s.commit.Flushing?
    requires o.BlankPixel? ==> s.commit.Blanking?
  {
    match o
    case FlushBegin => s.(commit := Flushing(EmptyAcc(c)))
    case FlushPixel(p, v) =>
      if s.shadow[p] == v then s
      else s.(shadow := s.shadow[p := v], commit := Flushing(Grow(s.commit.acc, p)))
    case FlushEnd => EndFlush(s)
    case BlankBegin(first) => s.(cleared := s.cleared || first, commit := Blanking({}))
    case BlankPixel(p) => s.(shadow := s.shadow[p := BLACK], commit := Blanking(s.commit.zeroed + {p}))
    case BlankEnd => EndBlank(c, s)
  }

  ghost function DoLeave(c: Config, s: State, o: LeaveOp): State
    requires CanLeave(c, s, o) && Covers(c, s.shadow)
  {
    match o
    case LeaveCheck => s.(commit := LeaveChecked)
    case LeaveClear => s.(idle := false, commit := LeaveReading(map[]))
    case LeaveRead(p) => s.(commit := LeaveReading(s.commit.buf[p := s.shadow[p]]))
    case LeaveSent => s.(panel := s.panel + s.commit.buf, commit := Free, worker := Overtaken(s.worker), lost := {})
    case LeaveFailed(g) =>
      s.(panel := s.panel + g, commit := Free, worker := Overtaken(s.worker), lost := s.lost + Cells(Everything(c)))
  }

  ghost function DoBlit(c: Config, s: State, o: BlitOp): State
    requires CanBlit(s, o)
  {
    match o
    case WorkStart => s.(queued := false, worker := Coalescing)
    case Snapshot => TakeRect(c, s)
    case CheckRect(gotMemory) => Vet(c, s, gotMemory)
    case CopyPixel(p) => s.(worker := Copying(s.worker.rect, s.worker.buf[p := s.shadow[p]]))
    case BlitSent => s.(panel := s.panel + s.worker.buf, worker := Coalescing, lost := s.lost - Cells(s.worker.rect))
    case BlitFailed(g) => s.(panel := s.panel + g, worker := Coalescing, lost := s.lost + Cells(s.worker.rect))
  }

  /** Pixels given up when the black frame of an idle entry arrives after an idle exit overtook it. */
  ghost function Blackened(c: Config, s: State): set<Point> {
    if s.worker.FillingBlack? && s.worker.overtaken then Cells(Everything(c)) else {}
  }

  ghost function DoIdle(c: Config, s: State, o: IdleOp): State
    requires CanIdle(c, s, o) && Covers(c, s.shadow)
  {
    match o
    case EnterBegin => s.(idle := true, worker := FillingBlack(false))
    case FillSent => s.(panel := AllBlack(s.panel), worker := Resting, lost := s.lost + Blackened(c, s))
    case FillFailed(g) => s.(panel := s.panel + g, worker := Resting, lost := s.lost + Blackened(c, s))
    case ResumeCheck => s.(worker := ResumeChecked)
    case ResumeClear => s.(idle := false, worker := ResumeReading(map[]))
    case ResumeRead(p) => s.(worker := ResumeReading(s.worker.buf[p := s.shadow[p]]))
    case ResumeSent => s.(panel := s.panel + s.worker.buf, worker := Resting, lost := {})
    case ResumeFailed(g) => s.(panel := s.panel + g, worker := Resting, lost := s.lost + Cells(Everything(c)))
  }

  function DoUsb(s: State, o: LinkOp): State {
    match o
    case CloseBegin => s.(link := Closing)
    case CloseBlack(g) => s.(panel := s.panel + g)
    case CloseEnd => s.(link := Down)
  }

  ghost function Apply(c: Config, s: State, a: Action): State
    requires Enabled(c, s, a) && Covers(c, s.shadow)
  {
    match a
    case Draw(o) => DoDraw(c, s, o)
    case Leave(o) => DoLeave(c, s, o)
    case Blit(o) => DoBlit(c, s, o)
    case Idle(o) => DoIdle(c, s, o)
    case Usb(o) => DoUsb(s, o)
  }

  // ---- Invariant -----------------------------------------------------------------------------

  predicate Blitting(w: Worker) { w.Coalescing? || w.Taken? || w.Copying? }

  /** Where a pixel written to the shadow waits until the blit worker next takes a rectangle. */
  predicate Awaited(s: State, p: Point) {
    || (s.dirty && Contains(s.rect, p))
    || (s.commit.Flushing? && InAcc(s.commit.acc, p))
    || s.commit.Blanking?
  }

  /** Everything that accounts for a pixel on which panel and shadow differ. */
  predicate Accounted(s: State, p: Point) {
    || Awaited(s, p)
    || (s.worker.Taken? && Contains(s.worker.rect, p))
    || (s.worker.Copying? && Contains(s.worker.rect, p))
    || s.commit.LeaveReading?
    || s.worker.ResumeReading?
    || p in s.lost
  }

  ghost predicate Shape(c: Config, s: State) {
    && ValidConfig(c) && Covers(c, s.panel) && Covers(c, s.shadow)
    && (if s.dirty then ProperRect(c.width, c.height, s.rect) else s.rect == NoRect(c))
    && (s.commit.Flushing? ==> ValidAcc(c, s.commit.acc))
    && (s.commit.LeaveReading? ==> On(Everything(c), s.commit.buf))
    && (s.worker.Taken? ==> ProperRect(c.width, c.height, s.worker.rect))
    && (s.worker.Copying? ==> ProperRect(c.width, c.height, s.worker.rect) && On(s.worker.rect, s.worker.buf))
    && (s.worker.ResumeReading? ==> On(Everything(c), s.worker.buf))
  }

  predicate Wakeup(s: State) {
    && (s.dirty ==> s.active)
    && (s.active <==> s.queued || Blitting(s.worker))
    && !(s.queued && Blitting(s.worker))
    && s.takes + (if s.dirty then 1 else 0) <= s.damages
  }

  ghost predicate Freshness(s: State) {
    && (s.worker.Copying? || s.worker.ResumeReading? ==>
          forall p :: p in s.worker.buf && p in s.shadow && s.worker.buf[p] != s.shadow[p] ==> Awaited(s, p))
    && (s.commit.LeaveReading? ==>
          forall p :: p in s.commit.buf && p in s.shadow ==> s.commit.buf[p] == s.shadow[p])
  }

  predicate IdleExit(c: Config, s: State) {
    s.worker.FillingBlack? && !s.worker.overtaken && !s.idle ==>
      (s.dirty && s.rect == Everything(c)) || s.commit.LeaveReading?
  }

  ghost predicate Coverage(s: State) {
    s.cleared && !s.idle && s.link == Up ==>
      forall p :: p in s.panel && p in s.shadow && s.panel[p] != s.shadow[p] ==> Accounted(s, p)
  }

  ghost predicate Control(c: Config, s: State) { Shape(c, s) && Wakeup(s) && IdleExit(c, s) }

  ghost predicate Inv(c: Config, s: State) { Control(c, s) && Freshness(s) && Coverage(s) }

  lemma InitInv(c: Config, s: State)
    requires Init(c, s)
    ensures Inv(c, s)
  {}

  // ---- The control clauses, thread by thread

  lemma GrowCovers(c: Config, acc: Acc, p: Point, q: Point)
    requires ValidConfig(c) && ValidAcc(c, acc) && OnPanel(c, p)
    ensures ValidAcc(c, Grow(acc, p)) && InAcc(Grow(acc, p), p)
    ensures InAcc(acc, q) ==> InAcc(Grow(acc, p), q)
  {}

  lemma FlushEndControl(c: Config, s: State)
    requires Control(c, s) && CanDraw(c, s, FlushEnd)
    ensures Control(c, EndFlush(s))
  {
    if s.commit.acc.changed {
      MergeIsHull(c, s.dirty, s.rect, s.commit.acc, Point(0, 0));
    }
  }

  lemma DrawControl(c: Config, s: State, o: DrawOp)
    requires Control(c, s) && CanDraw(c, s, o)
    ensures Control(c, DoDraw(c, s, o))
  {
    if o.FlushPixel? {
      GrowCovers(c, s.commit.acc, o.p, o.p);
    } else if o.FlushEnd? {
      FlushEndControl(c, s);
    }
  }

  lemma LeaveControl(c: Config, s: State, o: LeaveOp)
    requires Control(c, s) && CanLeave(c, s, o)
    ensures Control(c, DoLeave(c, s, o))
  {}

  lemma BlitControl(c: Config, s: State, o: BlitOp)
    requires Control(c, s) && CanBlit(s, o)
    ensures Control(c, DoBlit(c, s, o))
  {}

  lemma IdleControl(c: Config, s: State, o: IdleOp)
    requires Control(c, s) && CanIdle(c, s, o)
    ensures Control(c, DoIdle(c, s, o))
  {}

  lemma UsbControl(c: Config, s: State, o: LinkOp)
    requires Control(c, s) && CanUsb(c, s, o)
    ensures Control(c, DoUsb(s, o))
  {}

  // ---- The pixel clauses

  /** A step that moves no pixel keeps both pixel clauses as long as no pixel stops being awaited. */
  lemma StillAccounted(s: State, t: State)
    requires Freshness(s) && Coverage(s)
    requires t.panel == s.panel && t.shadow == s.shadow && t.worker == s.worker && t.lost == s.lost
    requires t.idle == s.idle && t.cleared == s.cleared && t.link == s.link
    requires !s.commit.LeaveReading? && !t.commit.LeaveReading?
    requires forall p :: Awaited(s, p) ==> Awaited(t, p)
    ensures Freshness(t) && Coverage(t)
  {}

  lemma FlushPixelPixels(c: Config, s: State, p: Point, v: Color)
    requires Inv(c, s) && CanDraw(c, s, FlushPixel(p, v))
    ensures Freshness(DoDraw(c, s, FlushPixel(p, v))) && Coverage(DoDraw(c, s, FlushPixel(p, v)))
  {
    var t := DoDraw(c, s, FlushPixel(p, v));
    forall q ensures Awaited(s, q) ==> Awaited(t, q) { GrowCovers(c, s.commit.acc, p, q); }
    GrowCovers(c, s.commit.acc, p, p);
  }

  lemma FlushEndAwaited(c: Config, s: State, q: Point)
    requires Control(c, s) && CanDraw(c, s, FlushEnd)
    ensures Awaited(s, q) ==> Awaited(EndFlush(s), q)
  {
    if s.commit.acc.changed {
      MergeIsHull(c, s.dirty, s.rect, s.commit.acc, q);
    }
  }

  lemma FlushEndPixels(c: Config, s: State)
    requires Inv(c, s) && CanDraw(c, s, FlushEnd)
    ensures Freshness(EndFlush(s)) && Coverage(EndFlush(s))
  {
    forall q ensures Awaited(s, q) ==> Awaited(EndFlush(s), q) { FlushEndAwaited(c, s, q); }
    StillAccounted(s, EndFlush(s));
  }

  lemma DrawPixels(c: Config, s: State, o: DrawOp)
    requires Inv(c, s) && CanDraw(c, s, o)
    ensures Freshness(DoDraw(c, s, o)) && Coverage(DoDraw(c, s, o))
  {
    if o.FlushPixel? {
      FlushPixelPixels(c, s, o.p, o.v);
    } else if o.FlushEnd? {
      FlushEndPixels(c, s);
    }
  }

  lemma LeavePixels(c: Config, s: State, o: LeaveOp)
    requires Inv(c, s) && CanLeave(c, s, o)
    ensures Freshness(DoLeave(c, s, o)) && Coverage(DoLeave(c, s, o))
  {}

  lemma BlitPixels(c: Config, s: State, o: BlitOp)
    requires Inv(c, s) && CanBlit(s, o)
    ensures Freshness(DoBlit(c, s, o)) && Coverage(DoBlit(c, s, o))
  {
    if o.CheckRect? {
      var t := Vet(c, s, o.gotMemory);
      assert forall p :: Awaited(s, p) <==> Awaited(t, p);
    }
  }

  lemma IdlePixels(c: Config, s: State, o: IdleOp)
    requires Inv(c, s) && CanIdle(c, s, o)
    ensures Freshness(DoIdle(c, s, o)) && Coverage(DoIdle(c, s, o))
  {}

  lemma UsbPixels(c: Config, s: State, o: LinkOp)
    requires Inv(c, s) && CanUsb(c, s, o)
    ensures Freshness(DoUsb(s, o)) && Coverage(DoUsb(s, o))
  {}

  /** Every step of every thread keeps the invariant. */
  lemma StepInv(c: Config, s: State, a: Action)
    requires Inv(c, s) && Enabled(c, s, a)
    ensures Inv(c, Apply(c, s, a))
  {
    match a
    case Draw(o) => DrawControl(c, s, o); DrawPixels(c, s, o);
    case Leave(o) => LeaveControl(c, s, o); LeavePixels(c, s, o);
    case Blit(o) => BlitControl(c, s, o); BlitPixels(c, s, o);
    case Idle(o) => IdleControl(c, s, o); IdlePixels(c, s, o);
    case Usb(o) => UsbControl(c, s, o); UsbPixels(c, s, o);
  }
}
