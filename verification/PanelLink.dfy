/**
 The Panel-Link session of a BeadaPanel: the firmware latches the frame dimensions on the first START tag
 and takes no other START until it is reset; the host keeps a copy of the latch and has to keep it right
 across frames, suspend, loss of power, and resume.
 */
module PanelLink {
  /** What reaches the firmware, in order. */
  datatype Wire = Start(w: nat, h: nat) | Pixels(w: nat, h: nat) | Reset | PowerLoss

  datatype Latch = Unlatched | Latched(w: nat, h: nat)

  /** How a bulk transfer ends: Late is one that arrives although the host sees it fail. */
  datatype Transfer = Complete | Nothing | Late

  predicate Delivered(t: Transfer) { t != Nothing }

  // ---- The firmware --------------------------------------------------------------------------------

  /** The latch after everything on the wire so far; a START that finds it set is swallowed as pixels. */
  function LatchOf(wire: seq<Wire>): Latch {
    if wire == [] then Unlatched
    else
      var before := LatchOf(wire[..|wire| - 1]);
      match wire[|wire| - 1]
      case Start(w, h) => if before == Unlatched then Latched(w, h) else before
      case Pixels(_, _) => before
      case Reset => Unlatched
      case PowerLoss => Unlatched
  }

  /** No START while latched, no pixels while unlatched, and every frame has the dimensions of its START. */
  ghost predicate Accepted(wire: seq<Wire>) {
    forall k :: 0 <= k < |wire| ==>
      && (wire[k].Start? ==> LatchOf(wire[..k]) == Unlatched)
      && (wire[k].Pixels? ==> LatchOf(wire[..k]) == Latched(wire[k].w, wire[k].h))
  }

  lemma Snoc(wire: seq<Wire>, e: Wire)
    ensures LatchOf(wire + [e]) ==
            match e
            case Start(w, h) => if LatchOf(wire) == Unlatched then Latched(w, h) else LatchOf(wire)
            case Pixels(_, _) => LatchOf(wire)
            case _ => Unlatched
    ensures Accepted(wire + [e]) <==>
            && Accepted(wire)
            && (e.Start? ==> LatchOf(wire) == Unlatched)
            && (e.Pixels? ==> LatchOf(wire) == Latched(e.w, e.h))
  {
    var longer := wire + [e];
    assert longer[..|longer| - 1] == wire;
    assert forall k :: 0 <= k <= |wire| ==> longer[..k] == wire[..k];
    assert forall k :: 0 <= k < |wire| ==> longer[k] == wire[k];
    if Accepted(longer) {
      assert longer[|wire|] == e && longer[..|wire|] == wire;
    }
  }

  // ---- The host ------------------------------------------------------------------------------------

  const MAX_FRAME_BYTES := 1280 * 480 * 2

  predicate Fits(w: nat, h: nat) { w * h * 2 <= MAX_FRAME_BYTES }

  /** Where resume stands: Woken until PL_RESET has been tried, Settling until the cache is zeroed. */
  datatype Phase = Running | Woken | Settling

  datatype World = World(
    cachedW: nat,
    cachedH: nat,
    suspended: bool,
    disconnected: bool,
    statuslink: bool,
    phase: Phase,
    wire: seq<Wire>)

  datatype Code = Ok | Invalid | NoDevice | HostDown | NotSupported | UsbError

  datatype Action =
    | Frame(w: nat, h: nat, start: Transfer, pixels: Transfer)
    | Suspend
    | LosePower
    | Wake
    | SendReset(t: Transfer)
    | Zero
    | Disconnect

  function Alive(s: World): Code {
    if s.disconnected then NoDevice else if s.suspended then HostDown else Ok
  }

  function Emit(wire: seq<Wire>, e: Wire, t: Transfer): seq<Wire> {
    if Delivered(t) then wire + [e] else wire
  }

  /** The part of pl_send up to the size check: START, or the comparison with the cache. */
  function Announced(s: World, w: nat, h: nat, start: Transfer): (World, Code) {
    if s.cachedW == 0 && s.cachedH == 0 then
      var wire := Emit(s.wire, Start(w, h), start);
      if start != Complete then (s.(wire := wire), UsbError)
      else (s.(wire := wire, cachedW := w, cachedH := h), Ok)
    else (s, if w != s.cachedW || h != s.cachedH then Invalid else Ok)
  }

  function Painted(s: World, w: nat, h: nat, fits: bool, pixels: Transfer): (World, Code) {
    if !fits then (s, Invalid)
    else (s.(wire := Emit(s.wire, Pixels(w, h), pixels)), if pixels == Complete then Ok else UsbError)
  }

  function Sent(s: World, w: nat, h: nat, start: Transfer, pixels: Transfer): (World, Code) {
    var (s', code) := Announced(s, w, h, start);
    if code != Ok then (s', code) else Painted(s', w, h, Fits(w, h), pixels)
  }

  predicate EmptyCache(s: World) { s.cachedW == 0 && s.cachedH == 0 }

  /** START has gone through, now or earlier, with these dimensions. */
  predicate Opened(s: World, w: nat, h: nat, start: Transfer) {
    if EmptyCache(s) then start == Complete else (w, h) == (s.cachedW, s.cachedH)
  }

  /** What the caller of pl_send learns: success exactly if the whole frame went through, and else why it did not. */
  lemma SentExact(s: World, w: nat, h: nat, start: Transfer, pixels: Transfer)
    ensures var code := Sent(s, w, h, start, pixels).1;
            && (code == Ok <==> Opened(s, w, h, start) && w * h * 2 <= MAX_FRAME_BYTES && pixels == Complete)
            && (code == UsbError <==>
                  if Opened(s, w, h, start) then w * h * 2 <= MAX_FRAME_BYTES && pixels != Complete else EmptyCache(s))
            && (code == Invalid <==> if Opened(s, w, h, start) then w * h * 2 > MAX_FRAME_BYTES else !EmptyCache(s))
  {}

  /** What it puts on the wire, in order: START with an empty cache, then the pixels of a frame that fits. */
  function Traffic(s: World, w: nat, h: nat, start: Transfer, pixels: Transfer): seq<Wire> {
    (if EmptyCache(s) && start != Nothing then [Start(w, h)] else []) +
    (if Opened(s, w, h, start) && w * h * 2 <= MAX_FRAME_BYTES && pixels != Nothing then [Pixels(w, h)] else [])
  }

  /** And what else it changes: a START that completes is remembered. */
  lemma SentEffect(s: World, w: nat, h: nat, start: Transfer, pixels: Transfer)
    ensures var t := Sent(s, w, h, start, pixels).0;
            && t.wire == s.wire + Traffic(s, w, h, start, pixels)
            && (t.cachedW, t.cachedH) ==
                 (if EmptyCache(s) && start == Complete then (w, h) else (s.cachedW, s.cachedH))
            && t == s.(wire := t.wire, cachedW := t.cachedW, cachedH := t.cachedH)
  {}

  function Worked(s: World, w: nat, h: nat, start: Transfer, pixels: Transfer): (World, Code) {
    if Alive(s) != Ok then (s, Alive(s)) else Sent(s, w, h, start, pixels)
  }

  function ResetTried(s: World, t: Transfer): (World, Code) {
    if !s.statuslink then (s, NotSupported)
    else if Alive(s) != Ok then (s, Alive(s))
    else (s.(wire := Emit(s.wire, Reset, t)), if t == Complete then Ok else UsbError)
  }

  /** Frames come from beada_send_frame, which refuses empty ones; power is lost only in suspend. */
  predicate Enabled(s: World, a: Action) {
    match a
    case Frame(w, h, _, _) => 0 < w <= 0xffff && 0 < h <= 0xffff
    case Suspend => s.phase == Running && !s.suspended
    case LosePower => s.suspended
    case Wake => s.suspended && s.phase == Running
    case SendReset(_) => s.phase == Woken
    case Zero => s.phase == Settling
    case Disconnect => true
  }

  function Apply(s: World, a: Action): World
    requires Enabled(s, a)
  {
    match a
    case Frame(w, h, start, pixels) => Worked(s, w, h, start, pixels).0
    case Suspend => s.(suspended := true)
    case LosePower => s.(wire := s.wire + [PowerLoss])
    case Wake => s.(suspended := false, phase := Woken)
    case SendReset(t) => ResetTried(s, t).0.(phase := Settling)
    case Zero => s.(cachedW := 0, cachedH := 0, phase := Running)
    case Disconnect => s.(disconnected := true)
  }

  ghost predicate ValidRun(s: World, run: seq<Action>, t: World)
    decreases run
  {
    if run == [] then t == s else Enabled(s, run[0]) && ValidRun(Apply(s, run[0]), run[1..], t)
  }

  /** Probe goes on only after its own PL_RESET went through; GET_INFO may turn Status-Link off later. */
  function Probed(history: seq<Wire>, statuslink: bool): World {
    World(0, 0, false, false, statuslink, Running, history + [Reset])
  }

  // ---- The latch is tracked ------------------------------------------------------------------------

  function CachedLatch(s: World): Latch {
    if s.cachedW == 0 && s.cachedH == 0 then Unlatched else Latched(s.cachedW, s.cachedH)
  }

  predicate Tracked(s: World) {
    match s.phase
    case Running => LatchOf(s.wire) == CachedLatch(s) || (s.suspended && LatchOf(s.wire) == Unlatched)
    case Woken => LatchOf(s.wire) == CachedLatch(s) || LatchOf(s.wire) == Unlatched
    case Settling => LatchOf(s.wire) == Unlatched
  }

  ghost predicate Inv(s: World) {
    && Accepted(s.wire)
    && (s.disconnected || Tracked(s))
    && (s.phase != Running ==> !s.suspended)
    && (s.cachedW == 0 <==> s.cachedH == 0)
  }

  /** What a run must keep to: no frame in the resume window, no late START, the reset arrives if it matters. */
  predicate Proper(s: World, a: Action) {
    s.disconnected ||
    match a
    case Frame(_, _, start, _) => s.phase == Running && start != Late
    case SendReset(t) => LatchOf(s.wire) == Unlatched || (s.statuslink && Delivered(t))
    case _ => true
  }

  ghost predicate ProperRun(s: World, run: seq<Action>)
    decreases run
  {
    run == [] || (Enabled(s, run[0]) && Proper(s, run[0]) && ProperRun(Apply(s, run[0]), run[1..]))
  }

  /** The stream so far is accepted and the cache is the latch. */
  ghost predicate InSession(s: World) {
    Accepted(s.wire) && LatchOf(s.wire) == CachedLatch(s) && (s.cachedW == 0 <==> s.cachedH == 0)
  }

  lemma AnnouncedInv(s: World, w: nat, h: nat, start: Transfer)
    requires InSession(s) && start != Late && 0 < w && 0 < h
    ensures InSession(Announced(s, w, h, start).0)
    ensures Announced(s, w, h, start).1 == Ok ==> CachedLatch(Announced(s, w, h, start).0) == Latched(w, h)
  {
    Snoc(s.wire, Start(w, h));
  }

  lemma PaintedInv(s: World, w: nat, h: nat, fits: bool, pixels: Transfer)
    requires InSession(s) && CachedLatch(s) == Latched(w, h)
    ensures InSession(Painted(s, w, h, fits, pixels).0)
  {
    Snoc(s.wire, Pixels(w, h));
  }

  lemma SentInv(s: World, w: nat, h: nat, start: Transfer, pixels: Transfer)
    requires InSession(s) && start != Late && 0 < w && 0 < h
    ensures InSession(Sent(s, w, h, start, pixels).0)
  {
    AnnouncedInv(s, w, h, start);
    var m := Announced(s, w, h, start);
    if m.1 == Ok {
      PaintedInv(m.0, w, h, Fits(w, h), pixels);
    }
  }

  lemma StepInv(s: World, a: Action)
    requires Inv(s) && Enabled(s, a) && Proper(s, a)
    ensures Inv(Apply(s, a))
  {
    match a
    case Frame(w, h, start, pixels) =>
      if Alive(s) == Ok {
        SentInv(s, w, h, start, pixels);
      }
    case LosePower => Snoc(s.wire, PowerLoss);
    case SendReset(_) => Snoc(s.wire, Reset);
    case _ =>
  }

  lemma {:induction false} RunInv(s: World, run: seq<Action>, t: World)
    requires Inv(s) && ValidRun(s, run, t) && ProperRun(s, run)
    ensures Inv(t)
    decreases run
  {
    if run != [] {
      StepInv(s, run[0]);
      RunInv(Apply(s, run[0]), run[1..], t);
    }
  }

  /**
   Over every proper run of frames, suspends with or without loss of the latch, resumes, failed transfers
   and a disconnect, the firmware accepts the whole stream, and while the driver runs the cache is the latch.
   */
  lemma LatchTracked(history: seq<Wire>, statuslink: bool, run: seq<Action>, t: World)
    requires Accepted(history)
    requires ValidRun(Probed(history, statuslink), run, t) && ProperRun(Probed(history, statuslink), run)
    ensures Accepted(t.wire)
    ensures t.phase == Running && Alive(t) == Ok ==> LatchOf(t.wire) == CachedLatch(t)
  {
    Snoc(history, Reset);
    RunInv(Probed(history, statuslink), run, t);
  }

  // ---- Each condition is needed ----------------------------------------------------------------------

  predicate Sized(w: nat, h: nat) { 0 < w <= 0xffff && 0 < h <= 0xffff }

  /** A frame whose transfers complete. */
  function Full(w: nat, h: nat): Action { Frame(w, h, Complete, Complete) }

  /** What such a frame does to an awake device: announce and paint, paint, or nothing. */
  lemma FrameEffect(s: World, w: nat, h: nat)
    requires Alive(s) == Ok && Sized(w, h)
    ensures var t := Apply(s, Full(w, h));
            if CachedLatch(s) == Unlatched then
              t == s.(cachedW := w, cachedH := h,
                      wire := if Fits(w, h) then s.wire + [Start(w, h)] + [Pixels(w, h)] else s.wire + [Start(w, h)])
            else if CachedLatch(s) == Latched(w, h) && Fits(w, h) then t == s.(wire := s.wire + [Pixels(w, h)])
            else t == s
  {}

  /** And to the stream: it stays accepted if the cache is the latch, or is not sent at all. */
  lemma FrameAccepted(s: World, w: nat, h: nat)
    requires Alive(s) == Ok && Sized(w, h)
    ensures var t := Apply(s, Full(w, h));
            if CachedLatch(s) == Unlatched then
              && (Accepted(t.wire) <==> Accepted(s.wire) && LatchOf(s.wire) == Unlatched)
              && (Accepted(t.wire) ==> LatchOf(t.wire) == Latched(w, h))
            else if CachedLatch(s) == Latched(w, h) && Fits(w, h) then
              && (Accepted(t.wire) <==> Accepted(s.wire) && LatchOf(s.wire) == CachedLatch(s))
              && LatchOf(t.wire) == LatchOf(s.wire)
            else t.wire == s.wire
  {
    FrameEffect(s, w, h);
    Snoc(s.wire, Start(w, h));
    Snoc(s.wire + [Start(w, h)], Pixels(w, h));
    Snoc(s.wire, Pixels(w, h));
  }

  /** After the cache is zeroed the next frame goes through exactly if the firmware is unlatched. */
  lemma FirstFrame(s: World, w: nat, h: nat)
    requires s.phase == Settling && Alive(s) == Ok && Sized(w, h)
    ensures Accepted(Apply(Apply(s, Zero), Full(w, h)).wire) <==> Accepted(s.wire) && LatchOf(s.wire) == Unlatched
  {
    FrameAccepted(Apply(s, Zero), w, h);
  }

  /** The next frame after a resume is accepted exactly if the latch was lost or PL_RESET reached the firmware. */
  lemma ResumeExact(s: World, t: Transfer, w: nat, h: nat)
    requires Inv(s) && s.phase == Woken && Alive(s) == Ok && Sized(w, h)
    ensures var rested := Apply(Apply(s, SendReset(t)), Zero);
            Accepted(Apply(rested, Full(w, h)).wire) <==>
            LatchOf(s.wire) == Unlatched || (s.statuslink && Delivered(t))
  {
    Snoc(s.wire, Reset);
    FirstFrame(Apply(s, SendReset(t)), w, h);
  }

  lemma LateEffect(s: World, w: nat, h: nat, pixels: Transfer)
    requires Alive(s) == Ok && CachedLatch(s) == Unlatched && Sized(w, h)
    ensures Apply(s, Frame(w, h, Late, pixels)) == s.(wire := s.wire + [Start(w, h)])
  {}

  /** A START that reaches a latched firmware spoils the stream, whether pixels follow or not. */
  lemma SecondStartBreaks(s: World, w: nat, h: nat, pixels: Transfer)
    requires Alive(s) == Ok && CachedLatch(s) == Unlatched && LatchOf(s.wire) != Unlatched && Sized(w, h)
    ensures !Accepted(Apply(s, Frame(w, h, Complete, pixels)).wire)
  {
    Snoc(s.wire, Start(w, h));
    Snoc(s.wire + [Start(w, h)], Pixels(w, h));
  }

  /** A START that arrives late is sent again with the next frame and read as pixels. */
  lemma LateStartBreaks(s: World, w: nat, h: nat, w': nat, h': nat, pixels: Transfer)
    requires Inv(s) && s.phase == Running && Alive(s) == Ok && CachedLatch(s) == Unlatched
    requires Sized(w, h) && Sized(w', h')
    ensures !Accepted(Apply(Apply(s, Frame(w, h, Late, pixels)), Frame(w', h', Complete, pixels)).wire)
  {
    LateEffect(s, w, h, pixels);
    Snoc(s.wire, Start(w, h));
    SecondStartBreaks(s.(wire := s.wire + [Start(w, h)]), w', h', pixels);
  }

  /**
   A frame between PL_RESET and the zeroing of the cache: it and the next frame are accepted exactly if the
   cache is not empty and the frame is one the host does not send.
   */
  lemma SettlingWindowExact(s: World, w: nat, h: nat, w': nat, h': nat)
    requires Inv(s) && s.phase == Settling && Alive(s) == Ok && Sized(w, h) && Sized(w', h')
    ensures Accepted(Apply(Apply(Apply(s, Full(w, h)), Zero), Full(w', h')).wire) <==>
            CachedLatch(s) != Unlatched && (CachedLatch(s) != Latched(w, h) || !Fits(w, h))
  {
    FrameAccepted(s, w, h);
    FrameEffect(s, w, h);
    FirstFrame(Apply(s, Full(w, h)), w', h');
  }

  /** What must hold for a frame before PL_RESET to do no harm, given how the reset goes. */
  predicate WokenWindowRight(s: World, w: nat, h: nat, delivered: bool) {
    if CachedLatch(s) == Unlatched then delivered
    else if CachedLatch(s) == Latched(w, h) && Fits(w, h) then LatchOf(s.wire) != Unlatched && delivered
    else LatchOf(s.wire) == Unlatched || delivered
  }

  /** A frame between waking up and PL_RESET: the stream up to the next frame is accepted exactly then. */
  lemma WokenWindowExact(s: World, w: nat, h: nat, t: Transfer, w': nat, h': nat)
    requires Inv(s) && s.phase == Woken && Alive(s) == Ok && Sized(w, h) && Sized(w', h')
    ensures var reset := Apply(Apply(s, Full(w, h)), SendReset(t));
            Accepted(Apply(Apply(reset, Zero), Full(w', h')).wire) <==>
            WokenWindowRight(s, w, h, s.statuslink && Delivered(t))
  {
    var framed := Apply(s, Full(w, h));
    FrameAccepted(s, w, h);
    FrameEffect(s, w, h);
    Snoc(framed.wire, Reset);
    FirstFrame(Apply(framed, SendReset(t)), w', h');
  }

  lemma {:induction false} RunSnoc(s: World, run: seq<Action>, t: World, a: Action)
    requires ValidRun(s, run, t) && Enabled(t, a)
    ensures ValidRun(s, run + [a], Apply(t, a))
    decreases |run|
  {
    if run == [] {
      assert (run + [a])[1..] == [];
    } else {
      RunSnoc(Apply(s, run[0]), run[1..], t, a);
      assert (run + [a])[1..] == run[1..] + [a];
    }
  }

  lemma Extended(s: World, run: seq<Action>, t: World, a: Action) returns (longer: seq<Action>, u: World)
    requires ValidRun(s, run, t) && Inv(t) && Enabled(t, a) && Proper(t, a)
    ensures ValidRun(s, longer, u) && Inv(u) && u == Apply(t, a)
  {
    RunSnoc(s, run, t, a);
    StepInv(t, a);
    longer, u := run + [a], Apply(t, a);
  }

  /** Every combination of cache and latch that a window frame can meet is reached from probe, by proper steps. */
  lemma WindowReached(history: seq<Wire>, statuslink: bool, w: nat, h: nat, framed: bool, lost: bool)
    returns (run: seq<Action>, s: World)
    requires Accepted(history) && Sized(w, h)
    ensures ValidRun(Probed(history, statuslink), run, s) && Inv(s)
    ensures s.phase == Woken && Alive(s) == Ok && s.statuslink == statuslink
    ensures CachedLatch(s) == if framed then Latched(w, h) else Unlatched
    ensures LatchOf(s.wire) == if framed && !lost then Latched(w, h) else Unlatched
  {
    var start := Probed(history, statuslink);
    Snoc(history, Reset);
    run, s := [], start;
    if framed {
      FrameEffect(s, w, h);
      FrameAccepted(s, w, h);
      run, s := Extended(start, run, s, Full(w, h));
    }
    run, s := Extended(start, run, s, Suspend);
    if lost {
      Snoc(s.wire, PowerLoss);
      run, s := Extended(start, run, s, LosePower);
    }
    run, s := Extended(start, run, s, Wake);
  }

  /** So from every probe a run with one window frame, and nothing else amiss, ends with a rejected stream. */
  lemma WindowHappens(history: seq<Wire>, w: nat, h: nat) returns (run: seq<Action>, t: World)
    requires Accepted(history) && Sized(w, h)
    ensures ValidRun(Probed(history, true), run, t) && !Accepted(t.wire)
  {
    var start, s := Probed(history, true), Probed(history, true);
    run, s := WindowReached(history, true, w, h, false, false);
    run, s := Extended(start, run, s, SendReset(Complete));
    SettlingWindowExact(s, w, h, w, h);
    RunSnoc(start, run, s, Full(w, h));
    run, s := run + [Full(w, h)], Apply(s, Full(w, h));
    RunSnoc(start, run, s, Zero);
    run, s := run + [Zero], Apply(s, Zero);
    RunSnoc(start, run, s, Full(w, h));
    run, t := run + [Full(w, h)], Apply(s, Full(w, h));
  }

  /** The same for a late START with the first frame. */
  lemma LateStartHappens(history: seq<Wire>, w: nat, h: nat) returns (run: seq<Action>, t: World)
    requires Accepted(history) && Sized(w, h)
    ensures ValidRun(Probed(history, true), run, t) && !Accepted(t.wire)
  {
    var start := Probed(history, true);
    Snoc(history, Reset);
    LateStartBreaks(start, w, h, w, h, Complete);
    var late := Frame(w, h, Late, Complete);
    RunSnoc(start, [], start, late);
    RunSnoc(start, [] + [late], Apply(start, late), Full(w, h));
    run, t := [] + [late] + [Full(w, h)], Apply(Apply(start, late), Full(w, h));
  }

  /** And a first frame of the largest size puts every probed device into the state of the next lemma. */
  lemma OversizeHappens(history: seq<Wire>, w: nat, h: nat)
    requires Accepted(history) && Sized(w, h) && !Fits(w, h)
    ensures var s := Apply(Probed(history, true), Full(w, h));
            CachedLatch(s) == Latched(w, h) == LatchOf(s.wire) && Accepted(s.wire)
    ensures Sized(0xffff, 0xffff) && !Fits(0xffff, 0xffff)
  {
    Snoc(history, Reset);
    FrameEffect(Probed(history, true), w, h);
    FrameAccepted(Probed(history, true), w, h);
  }

  predicate Rests(a: Action) { a.Frame? || a.Disconnect? }

  ghost predicate OnlyFrames(run: seq<Action>) { forall k :: 0 <= k < |run| ==> Rests(run[k]) }

  /** A first frame that is too large latches its dimensions all the same, and then no frame gets through. */
  lemma {:induction false} OversizeLocksOut(s: World, run: seq<Action>, t: World)
    requires CachedLatch(s) != Unlatched && !Fits(s.cachedW, s.cachedH)
    requires OnlyFrames(run) && ValidRun(s, run, t)
    ensures t.wire == s.wire && (t.cachedW, t.cachedH) == (s.cachedW, s.cachedH)
    decreases run
  {
    if run != [] {
      assert Rests(run[0]);
      assert OnlyFrames(run[1..]);
      OversizeLocksOut(Apply(s, run[0]), run[1..], t);
    }
  }

  // ---- The driver ------------------------------------------------------------------------------------

  class Device {
    var cachedW: nat
    var cachedH: nat
    var suspended: bool
    var disconnected: bool
    var statuslink: bool
    var xferW: nat
    var xferH: nat
    var xferLen: nat
    var submitted: nat
    var displayed: nat
    var dropped: nat
    var wire: seq<Wire>      // stands for the bus

    function Value(phase: Phase): World
      reads this
    {
      World(cachedW, cachedH, suspended, disconnected, statuslink, phase, wire)
    }

    constructor (history: seq<Wire>)
      ensures Value(Running) == Probed(history, true)
      ensures submitted == 0 && displayed == 0 && dropped == 0
    {
      cachedW, cachedH, suspended, disconnected, statuslink := 0, 0, false, false, true;
      xferW, xferH, xferLen, submitted, displayed, dropped := 0, 0, 0, 0, 0, 0;
      wire := history + [Reset];
    }

    method CheckAlive() returns (code: Code)
      ensures code == Alive(Value(Running))
      ensures code == Ok <==> !disconnected && !suspended
      ensures code == NoDevice <==> disconnected
    {
      if disconnected {
        return NoDevice;
      }
      if suspended {
        return HostDown;
      }
      return Ok;
    }

    method BulkOut(e: Wire, t: Transfer) returns (code: Code)
      modifies this`wire
      ensures wire == Emit(old(wire), e, t) && code == if t == Complete then Ok else UsbError
    {
      if Delivered(t) {
        wire := wire + [e];
      }
      return if t == Complete then Ok else UsbError;
    }

    method PlSend(len: nat, w: nat, h: nat, start: Transfer, pixels: Transfer, ghost phase: Phase)
      returns (code: Code)
      requires len == w * h * 2
      modifies this`cachedW, this`cachedH, this`wire
      ensures (Value(phase), code) == Sent(old(Value(phase)), w, h, start, pixels)
      ensures code == Ok <==>
                old(Opened(Value(phase), w, h, start)) && w * h * 2 <= MAX_FRAME_BYTES && pixels == Complete
      ensures code == UsbError <==>
                if old(Opened(Value(phase), w, h, start)) then w * h * 2 <= MAX_FRAME_BYTES && pixels != Complete
                else old(EmptyCache(Value(phase)))
      ensures code == Invalid <==>
                if old(Opened(Value(phase), w, h, start)) then w * h * 2 > MAX_FRAME_BYTES
                else !old(EmptyCache(Value(phase)))
      ensures wire == old(wire) + old(Traffic(Value(phase), w, h, start, pixels))
      ensures (cachedW, cachedH) ==
                if old(EmptyCache(Value(phase))) && start == Complete then (w, h) else old((cachedW, cachedH))
    {
      SentExact(Value(phase), w, h, start, pixels);
      SentEffect(Value(phase), w, h, start, pixels);
      if cachedW == 0 && cachedH == 0 {
        code := BulkOut(Start(w, h), start);
        if code != Ok {
          return;
        }
        cachedW := w;
        cachedH := h;
      } else if w != cachedW || h != cachedH {
        return Invalid;
      }
      if len > MAX_FRAME_BYTES {
        return Invalid;
      }
      code := BulkOut(Pixels(w, h), pixels);
    }

    /** beada_send_frame: refuses an empty or mis-sized frame, otherwise hands it to the worker. */
    method SendFrame(len: nat, w: nat, h: nat) returns (code: Code)
      modifies this`xferW, this`xferH, this`xferLen, this`submitted, this`dropped
      ensures code == Ok <==> 0 < w && 0 < h && len == w * h * 2
      ensures code == Ok ==> (xferW, xferH, xferLen) == (w, h, len) && dropped == old(dropped)
      ensures code != Ok ==> (xferW, xferH, xferLen) == old((xferW, xferH, xferLen)) && dropped == old(dropped) + 1
      ensures submitted == old(submitted) + if code == Ok then 1 else 0
    {
      if w == 0 || h == 0 || len != w * h * 2 {
        dropped := dropped + 1;
        return Invalid;
      }
      submitted := submitted + 1;
      xferW, xferH, xferLen := w, h, len;
      return Ok;
    }

    method XferWorker(start: Transfer, pixels: Transfer, ghost phase: Phase)
      requires xferLen == xferW * xferH * 2
      modifies this`cachedW, this`cachedH, this`wire, this`displayed, this`dropped
      ensures Value(phase) == Worked(old(Value(phase)), xferW, xferH, start, pixels).0
      ensures var ok := !disconnected && !suspended && old(Opened(Value(phase), xferW, xferH, start)) &&
                        xferW * xferH * 2 <= MAX_FRAME_BYTES && pixels == Complete;
              && displayed == old(displayed) + (if ok then 1 else 0)
              && dropped == old(dropped) + (if ok then 0 else 1)
    {
      var code := CheckAlive();
      if code == Ok {
        code := PlSend(xferLen, xferW, xferH, start, pixels, phase);
      }
      if code != Ok {
        dropped := dropped + 1;
      } else {
        displayed := displayed + 1;
      }
    }

    method PanellinkReset(t: Transfer, ghost phase: Phase) returns (code: Code)
      modifies this`wire
      ensures (Value(phase), code) == ResetTried(old(Value(phase)), t)
      ensures wire == old(wire) + if statuslink && !disconnected && !suspended && t != Nothing then [Reset] else []
      ensures code == NotSupported <==> !statuslink
      ensures code == Ok <==> statuslink && !disconnected && !suspended && t == Complete
      ensures code == UsbError <==> statuslink && !disconnected && !suspended && t != Complete
    {
      if !statuslink {
        return NotSupported;
      }
      code := CheckAlive();
      if code != Ok {
        return;
      }
      code := BulkOut(Reset, t);
    }

    /** GET_INFO at probe: a failed transfer disables Status-Link, and probe goes on. */
    method QueryDeviceInfo(ok: bool)
      modifies this`statuslink
      ensures Value(Running) == old(Value(Running)).(statuslink := old(statuslink) && ok)
    {
      if statuslink {
        if !ok {
          statuslink := false;
        }
      }
    }

    method Suspend()
      requires !suspended
      modifies this`suspended
      ensures Value(Running) == Apply(old(Value(Running)), Action.Suspend)
    {
      suspended := true;
    }

    /** Resume with nothing in its window: the three steps of the model in a row. */
    method Resume(t: Transfer)
      requires suspended
      modifies this`suspended, this`cachedW, this`cachedH, this`wire
      ensures ValidRun(old(Value(Running)), [Wake, SendReset(t), Zero], Value(Running))
    {
      ghost var s := Value(Running);
      suspended := false;
      var code := PanellinkReset(t, Woken);
      cachedW := 0;
      cachedH := 0;
      var s1, s2 := Apply(s, Wake), Apply(Apply(s, Wake), SendReset(t));
      assert ValidRun(s2, [Zero], Value(Running));
      assert [Wake, SendReset(t), Zero][1..] == [SendReset(t), Zero];
      assert [SendReset(t), Zero][1..] == [Zero];
      assert ValidRun(s1, [SendReset(t), Zero], Value(Running));
    }
  }
}
