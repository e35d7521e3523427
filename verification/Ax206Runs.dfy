/** What the blit engine of Ax206Blit guarantees over whole runs, in every interleaving of its threads. */
module Ax206Runs {
  import opened Grid
  import opened Ax206Blit

  ghost predicate ValidRun(c: Config, s: State, run: seq<Action>, t: State)
    decreases run
  {
    if run == [] then t == s
    else Covers(c, s.shadow) && Enabled(c, s, run[0]) && ValidRun(c, Apply(c, s, run[0]), run[1..], t)
  }

  lemma {:induction false} RunInv(c: Config, s: State, run: seq<Action>, t: State)
    requires Inv(c, s) && ValidRun(c, s, run, t)
    ensures Inv(c, t)
    decreases run
  {
    if run != [] {
      StepInv(c, s, run[0]);
      RunInv(c, Apply(c, s, run[0]), run[1..], t);
    }
  }

  lemma RunCons(c: Config, s: State, a: Action, m: State, rest: seq<Action>, t: State)
    requires Covers(c, s.shadow) && Enabled(c, s, a) && m == Apply(c, s, a)
    requires ValidRun(c, m, rest, t)
    ensures ValidRun(c, s, [a] + rest, t)
  {
    assert ([a] + rest)[1..] == rest;
  }

  // ---- Safety --------------------------------------------------------------------------------

  /**
   Coverage: once the panel has been cleared, while it is neither idle nor closing, a pixel on which
   panel and shadow differ is accounted for.
   */
  lemma CoverageTheorem(c: Config, s: State, run: seq<Action>, t: State, p: Point)
    requires Init(c, s) && ValidRun(c, s, run, t)
    requires t.cleared && !t.idle && t.link == Up && OnPanel(c, p)
    ensures p in t.panel && p in t.shadow
    ensures t.panel[p] != t.shadow[p] ==> Accounted(t, p)
  {
    InitInv(c, s);
    RunInv(c, s, run, t);
  }

  /** Nothing runs and the blit work item is not queued. */
  predicate Quiescent(s: State) {
    s.commit == Free && s.worker == Resting && !s.queued
  }

  /**
   Convergence: at rest the panel equals the shadow outside the lost pixels, and no damage is left
   behind in the dirty rectangle.
   */
  lemma Convergence(c: Config, s: State, run: seq<Action>, t: State)
    requires Init(c, s) && ValidRun(c, s, run, t)
    requires Quiescent(t) && t.cleared && !t.idle && t.link == Up
    ensures !t.dirty && !t.active
    ensures forall p :: OnPanel(c, p) && p !in t.lost ==>
              p in t.panel && p in t.shadow && t.panel[p] == t.shadow[p]
    ensures t.lost == {} ==> t.panel == t.shadow
  {
    InitInv(c, s);
    RunInv(c, s, run, t);
    forall p | OnPanel(c, p) && p !in t.lost
      ensures p in t.panel && p in t.shadow && t.panel[p] == t.shadow[p]
    {
      CoverageTheorem(c, s, run, t, p);
    }
  }

  /**
   No lost wake-up: damage always has a worker coming for it, a single work item serves it, and the
   rectangle it leaves is proper, so the worker's sanity test never fires.  The worker takes a
   rectangle at most once per lock section that marked damage.
   */
  lemma NoLostWakeup(c: Config, s: State, run: seq<Action>, t: State)
    requires Init(c, s) && ValidRun(c, s, run, t)
    ensures t.dirty ==> t.active && ProperRect(c.width, c.height, t.rect)
    ensures t.active <==> t.queued || Blitting(t.worker)
    ensures !(t.queued && Blitting(t.worker))
    ensures t.worker.Taken? && !t.idle && t.link != Down ==> Sendable(c, t, t.worker.rect)
    ensures t.takes + (if t.dirty then 1 else 0) <= t.damages
  {
    InitInv(c, s);
    RunInv(c, s, run, t);
  }

  /** A step at which pixels are given up: a failed transfer or allocation, or an overtaken idle entry. */
  predicate Fault(s: State, a: Action) {
    || (a.Blit? && (a.blit.BlitFailed? || (a.blit == CheckRect(false) && !s.idle && s.link != Down)))
    || (a.Leave? && (a.leave.LeaveFailed? || (a.leave.LeaveSent? && s.worker.FillingBlack?)))
    || (a.Idle? && a.idleOp.ResumeFailed?)
  }

  ghost predicate Faultless(c: Config, s: State, run: seq<Action>)
    decreases run
  {
    run == [] ||
    (Covers(c, s.shadow) && Enabled(c, s, run[0]) && !Fault(s, run[0]) &&
     Faultless(c, Apply(c, s, run[0]), run[1..]))
  }

  predicate Unharmed(s: State) { s.lost == {} && s.worker != FillingBlack(true) }

  lemma DrawUnharmed(c: Config, s: State, o: DrawOp)
    requires Unharmed(s) && Covers(c, s.shadow) && CanDraw(c, s, o)
    ensures Unharmed(DoDraw(c, s, o))
  {}

  lemma LeaveUnharmed(c: Config, s: State, o: LeaveOp)
    requires Unharmed(s) && Covers(c, s.shadow) && CanLeave(c, s, o) && !Fault(s, Leave(o))
    ensures Unharmed(DoLeave(c, s, o))
  {}

  lemma BlitUnharmed(c: Config, s: State, o: BlitOp)
    requires Unharmed(s) && CanBlit(s, o) && !Fault(s, Blit(o))
    ensures Unharmed(DoBlit(c, s, o))
  {}

  lemma IdleUnharmed(c: Config, s: State, o: IdleOp)
    requires Unharmed(s) && Covers(c, s.shadow) && CanIdle(c, s, o) && !Fault(s, Idle(o))
    ensures Unharmed(DoIdle(c, s, o))
  {
    assert Blackened(c, s) == {};
  }

  lemma UsbUnharmed(c: Config, s: State, o: LinkOp)
    requires Unharmed(s) && CanUsb(c, s, o)
    ensures Unharmed(DoUsb(s, o))
  {}

  lemma StepUnharmed(c: Config, s: State, a: Action)
    requires Unharmed(s) && Covers(c, s.shadow) && Enabled(c, s, a) && !Fault(s, a)
    ensures Unharmed(Apply(c, s, a))
  {
    match a
    case Draw(o) => DrawUnharmed(c, s, o);
    case Leave(o) => LeaveUnharmed(c, s, o);
    case Blit(o) => BlitUnharmed(c, s, o);
    case Idle(o) => IdleUnharmed(c, s, o);
    case Usb(o) => UsbUnharmed(c, s, o);
  }

  /**
   A taken rectangle is sent exactly if the driver is awake, not disconnected, and gets the memory for it; if
   only the memory is missing it is lost.
   */
  lemma SendsExact(c: Config, s: State, gotMemory: bool)
    requires Inv(c, s) && s.worker.Taken?
    ensures var t := DoBlit(c, s, CheckRect(gotMemory));
            var ready := !s.idle && s.link != Down;
            && t.worker == (if ready && gotMemory then Copying(s.worker.rect, map[]) else Coalescing)
            && t.lost == (if ready && !gotMemory then s.lost + Cells(s.worker.rect) else s.lost)
  {}

  /** Every one of them loses something, or arms a black frame that will. */
  lemma FaultHarms(c: Config, s: State, a: Action)
    requires Inv(c, s) && Enabled(c, s, a) && Fault(s, a)
    ensures !Unharmed(Apply(c, s, a))
  {
    if a.Blit? {
      BlitFaultHarms(c, s, a.blit);
    } else {
      assert Point(0, 0) in Cells(Everything(c));
    }
  }

  lemma BlitFaultHarms(c: Config, s: State, o: BlitOp)
    requires Inv(c, s) && CanBlit(s, o) && Fault(s, Blit(o))
    ensures DoBlit(c, s, o).lost != {}
  {
    var r := s.worker.rect;
    assert Point(r.x0, r.y0) in Cells(r);
    if o.CheckRect? {
      SendsExact(c, s, o.gotMemory);
    }
  }

  /** Those steps are the only way to lose a pixel. */
  lemma {:induction false} NothingLost(c: Config, s: State, run: seq<Action>, t: State)
    requires Unharmed(s) && ValidRun(c, s, run, t) && Faultless(c, s, run)
    ensures Unharmed(t)
    decreases run
  {
    if run != [] {
      StepUnharmed(c, s, run[0]);
      NothingLost(c, Apply(c, s, run[0]), run[1..], t);
    }
  }

  // ---- Progress ------------------------------------------------------------------------------

  function Phase(s: State): nat {
    match s.worker
    case Resting => if s.queued then 5 else 0
    case Taken(_) => 4
    case Copying(_, _) => 3
    case Coalescing => 2
    case _ => 0
  }

  ghost function Uncopied(s: State): set<Point> {
    if s.worker.Copying? then Cells(s.worker.rect) - s.worker.buf.Keys else {}
  }

  /** Every step of the blit worker, failing ones included, brings it closer to its end. */
  lemma BlitDecreases(c: Config, s: State, o: BlitOp)
    requires Inv(c, s) && CanBlit(s, o)
    ensures var t := DoBlit(c, s, o);
            || (s.dirty && !t.dirty)
            || (s.dirty == t.dirty && Phase(t) < Phase(s))
            || (s.dirty == t.dirty && Phase(t) == Phase(s) && Uncopied(t) < Uncopied(s))
  {
    if o.CopyPixel? {
      assert o.p in Uncopied(s) && o.p !in Uncopied(DoBlit(c, s, o));
    }
  }

  /** While there is work, the worker is never stuck: a step that is not a failure is enabled. */
  lemma BlitEnabled(c: Config, s: State) returns (o: BlitOp)
    requires Inv(c, s) && s.active && (s.worker == Resting || Blitting(s.worker))
    ensures CanBlit(s, o) && !Fault(s, Blit(o))
  {
    match s.worker
    case Resting => o := WorkStart;
    case Coalescing => o := Snapshot;
    case Taken(_) => o := CheckRect(true);
    case Copying(rect, buf) =>
      if Done(rect, buf) {
        o := BlitSent;
      } else {
        var p :| Contains(rect, p) && p !in buf;
        o := CopyPixel(p);
      }
  }

  lemma {:induction false} RunSnoc(c: Config, s: State, run: seq<Action>, t: State, a: Action)
    requires ValidRun(c, s, run, t) && Covers(c, t.shadow) && Enabled(c, t, a)
    ensures ValidRun(c, s, run + [a], Apply(c, t, a))
    decreases run
  {
    if run == [] {
      assert (run + [a])[1..] == [];
    } else {
      RunSnoc(c, Apply(c, s, run[0]), run[1..], t, a);
      assert (run + [a])[1..] == run[1..] + [a];
    }
  }

  /** A pixel the worker is going to send. */
  predicate Pending(s: State, p: Point) {
    || (s.dirty && Contains(s.rect, p))
    || ((s.worker.Taken? || s.worker.Copying?) && Contains(s.worker.rect, p))
  }

  /** t has lost no pixel that s had not, and while the panel is awake none of those the worker was to send. */
  ghost predicate Healed(s: State, t: State) {
    forall p :: p in t.lost ==> p in s.lost && (s.idle || s.link == Down || !Pending(s, p))
  }

  lemma BlitHeals(c: Config, s: State, o: BlitOp, p: Point)
    requires Inv(c, s) && CanBlit(s, o) && !Fault(s, Blit(o))
    ensures var t := DoBlit(c, s, o);
            && (p in t.lost ==> p in s.lost)
            && (!s.idle && s.link != Down && Pending(s, p) ==> Pending(t, p) || p !in t.lost)
  {
    if o.BlitSent? {
      assert Contains(s.worker.rect, p) ==> p in Cells(s.worker.rect);
    }
  }

  lemma HealedTrans(c: Config, s: State, o: BlitOp, t: State)
    requires Inv(c, s) && CanBlit(s, o) && !Fault(s, Blit(o))
    requires Healed(DoBlit(c, s, o), t)
    ensures Healed(s, t)
  {
    forall p | p in t.lost ensures p in s.lost && (s.idle || s.link == Down || !Pending(s, p)) {
      BlitHeals(c, s, o, p);
    }
  }

  /** Left alone, the worker reaches rest without touching the shadow, and repaints the lost pixels it sends. */
  lemma {:induction false} Drain(c: Config, s: State) returns (run: seq<Action>, t: State)
    requires Inv(c, s) && (s.worker == Resting || Blitting(s.worker))
    ensures ValidRun(c, s, run, t) && Inv(c, t)
    ensures t.worker == Resting && !t.queued && !t.active
    ensures t.shadow == s.shadow && t.commit == s.commit && Healed(s, t)
    ensures t.idle == s.idle && t.cleared == s.cleared && t.link == s.link
    decreases s.dirty, Phase(s), Uncopied(s)
  {
    if !s.active {
      run, t := [], s;
    } else {
      var o := BlitEnabled(c, s);
      BlitDecreases(c, s, o);
      StepInv(c, s, Blit(o));
      var rest;
      rest, t := Drain(c, DoBlit(c, s, o));
      HealedTrans(c, s, o, t);
      run := [Blit(o)] + rest;
      assert run[1..] == rest;
    }
  }

  /**
   From every state the driver can reach between commits, the worker alone brings the panel to the shadow,
   except for pixels lost before that are not among those it still has to send.
   */
  lemma WorkerSettles(c: Config, s0: State, before: seq<Action>, s: State) returns (run: seq<Action>, t: State)
    requires Init(c, s0) && ValidRun(c, s0, before, s)
    requires s.commit == Free && (s.worker == Resting || Blitting(s.worker))
    requires s.cleared && !s.idle && s.link == Up
    ensures ValidRun(c, s, run, t) && Quiescent(t) && t.shadow == s.shadow
    ensures forall p :: OnPanel(c, p) && (p in s.lost ==> Pending(s, p)) ==>
              p in t.panel && p in t.shadow && t.panel[p] == t.shadow[p]
    ensures (forall p :: p in s.lost ==> Pending(s, p)) ==> t.panel == t.shadow
  {
    InitInv(c, s0);
    RunInv(c, s0, before, s);
    run, t := Drain(c, s);
    forall p | OnPanel(c, p) && (p in s.lost ==> Pending(s, p))
      ensures p in t.panel && p in t.shadow && t.panel[p] == t.shadow[p]
    {
      assert p !in t.lost;
    }
  }

  // ---- Blanking ------------------------------------------------------------------------------

  /** The memset of a blank, one pixel at a time. */
  lemma {:induction false} ZeroAll(c: Config, s: State, goal: Frame) returns (run: seq<Action>, z: set<Point>)
    requires Covers(c, s.shadow) && s.commit.Blanking?
    requires goal.Keys == s.shadow.Keys && forall p :: p in goal ==> goal[p] == BLACK
    requires forall p :: p in s.commit.zeroed && p in s.shadow ==> s.shadow[p] == BLACK
    ensures ValidRun(c, s, run, s.(shadow := goal, commit := Blanking(z)))
    ensures forall p :: OnPanel(c, p) ==> p in z
    decreases Cells(Everything(c)) - s.commit.zeroed
  {
    if p :| OnPanel(c, p) && p !in s.commit.zeroed {
      var m := Zeroed(s, p);
      ZeroLess(c, s, p);
      var rest;
      rest, z := ZeroAll(c, m, goal);
      run := [Draw(BlankPixel(p))] + rest;
      ZeroOne(c, s, p, m, rest, s.(shadow := goal, commit := Blanking(z)));
    } else {
      ZeroNone(c, s, goal);
      run, z := [], s.commit.zeroed;
    }
  }

  function Zeroed(s: State, p: Point): State
    requires s.commit.Blanking?
  {
    s.(shadow := s.shadow[p := BLACK], commit := Blanking(s.commit.zeroed + {p}))
  }

  lemma ZeroLess(c: Config, s: State, p: Point)
    requires Covers(c, s.shadow) && s.commit.Blanking? && OnPanel(c, p) && p !in s.commit.zeroed
    requires forall q :: q in s.commit.zeroed && q in s.shadow ==> s.shadow[q] == BLACK
    ensures var m := Zeroed(s, p);
            && Covers(c, m.shadow) && m.shadow.Keys == s.shadow.Keys
            && (forall q :: q in m.commit.zeroed && q in m.shadow ==> m.shadow[q] == BLACK)
            && Cells(Everything(c)) - m.commit.zeroed < Cells(Everything(c)) - s.commit.zeroed
  {
    assert p in Cells(Everything(c)) - s.commit.zeroed;
  }

  lemma ZeroNone(c: Config, s: State, goal: Frame)
    requires Covers(c, s.shadow) && s.commit.Blanking? && goal.Keys == s.shadow.Keys
    requires forall p :: p in goal ==> goal[p] == BLACK
    requires forall p :: p in s.commit.zeroed && p in s.shadow ==> s.shadow[p] == BLACK
    requires forall p :: OnPanel(c, p) ==> p in s.commit.zeroed
    ensures ValidRun(c, s, [], s.(shadow := goal))
  {
    assert s.shadow == goal;
  }

  lemma ZeroOne(c: Config, s: State, p: Point, m: State, rest: seq<Action>, t: State)
    requires Covers(c, s.shadow) && s.commit.Blanking? && OnPanel(c, p)
    requires m == Zeroed(s, p) && ValidRun(c, m, rest, t)
    ensures ValidRun(c, s, [Draw(BlankPixel(p))] + rest, t)
  {
    RunCons(c, s, Draw(BlankPixel(p)), m, rest, t);
  }

  /** A whole blank, from a commit thread that does nothing else. */
  lemma BlankRun(c: Config, s: State, first: bool) returns (run: seq<Action>, t: State)
    requires Covers(c, s.shadow) && CanDraw(c, s, BlankBegin(first))
    ensures ValidRun(c, s, run, t)
    ensures t == s.(shadow := AllBlack(s.shadow), cleared := s.cleared || first, dirty := true, rect := Everything(c),
                    active := true, queued := s.queued || !s.active, damages := s.damages + 1, idle := false)
  {
    var m := DoDraw(c, s, BlankBegin(first));
    var zeroing, z := ZeroAll(c, m, AllBlack(s.shadow));
    var m' := m.(shadow := AllBlack(s.shadow), commit := Blanking(z));
    RunSnoc(c, m, zeroing, m', Draw(BlankEnd));
    run, t := [Draw(BlankBegin(first))] + (zeroing + [Draw(BlankEnd)]), EndBlank(c, m');
    assert run[1..] == zeroing + [Draw(BlankEnd)];
  }

  // ---- The race that convergence has to exclude ----------------------------------------------

  /** The full transfer of an idle exit can always read the whole shadow. */
  lemma {:induction false} ReadAll(c: Config, s: State) returns (run: seq<Action>)
    requires Covers(c, s.shadow) && s.commit.LeaveReading? && On(Everything(c), s.commit.buf)
    requires forall p :: p in s.commit.buf && p in s.shadow ==> s.commit.buf[p] == s.shadow[p]
    ensures ValidRun(c, s, run, s.(commit := LeaveReading(s.shadow)))
    decreases Cells(Everything(c)) - s.commit.buf.Keys
  {
    if p :| OnPanel(c, p) && p !in s.commit.buf {
      var u := s.(commit := LeaveReading(s.commit.buf[p := s.shadow[p]]));
      assert p in Cells(Everything(c)) - s.commit.buf.Keys;
      var rest := ReadAll(c, u);
      run := [Leave(LeaveRead(p))] + rest;
      ReadFirst(c, s, p, u, rest, s.(commit := LeaveReading(s.shadow)));
    } else {
      assert s.commit.buf == s.shadow;
      run := [];
    }
  }

  lemma ReadFirst(c: Config, s: State, p: Point, u: State, rest: seq<Action>, t: State)
    requires Covers(c, s.shadow) && s.commit.LeaveReading? && OnPanel(c, p) && p !in s.commit.buf
    requires u == s.(commit := LeaveReading(s.commit.buf[p := s.shadow[p]])) && ValidRun(c, u, rest, t)
    ensures ValidRun(c, s, [Leave(LeaveRead(p))] + rest, t)
  {
    RunCons(c, s, Leave(LeaveRead(p)), u, rest, t);
  }

  /** The idle entry marks the driver idle; pipe_enable sees it and clears the mark again. */
  lemma EnterThenLeave(c: Config, s: State) returns (run: seq<Action>)
    requires Covers(c, s.shadow) && Quiescent(s) && !s.idle
    ensures ValidRun(c, s, run, s.(worker := FillingBlack(false), commit := LeaveReading(map[])))
  {
    var s1 := s.(idle := true, worker := FillingBlack(false));
    var s2 := s1.(commit := LeaveChecked);
    RunSnoc(c, s, [], s, Idle(EnterBegin));
    RunSnoc(c, s, [] + [Idle(EnterBegin)], s1, Leave(LeaveCheck));
    RunSnoc(c, s, [] + [Idle(EnterBegin)] + [Leave(LeaveCheck)], s2, Leave(LeaveClear));
    run := [] + [Idle(EnterBegin)] + [Leave(LeaveCheck)] + [Leave(LeaveClear)];
  }

  lemma {:induction false} RunConcat(c: Config, s: State, first: seq<Action>, m: State, second: seq<Action>, t: State)
    requires ValidRun(c, s, first, m) && ValidRun(c, m, second, t)
    ensures ValidRun(c, s, first + second, t)
    decreases first
  {
    if first == [] {
      assert first + second == second;
    } else {
      RunConcat(c, Apply(c, s, first[0]), first[1..], m, second, t);
      assert (first + second)[1..] == first[1..] + second;
    }
  }

  /** The idle exit finishes its transfer, and the black frame arrives after it. */
  lemma LeaveThenFill(c: Config, s: State) returns (t: State)
    requires Covers(c, s.shadow) && Covers(c, s.panel)
    requires s.commit == LeaveReading(s.shadow) && s.worker == FillingBlack(false)
    ensures ValidRun(c, s, [Leave(LeaveSent), Idle(FillSent)], t)
    ensures t == s.(commit := Free, worker := Resting, panel := t.panel, lost := t.lost)
    ensures forall p :: OnPanel(c, p) ==> p in t.panel && t.panel[p] == BLACK
    ensures t.panel.Keys == s.shadow.Keys
  {
    var m := Apply(c, s, Leave(LeaveSent));
    t := Apply(c, m, Idle(FillSent));
    assert [Leave(LeaveSent), Idle(FillSent)][1..] == [Idle(FillSent)];
    assert ValidRun(c, t, [], t);
    assert ValidRun(c, m, [Idle(FillSent)], t);
  }

  /**
   An idle exit from pipe_enable that runs while the idle entry is still pushing its black frame leaves
   the driver awake and at rest with a black panel: no transfer failed, yet panel and shadow agree
   only if the shadow is black too.
   */
  lemma OvertakenEntryBlackens(c: Config, s: State) returns (run: seq<Action>, t: State)
    requires Inv(c, s) && Quiescent(s) && s.cleared && !s.idle && s.link == Up
    ensures ValidRun(c, s, run, t)
    ensures Quiescent(t) && t.cleared && !t.idle && t.link == Up && t.shadow == s.shadow
    ensures forall p :: OnPanel(c, p) ==> p in t.panel && t.panel[p] == BLACK
    ensures t.panel == t.shadow <==> (forall p :: p in s.shadow ==> s.shadow[p] == BLACK)
  {
    var r1 := EnterThenLeave(c, s);
    var s1 := s.(worker := FillingBlack(false), commit := LeaveReading(map[]));
    var r2 := ReadAll(c, s1);
    var s2 := s1.(commit := LeaveReading(s.shadow));
    t := LeaveThenFill(c, s2);
    RunConcat(c, s, r1, s1, r2, s2);
    RunConcat(c, s, r1 + r2, s2, [Leave(LeaveSent), Idle(FillSent)], t);
    run := r1 + r2 + [Leave(LeaveSent), Idle(FillSent)];
  }

  // ---- What is lost without a failed transfer --------------------------------------------------------

  /** A transfer or an allocation fails. */
  predicate Fails(a: Action) {
    || (a.Blit? && (a.blit.BlitFailed? || a.blit == CheckRect(false)))
    || (a.Leave? && a.leave.LeaveFailed?)
    || (a.Idle? && (a.idleOp.ResumeFailed? || a.idleOp.FillFailed?))
  }

  predicate Unfailing(run: seq<Action>) { forall k :: 0 <= k < |run| ==> !Fails(run[k]) }

  /** Until the device is closed, the pixels that are lost are black on the panel. */
  ghost predicate LostBlack(c: Config, s: State) {
    s.link == Up ==> forall p :: p in s.lost ==> p in s.panel && s.panel[p] == BLACK
  }

  lemma DrawLosesBlack(c: Config, s: State, o: DrawOp)
    requires Covers(c, s.shadow) && LostBlack(c, s) && CanDraw(c, s, o)
    ensures LostBlack(c, DoDraw(c, s, o))
  {}

  lemma UsbLosesBlack(c: Config, s: State, o: LinkOp)
    requires LostBlack(c, s) && CanUsb(c, s, o)
    ensures LostBlack(c, DoUsb(s, o))
  {}

  lemma LeaveLosesBlack(c: Config, s: State, o: LeaveOp)
    requires Inv(c, s) && LostBlack(c, s) && CanLeave(c, s, o) && !Fails(Leave(o))
    ensures LostBlack(c, DoLeave(c, s, o))
  {}

  lemma BlitLosesBlack(c: Config, s: State, o: BlitOp)
    requires Inv(c, s) && LostBlack(c, s) && CanBlit(s, o) && !Fails(Blit(o))
    ensures LostBlack(c, DoBlit(c, s, o))
  {
    if o.BlitSent? {
      var t := DoBlit(c, s, o);
      forall p | p in t.lost ensures p in s.lost && p !in s.worker.buf {
        assert p !in Cells(s.worker.rect);
      }
    }
  }

  lemma IdleLosesBlack(c: Config, s: State, o: IdleOp)
    requires Inv(c, s) && LostBlack(c, s) && CanIdle(c, s, o) && !Fails(Idle(o))
    ensures LostBlack(c, DoIdle(c, s, o))
  {}

  lemma StepLosesBlack(c: Config, s: State, a: Action)
    requires Inv(c, s) && LostBlack(c, s) && Enabled(c, s, a) && !Fails(a)
    ensures LostBlack(c, Apply(c, s, a))
  {
    match a
    case Draw(o) => DrawLosesBlack(c, s, o);
    case Leave(o) => LeaveLosesBlack(c, s, o);
    case Blit(o) => BlitLosesBlack(c, s, o);
    case Idle(o) => IdleLosesBlack(c, s, o);
    case Usb(o) => UsbLosesBlack(c, s, o);
  }

  lemma {:induction false} RunLosesBlack(c: Config, s: State, run: seq<Action>, t: State)
    requires Inv(c, s) && LostBlack(c, s) && ValidRun(c, s, run, t) && Unfailing(run)
    ensures LostBlack(c, t)
    decreases |run|
  {
    if run != [] {
      StepInv(c, s, run[0]);
      StepLosesBlack(c, s, run[0]);
      assert Unfailing(run[1..]);
      RunLosesBlack(c, Apply(c, s, run[0]), run[1..], t);
    }
  }

  /**
   So if no transfer fails, overtaken idle entries or not, a panel at rest shows a pixel of the shadow exactly
   if that pixel is not lost, or black.
   */
  lemma LostExact(c: Config, s: State, run: seq<Action>, t: State, p: Point)
    requires Init(c, s) && ValidRun(c, s, run, t) && Unfailing(run)
    requires Quiescent(t) && t.cleared && !t.idle && t.link == Up && OnPanel(c, p)
    ensures p in t.panel && p in t.shadow
    ensures t.panel[p] == t.shadow[p] <==> p !in t.lost || t.shadow[p] == BLACK
  {
    InitInv(c, s);
    RunInv(c, s, run, t);
    RunLosesBlack(c, s, run, t);
    Convergence(c, s, run, t);
  }
}
