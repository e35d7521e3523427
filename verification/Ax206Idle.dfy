/** Idle entry, idle exit and resume of the AX206 driver: what the panel shows while idle, and after waking up. */
module Ax206Idle {
  import opened Grid
  import opened Ax206Blit
  import opened Ax206Runs

  // ---- While idle --------------------------------------------------------------------------------------

  /** Nothing is copied out of the shadow. */
  predicate NoTransfer(s: State) {
    !s.worker.Copying? && !s.worker.ResumeReading? && !s.commit.LeaveReading?
  }

  /** Idle, with the black frame delivered. */
  ghost predicate Dark(c: Config, s: State) {
    && s.idle && s.link == Up && NoTransfer(s) && !s.worker.FillingBlack?
    && Covers(c, s.panel) && forall p :: p in s.panel ==> s.panel[p] == BLACK
  }

  lemma DrawDark(c: Config, s: State, o: DrawOp)
    requires Dark(c, s) && Covers(c, s.shadow) && CanDraw(c, s, o)
    ensures DoDraw(c, s, o).idle ==> Dark(c, DoDraw(c, s, o))
  {
    var t := DoDraw(c, s, o);
    assert t.panel == s.panel && t.worker == s.worker && t.link == s.link && !t.commit.LeaveReading?;
  }

  lemma LeaveDark(c: Config, s: State, o: LeaveOp)
    requires Dark(c, s) && Covers(c, s.shadow) && CanLeave(c, s, o)
    ensures DoLeave(c, s, o).idle ==> Dark(c, DoLeave(c, s, o))
  {}

  lemma BlitDark(c: Config, s: State, o: BlitOp)
    requires Dark(c, s) && CanBlit(s, o)
    ensures DoBlit(c, s, o).idle ==> Dark(c, DoBlit(c, s, o))
  {}

  lemma IdleDark(c: Config, s: State, o: IdleOp)
    requires Dark(c, s) && Covers(c, s.shadow) && CanIdle(c, s, o)
    ensures DoIdle(c, s, o).idle ==> Dark(c, DoIdle(c, s, o))
  {}

  lemma StepDark(c: Config, s: State, a: Action)
    requires Dark(c, s) && Covers(c, s.shadow) && Enabled(c, s, a) && a != Usb(CloseBegin)
    ensures Apply(c, s, a).idle ==> Dark(c, Apply(c, s, a))
  {
    match a
    case Draw(o) => DrawDark(c, s, o);
    case Leave(o) => LeaveDark(c, s, o);
    case Blit(o) => BlitDark(c, s, o);
    case Idle(o) => IdleDark(c, s, o);
    case Usb(_) =>
  }

  /** The driver is idle after every step of the run. */
  ghost predicate StaysIdle(c: Config, s: State, run: seq<Action>)
    decreases run
  {
    run == [] ||
    (Covers(c, s.shadow) && Enabled(c, s, run[0]) && Apply(c, s, run[0]).idle &&
     StaysIdle(c, Apply(c, s, run[0]), run[1..]))
  }

  /** Whatever is drawn meanwhile, the panel stays black as long as the driver is idle. */
  lemma {:induction false} IdleStaysDark(c: Config, s: State, run: seq<Action>, t: State)
    requires Dark(c, s) && ValidRun(c, s, run, t) && StaysIdle(c, s, run) && Usb(CloseBegin) !in run
    ensures Dark(c, t)
    decreases |run|
  {
    if run != [] {
      StepDark(c, s, run[0]);
      IdleStaysDark(c, Apply(c, s, run[0]), run[1..], t);
    }
  }

  /** An idle entry from a driver at rest gets there. */
  lemma IdleEntry(c: Config, s: State) returns (run: seq<Action>, t: State)
    requires Inv(c, s) && Quiescent(s) && !s.idle && s.link == Up
    ensures ValidRun(c, s, run, t) && Dark(c, t) && t.shadow == s.shadow && Quiescent(t)
  {
    var m := s.(idle := true, worker := FillingBlack(false));
    t := Apply(c, m, Idle(FillSent));
    RunSnoc(c, s, [], s, Idle(EnterBegin));
    RunSnoc(c, s, [] + [Idle(EnterBegin)], m, Idle(FillSent));
    run := [] + [Idle(EnterBegin)] + [Idle(FillSent)];
  }

  // ---- Waking up -----------------------------------------------------------------------------------------

  /** A full transfer has been read. */
  lemma WholeShadow(c: Config, s: State)
    requires Covers(c, s.panel) && Covers(c, s.shadow)
    ensures s.panel + s.shadow == s.shadow && Done(Everything(c), s.shadow)
  {}

  /** idle_leave up to its transfer. */
  lemma LeaveBegins(c: Config, s: State) returns (run: seq<Action>)
    requires Covers(c, s.shadow) && s.commit == Free && s.idle
    ensures ValidRun(c, s, run, s.(idle := false, commit := LeaveReading(map[])))
  {
    var m := s.(commit := LeaveChecked);
    RunSnoc(c, s, [], s, Leave(LeaveCheck));
    RunSnoc(c, s, [] + [Leave(LeaveCheck)], m, Leave(LeaveClear));
    run := [] + [Leave(LeaveCheck)] + [Leave(LeaveClear)];
  }

  /** And the transfer itself, whose buffer is the shadow. */
  lemma LeaveEnds(c: Config, s: State, fails: bool, garbage: Frame) returns (o: LeaveOp, t: State)
    requires Covers(c, s.panel) && Covers(c, s.shadow) && s.commit == LeaveReading(s.shadow)
    requires On(Everything(c), garbage)
    ensures CanLeave(c, s, o) && t == DoLeave(c, s, o)
    ensures t.commit == Free && t.idle == s.idle && t.shadow == s.shadow
    ensures !fails ==> t.panel == t.shadow && t.lost == {}
    ensures fails ==> forall p :: OnPanel(c, p) ==> p in t.lost
  {
    WholeShadow(c, s);
    if fails {
      o, t := LeaveFailed(garbage), DoLeave(c, s, LeaveFailed(garbage));
    } else {
      o, t := LeaveSent, DoLeave(c, s, LeaveSent);
    }
  }

  /**
   idle_leave from pipe_enable, undisturbed: the panel shows the shadow again and nothing is lost any more; if
   the transfer fails, everything is.  Either way the driver is awake and the commit thread is through.
   */
  lemma IdleExit(c: Config, s: State, fails: bool, garbage: Frame) returns (run: seq<Action>, t: State)
    requires Inv(c, s) && s.commit == Free && s.idle && On(Everything(c), garbage)
    ensures ValidRun(c, s, run, t) && t.commit == Free && !t.idle && t.shadow == s.shadow
    ensures !fails ==> t.panel == t.shadow && t.lost == {}
    ensures fails ==> forall p :: OnPanel(c, p) ==> p in t.lost
  {
    var first := LeaveBegins(c, s);
    var begun := s.(idle := false, commit := LeaveReading(map[]));
    var middle := ReadAll(c, begun);
    var full := begun.(commit := LeaveReading(s.shadow));
    RunConcat(c, s, first, begun, middle, full);
    var o;
    o, t := LeaveEnds(c, full, fails, garbage);
    RunSnoc(c, s, first + middle, full, Leave(o));
    run := first + middle + [Leave(o)];
  }

  lemma {:induction false} ResumeReads(c: Config, s: State) returns (run: seq<Action>)
    requires Covers(c, s.shadow) && s.worker.ResumeReading? && On(Everything(c), s.worker.buf)
    requires forall p :: p in s.worker.buf && p in s.shadow ==> s.worker.buf[p] == s.shadow[p]
    ensures ValidRun(c, s, run, s.(worker := ResumeReading(s.shadow)))
    decreases Cells(Everything(c)) - s.worker.buf.Keys
  {
    if p :| OnPanel(c, p) && p !in s.worker.buf {
      var u := s.(worker := ResumeReading(s.worker.buf[p := s.shadow[p]]));
      assert p in Cells(Everything(c)) - s.worker.buf.Keys;
      var rest := ResumeReads(c, u);
      run := [Idle(ResumeRead(p))] + rest;
      ResumeFirst(c, s, p, u, rest, s.(worker := ResumeReading(s.shadow)));
    } else {
      assert s.worker.buf == s.shadow;
      run := [];
    }
  }

  lemma ResumeFirst(c: Config, s: State, p: Point, u: State, rest: seq<Action>, t: State)
    requires Covers(c, s.shadow) && s.worker.ResumeReading? && OnPanel(c, p) && p !in s.worker.buf
    requires u == s.(worker := ResumeReading(s.worker.buf[p := s.shadow[p]])) && ValidRun(c, u, rest, t)
    ensures ValidRun(c, s, [Idle(ResumeRead(p))] + rest, t)
  {
    RunCons(c, s, Idle(ResumeRead(p)), u, rest, t);
  }

  lemma ResumeBegins(c: Config, s: State) returns (run: seq<Action>)
    requires Covers(c, s.shadow) && s.worker == Resting && s.idle
    ensures ValidRun(c, s, run, s.(idle := false, worker := ResumeReading(map[])))
  {
    var m := s.(worker := ResumeChecked);
    RunSnoc(c, s, [], s, Idle(ResumeCheck));
    RunSnoc(c, s, [] + [Idle(ResumeCheck)], m, Idle(ResumeClear));
    run := [] + [Idle(ResumeCheck)] + [Idle(ResumeClear)];
  }

  lemma ResumeEnds(c: Config, s: State, fails: bool, garbage: Frame) returns (o: IdleOp, t: State)
    requires Covers(c, s.panel) && Covers(c, s.shadow) && s.worker == ResumeReading(s.shadow)
    requires On(Everything(c), garbage)
    ensures CanIdle(c, s, o) && t == DoIdle(c, s, o)
    ensures t.worker == Resting && t.idle == s.idle && t.shadow == s.shadow
    ensures !fails ==> t.panel == t.shadow && t.lost == {}
    ensures fails ==> forall p :: OnPanel(c, p) ==> p in t.lost
  {
    WholeShadow(c, s);
    if fails {
      o, t := ResumeFailed(garbage), DoIdle(c, s, ResumeFailed(garbage));
    } else {
      o, t := ResumeSent, DoIdle(c, s, ResumeSent);
    }
  }

  /** The same for the resume work item. */
  lemma Resume(c: Config, s: State, fails: bool, garbage: Frame) returns (run: seq<Action>, t: State)
    requires Inv(c, s) && s.worker == Resting && s.idle && On(Everything(c), garbage)
    ensures ValidRun(c, s, run, t) && t.worker == Resting && !t.idle && t.shadow == s.shadow
    ensures !fails ==> t.panel == t.shadow && t.lost == {}
    ensures fails ==> forall p :: OnPanel(c, p) ==> p in t.lost
  {
    var first := ResumeBegins(c, s);
    var begun := s.(idle := false, worker := ResumeReading(map[]));
    var middle := ResumeReads(c, begun);
    var full := begun.(worker := ResumeReading(s.shadow));
    RunConcat(c, s, first, begun, middle, full);
    var o;
    o, t := ResumeEnds(c, full, fails, garbage);
    RunSnoc(c, s, first + middle, full, Idle(o));
    run := first + middle + [Idle(o)];
  }
}
