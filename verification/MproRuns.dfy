/** Safety and ordering of the MPro pipeline over whole runs. */
module MproRuns {
  import opened MproPipeline
  import opened Words

  ghost predicate ValidRun(s: State, run: seq<Action>, t: State)
    decreases run
  {
    if run == [] then t == s else Enabled(s, run[0]) && ValidRun(Apply(s, run[0]), run[1..], t)
  }

  /** Shutdown begins only at a calm moment. */
  ghost predicate CalmShutdown(s: State, run: seq<Action>)
    decreases run
  {
    run == [] ||
    ((run[0].Kill? ==> Calm(s)) && Enabled(s, run[0]) && CalmShutdown(Apply(s, run[0]), run[1..]))
  }

  lemma {:induction false} RunSnoc(s: State, run: seq<Action>, t: State, a: Action)
    requires ValidRun(s, run, t) && Enabled(t, a)
    ensures ValidRun(s, run + [a], Apply(t, a))
    decreases run
  {
    if run == [] {
      assert (run + [a])[1..] == [];
    } else {
      RunSnoc(Apply(s, run[0]), run[1..], t, a);
      assert (run + [a])[1..] == run[1..] + [a];
    }
  }

  // ---- Ownership -----------------------------------------------------------------------------

  lemma {:induction false} RunInv(s: State, run: seq<Action>, t: State)
    requires Inv(s) && ValidRun(s, run, t) && CalmShutdown(s, run)
    ensures Inv(t)
    decreases run
  {
    if run != [] {
      StepInv(s, run[0]);
      RunInv(Apply(s, run[0]), run[1..], t);
    }
  }

  /**
   At every moment of every run each accepted transfer is in exactly one place; a retired one is held by
   exactly one thread or freed; and no thread or URB still works on it.
   */
  lemma ExactlyOnePlace(run: seq<Action>, t: State, x: Id)
    requires ValidRun(START, run, t) && CalmShutdown(START, run)
    ensures Places(t, x) == One(x < t.submitted)
    ensures Holders(t, x) == Retirements(t, x)
    ensures Busy(t, x) <= 1 && (0 < Busy(t, x) ==> t.current == Some(x) && x !in t.freed)
  {
    RunInv(START, run, t);
    assert BusyAt(t, x);
  }

  /** How often a run frees transfer x. */
  function Frees(run: seq<Action>, x: Id): nat {
    if run == [] then 0 else One(run[0] == Drop(x) || run[0] == Free(x)) + Frees(run[1..], x)
  }

  lemma FreesStep(s: State, a: Action, x: Id)
    requires Inv(s) && Enabled(s, a)
    ensures One(x in s.freed) + One(a == Drop(x) || a == Free(x)) == One(x in Apply(s, a).freed)
  {
    assert Holders(s, x) == Retirements(s, x) && Places(s, x) == One(x < s.submitted);
  }

  /** No transfer is freed twice. */
  lemma {:induction false} FreedOnce(s: State, run: seq<Action>, t: State, x: Id)
    requires Inv(s) && ValidRun(s, run, t) && CalmShutdown(s, run)
    ensures One(x in s.freed) + Frees(run, x) == One(x in t.freed)
    decreases run
  {
    if run != [] {
      StepInv(s, run[0]);
      FreesStep(s, run[0], x);
      FreedOnce(Apply(s, run[0]), run[1..], t, x);
    }
  }

  function Ids(n: nat): (r: set<Id>)
    ensures forall x: Id :: x in r <==> x < n
    ensures |r| == n
  {
    if n == 0 then {} else Ids(n - 1) + {n - 1}
  }

  function Live(s: State): set<Id> { AsSet(s.current) + AsSet(s.pending) }

  lemma PlacesDisjoint(s: State)
    requires Ownership(s)
    ensures s.done !! s.displaced && s.failed !! s.shut
    ensures s.done + s.displaced !! s.failed + s.shut
    ensures Live(s) !! (s.done + s.displaced) + (s.failed + s.shut)
    ensures s.current.Some? && s.pending.Some? ==> s.current != s.pending
  {
    forall x | x in s.done && x in s.displaced ensures false { OnePlace(s, x); }
    forall x | x in s.failed && x in s.shut ensures false { OnePlace(s, x); }
    forall x | x in s.done + s.displaced && x in s.failed + s.shut ensures false { OnePlace(s, x); }
    forall x | x in Live(s) && x in (s.done + s.displaced) + (s.failed + s.shut) ensures false { OnePlace(s, x); }
    if s.current.Some? { OnePlace(s, s.current.value); }
  }

  lemma OnePlace(s: State, x: Id)
    requires Ownership(s)
    ensures Places(s, x) <= 1
  {
    assert Places(s, x) == One(x < s.submitted);
  }

  lemma PlacesComplete(s: State)
    requires Ownership(s)
    ensures Ids(s.submitted) == Live(s) + ((s.done + s.displaced) + (s.failed + s.shut))
  {
    forall x: Id
      ensures x in Ids(s.submitted) <==> x in Live(s) + ((s.done + s.displaced) + (s.failed + s.shut))
    {
      assert Places(s, x) == One(x < s.submitted);
    }
  }

  lemma PlacesCount(s: State)
    requires Ownership(s)
    ensures s.submitted == |s.done| + |s.displaced| + |s.failed| + |s.shut| + |Live(s)|
    ensures |Live(s)| == One(s.current.Some?) + One(s.pending.Some?)
  {
    PlacesDisjoint(s);
    PlacesComplete(s);
    assert |Ids(s.submitted)| == s.submitted;
    assert s.current.Some? && s.pending.Some? ==> AsSet(s.current) !! AsSet(s.pending);
  }

  /** Conservation: accepted = completed + displaced + submit-failed + shutdown-freed + live. */
  lemma Conservation(run: seq<Action>, t: State)
    requires ValidRun(START, run, t) && CalmShutdown(START, run)
    ensures t.submitted == |t.done| + |t.displaced| + |t.failed| + |t.shut| + |Live(t)|
    ensures |Live(t)| == One(t.current.Some?) + One(t.pending.Some?)
    ensures t.dropped + |t.dropping| == |t.displaced| + t.idleDrops
  {
    RunInv(START, run, t);
    PlacesCount(t);
  }

  // ---- Shutdown ------------------------------------------------------------------------------

  /** Shutdown has not begun, and the driver has been stopped as mpro_io_shutdown demands. */
  predicate Stopped(s: State) { !s.running && s.stage.Up? }

  /** Four steps, each enabled where the one before it ends. */
  lemma {:induction false} Four(s: State, a: Action, b: Action, c: Action, d: Action, t: State)
    requires Enabled(s, a) && Enabled(Apply(s, a), b) && Enabled(Apply(Apply(s, a), b), c)
    requires Enabled(Apply(Apply(Apply(s, a), b), c), d)
    requires t == Apply(Apply(Apply(Apply(s, a), b), c), d)
    ensures ValidRun(s, [a, b, c, d], t)
  {
    RunSnoc(s, [], s, a);
    RunSnoc(s, [] + [a], Apply(s, a), b);
    RunSnoc(s, [] + [a] + [b], Apply(Apply(s, a), b), c);
    RunSnoc(s, [] + [a] + [b] + [c], Apply(Apply(Apply(s, a), b), c), d);
    assert [] + [a] + [b] + [c] + [d] == [a, b, c, d];
  }

  /** If shutdown begins while a transfer is about to be submitted, it can be freed and on the wire as well. */
  lemma HastyShutdown(s: State, x: Id) returns (run: seq<Action>, t: State)
    requires Inv(s) && Stopped(s) && x in s.submitting
    ensures ValidRun(s, run, t) && run != [] && run[0] == Kill && x in t.freed && x in t.ctrl
  {
    BusyIsCurrent(s, x);
    if s.worker == None {
      run, t := HastySender(s, x);
    } else {
      run, t := HastyWorker(s, x);
    }
  }

  /** Shutdown from its beginning to the moment when the current transfer has been freed. */
  lemma Taken(s: State, x: Id) returns (t: State)
    requires Stopped(s) && s.current == Some(x) && s.worker == None
    ensures ValidRun(s, [Kill, Cancel, Shut, Free(x)], t)
    ensures t.submitting == s.submitting && t.failing == s.failing && x in t.freed
  {
    t := Apply(Apply(Apply(Apply(s, Kill), Cancel), Shut), Free(x));
    Four(s, Kill, Cancel, Shut, Free(x), t);
  }

  /** A sender submits it when both slots have been emptied already. */
  lemma HastySender(s: State, x: Id) returns (run: seq<Action>, t: State)
    requires Stopped(s) && x in s.submitting && s.current == Some(x) && s.worker == None
    ensures ValidRun(s, run, t) && run != [] && run[0] == Kill && x in t.freed && x in t.ctrl
  {
    var m := Taken(s, x);
    RunSnoc(s, [Kill, Cancel, Shut, Free(x)], m, SubmitOk(x));
    run, t := [Kill, Cancel, Shut, Free(x)] + [SubmitOk(x)], Apply(m, SubmitOk(x));
  }

  /** Shutdown waits for the completion work, but not for the URB that this submits after the others were killed. */
  lemma HastyWorker(s: State, x: Id) returns (run: seq<Action>, t: State)
    requires Stopped(s) && x in s.submitting && s.current == Some(x) && s.worker == Some(x)
    ensures ValidRun(s, run, t) && run != [] && run[0] == Kill && x in t.freed && x in t.ctrl
  {
    var s1 := Apply(Apply(Apply(s, Kill), SubmitOk(x)), Cancel);
    var s2 := Apply(s1, Shut);
    Four(s, Kill, SubmitOk(x), Cancel, Shut, s2);
    RunSnoc(s, [Kill, SubmitOk(x), Cancel, Shut], s2, Free(x));
    run, t := [Kill, SubmitOk(x), Cancel, Shut] + [Free(x)], Apply(s2, Free(x));
  }

  /** One in the hands of a sender whose submit has failed can be freed twice. */
  lemma DoubleFree(s: State, x: Id) returns (run: seq<Action>, t: State)
    requires Inv(s) && Stopped(s) && x in s.failing && s.worker != Some(x)
    ensures ValidRun(s, run, t) && run != [] && run[0] == Kill && Frees(run, x) == 2
  {
    BusyIsCurrent(s, x);
    var m := Taken(s, x);
    var n := Apply(m, FailLock(x));
    RunSnoc(s, [Kill, Cancel, Shut, Free(x)], m, FailLock(x));
    RunSnoc(s, [Kill, Cancel, Shut, Free(x)] + [FailLock(x)], n, Free(x));
    run, t := [Kill, Cancel, Shut, Free(x)] + [FailLock(x)] + [Free(x)], Apply(n, Free(x));
    FreesConcat([Kill, Cancel, Shut, Free(x)] + [FailLock(x)], [Free(x)], x);
    FreesConcat([Kill, Cancel, Shut, Free(x)], [FailLock(x)], x);
    FreesOfThat(x);
  }

  lemma FreesOfThat(x: Id)
    ensures Frees([Kill, Cancel, Shut, Free(x)], x) == 1 && Frees([FailLock(x)], x) == 0 && Frees([Free(x)], x) == 1
  {
    var run := [Kill, Cancel, Shut, Free(x)];
    assert run[1..] == [Cancel, Shut, Free(x)] && [Cancel, Shut, Free(x)][1..] == [Shut, Free(x)];
    assert [Shut, Free(x)][1..] == [Free(x)] && [Free(x)][1..] == [];
    assert Frees([Free(x)], x) == 1;
    assert Frees([Shut, Free(x)], x) == 1;
    assert [FailLock(x)][1..] == [];
  }

  lemma {:induction false} FreesConcat(a: seq<Action>, b: seq<Action>, x: Id)
    ensures Frees(a + b, x) == Frees(a, x) + Frees(b, x)
    decreases |a|
  {
    if a == [] {
      assert a + b == b;
    } else {
      assert (a + b)[0] == a[0] && (a + b)[1..] == a[1..] + b;
      FreesConcat(a[1..], b, x);
    }
  }

  /** A transfer is freed twice, or freed while a thread or URB still works on it. */
  predicate Harmed(s: State, run: seq<Action>, t: State, x: Id) {
    1 < One(x in s.freed) + Frees(run, x) || (x in t.freed && 0 < Busy(t, x))
  }

  /** No run that begins with shutdown harms a transfer. */
  ghost predicate SafeShutdown(s: State) {
    forall run, t, x: Id ::
      ValidRun(s, run, t) && run != [] && run[0] == Kill ==> !Harmed(s, run, t, x)
  }

  lemma {:induction false} BegunIsCalm(s: State, run: seq<Action>, t: State)
    requires !s.stage.Up? && ValidRun(s, run, t)
    ensures CalmShutdown(s, run) && !t.stage.Up?
    decreases |run|
  {
    if run != [] {
      BegunIsCalm(Apply(s, run[0]), run[1..], t);
    }
  }

  lemma CalmIsSafe(s: State, run: seq<Action>, t: State, x: Id)
    requires Inv(s) && Calm(s) && ValidRun(s, run, t) && run != [] && run[0] == Kill
    ensures !Harmed(s, run, t, x)
  {
    BegunIsCalm(Apply(s, Kill), run[1..], t);
    FreedOnce(s, run, t, x);
    RunInv(s, run, t);
    assert Places(t, x) == One(x < t.submitted) && Holders(t, x) == Retirements(t, x);
    assert BusyAt(t, x);
  }

  lemma HasteHarms(s: State) returns (run: seq<Action>, t: State, x: Id)
    requires Inv(s) && Stopped(s) && !Calm(s)
    ensures ValidRun(s, run, t) && run != [] && run[0] == Kill && Harmed(s, run, t, x)
  {
    if s.submitting != {} {
      x :| x in s.submitting;
      run, t := HastyShutdown(s, x);
    } else {
      x :| x in s.failing && s.worker != Some(x);
      run, t := DoubleFree(s, x);
    }
  }

  /**
   Shutdown is safe exactly if it begins while no transfer is about to be submitted, and any failed submit is
   being handled by the completion work, for which shutdown waits.
   */
  lemma ShutdownExact(s: State)
    requires Inv(s) && Stopped(s)
    ensures SafeShutdown(s) <==> s.submitting == {} && forall x :: x in s.failing ==> s.worker == Some(x)
  {
    if Calm(s) {
      forall run, t, x: Id | ValidRun(s, run, t) && run != [] && run[0] == Kill ensures !Harmed(s, run, t, x) {
        CalmIsSafe(s, run, t, x);
      }
    } else {
      var run, t, x := HasteHarms(s);
    }
  }

  lemma StartInv()
    ensures Inv(START)
  {}

  lemma RunOn(s: State, run: seq<Action>, m: State, a: Action) returns (longer: seq<Action>, t: State)
    requires ValidRun(s, run, m) && Inv(m) && Enabled(m, a) && !a.Kill?
    ensures longer == run + [a] && t == Apply(m, a) && ValidRun(s, longer, t) && Inv(t)
  {
    StepInv(m, a);
    RunSnoc(s, run, m, a);
    longer, t := run + [a], Apply(m, a);
  }

  /** A transfer in the hands of a sender at shutdown: about to be submitted, and with a failed submit. */
  lemma HasteHappens() returns (one: seq<Action>, s: State, two: seq<Action>, t: State)
    ensures ValidRun(START, one, s) && Stopped(s) && Inv(s) && s.submitting != {} && s.failing == {}
    ensures ValidRun(START, two, t) && Stopped(t) && Inv(t) && t.submitting == {} && t.failing != {}
    ensures s.worker == None && t.worker == None && !SafeShutdown(s) && !SafeShutdown(t)
  {
    StartInv();
    one, s := RunOn(START, [], START, Accept);
    two, t := RunOn(START, one, s, SubmitFail(0));
    one, s := RunOn(START, one, s, Stop);
    two, t := RunOn(START, two, t, Stop);
    ShutdownExact(s);
    ShutdownExact(t);
    assert 0 in s.submitting && 0 in t.failing;
  }

  /**
   The same in the hands of the completion work: shutdown harms the transfer that is about to be submitted,
   but it waits for the work to give up the one whose submit has failed.
   */
  lemma WorkerHappens() returns (one: seq<Action>, s: State, two: seq<Action>, t: State)
    ensures ValidRun(START, one, s) && Stopped(s) && Inv(s) && s.worker == Some(1) && s.submitting == {1}
    ensures ValidRun(START, two, t) && Stopped(t) && Inv(t) && t.worker == Some(1) && t.failing == {1}
    ensures !SafeShutdown(s) && SafeShutdown(t)
  {
    one, s := OneCompleted();
    one, s := RunOn(START, one, s, CompleteLock);
    one, s := RunOn(START, one, s, Stop);
    two, t := RunOn(START, one, s, SubmitFail(1));
    ShutdownExact(s);
    ShutdownExact(t);
    assert 1 in s.submitting;
  }

  lemma OneCompleted() returns (run: seq<Action>, s: State)
    ensures ValidRun(START, run, s) && Inv(s) && s.running && s.stage == Up && s.completeQueued
    ensures s.current == Some(0) && s.pending == Some(1) && s.submitting == {} && s.failing == {}
  {
    StartInv();
    run, s := RunOn(START, [], START, Accept);
    run, s := RunOn(START, run, s, Accept);
    run, s := RunOn(START, run, s, SubmitOk(0));
    run, s := RunOn(START, run, s, CtrlFail(0));
  }

  // ---- Order ---------------------------------------------------------------------------------

  predicate Increasing(q: seq<Id>) { forall i, j :: 0 <= i < j < |q| ==> q[i] < q[j] }

  predicate AllBelow(q: seq<Id>, n: int) { forall i :: 0 <= i < |q| ==> q[i] < n }

  /** A failed submit that finds a pending frame: nobody is left to send it. */
  predicate Strands(s: State, a: Action) { a.FailLock? && s.pending.Some? }

  ghost predicate NeverStrands(s: State, run: seq<Action>)
    decreases run
  {
    run == [] || (!Strands(s, run[0]) && Enabled(s, run[0]) && NeverStrands(Apply(s, run[0]), run[1..]))
  }

  predicate Unsent(s: State) { s.current.Some? && (s.current.value in s.submitting || s.current.value in s.failing) }

  predicate LastSent(s: State, x: int) { s.sent != [] && s.sent[|s.sent| - 1] == x }

  ghost predicate OrderInv(s: State) {
    && Increasing(s.sent) && AllBelow(s.sent, s.submitted)
    && (s.current.Some? ==>
          if Unsent(s) then AllBelow(s.sent, s.current.value) else LastSent(s, s.current.value))
    && (s.running && s.pending.Some? ==> s.inFlight)
    && (s.pending.Some? ==> s.pending.value == s.submitted - 1 && AllBelow(s.sent, s.pending.value))
    && (s.pending.Some? && s.current.Some? ==> s.current.value < s.pending.value)
    && (s.pending == None && s.current.Some? ==> s.current.value == s.submitted - 1)
    && (s.pending == None && s.current == None && !s.stage.Closed? ==>
          s.submitted == 0 || s.submitted - 1 in s.failed || LastSent(s, s.submitted - 1))
    && (forall d :: d in s.displaced ==> d < s.submitted - 1 && d !in s.sent)
  }

  lemma OrderWire(s: State, a: Action)
    requires Inv(s) && OrderInv(s) && Enabled(s, a) && !a.SubmitOk?
    requires a.SubmitFail? || a.CtrlOk? || a.CtrlFail? || a.BulkDone?
    ensures OrderInv(Apply(s, a))
  {
    BusyIsCurrent(s, a.x);
  }

  lemma OrderSubmitOk(s: State, x: Id)
    requires Inv(s) && OrderInv(s) && x in s.submitting
    ensures OrderInv(Apply(s, SubmitOk(x)))
  {
    BusyIsCurrent(s, x);
    assert Places(s, x) == One(x < s.submitted);
  }

  lemma OrderAccept(s: State)
    requires Inv(s) && OrderInv(s) && Enabled(s, Accept)
    ensures OrderInv(DoAccept(s))
  {
    if s.current.Some? {
      assert BusyAt(s, s.current.value);
    }
    assert BusyAt(s, s.submitted);
  }

  lemma OrderComplete(s: State)
    requires Inv(s) && OrderInv(s) && Enabled(s, CompleteLock)
    ensures OrderInv(DoComplete(s))
  {
    if s.current.Some? {
      assert BusyAt(s, s.current.value);
    }
    if s.pending.Some? {
      assert BusyAt(s, s.pending.value);
    }
  }

  lemma OrderShut(s: State)
    requires OrderInv(s) && Enabled(s, Shut)
    ensures OrderInv(DoShut(s))
  {}

  lemma OrderFail(s: State, x: Id)
    requires Inv(s) && OrderInv(s) && x in s.failing && s.pending.None?
    ensures OrderInv(DoFail(s, x))
  {
    BusyIsCurrent(s, x);
  }

  lemma OrderStep(s: State, a: Action)
    requires Inv(s) && OrderInv(s) && Enabled(s, a) && !Strands(s, a)
    ensures OrderInv(Apply(s, a))
  {
    if a.SubmitFail? || a.CtrlOk? || a.CtrlFail? || a.BulkDone? {
      OrderWire(s, a);
    } else {
      match a
      case SubmitOk(x) => OrderSubmitOk(s, x);
      case Accept => OrderAccept(s);
      case CompleteLock => OrderComplete(s);
      case FailLock(x) => OrderFail(s, x);
      case Shut => OrderShut(s);
      case _ =>
    }
  }

  lemma {:induction false} OrderRun(s: State, run: seq<Action>, t: State)
    requires Inv(s) && OrderInv(s)
    requires ValidRun(s, run, t) && CalmShutdown(s, run) && NeverStrands(s, run)
    ensures Inv(t) && OrderInv(t)
    decreases run
  {
    if run != [] {
      StepInv(s, run[0]);
      OrderStep(s, run[0]);
      OrderRun(Apply(s, run[0]), run[1..], t);
    }
  }

  /**
   Latest wins: frames reach the wire in strictly increasing order of acceptance, at most one at a time;
   while the driver runs a pending frame has a transfer in flight before it; a displaced frame was
   displaced by a newer one and never reaches the wire; and when nothing is in flight any more, the
   newest accepted frame is the last one sent, unless its own submit failed.
   */
  lemma LatestWins(run: seq<Action>, t: State)
    requires ValidRun(START, run, t) && CalmShutdown(START, run) && NeverStrands(START, run)
    ensures Increasing(t.sent)
    ensures forall x, y :: x in t.ctrl + t.bulk && y in t.ctrl + t.bulk ==> x == y
    ensures t.running && t.pending.Some? ==> t.inFlight
    ensures forall d :: d in t.displaced ==> d < t.submitted - 1 && d !in t.sent
    ensures t.running && !t.inFlight && 0 < t.submitted && t.submitted - 1 !in t.failed ==> LastSent(t, t.submitted - 1)
  {
    OrderRun(START, run, t);
    forall x, y | x in t.ctrl + t.bulk && y in t.ctrl + t.bulk ensures x == y {
      assert BusyAt(t, x) && BusyAt(t, y);
    }
  }

  /**
   A frame stranded by a failed submit breaks the order: from every state with a pending frame and nothing
   in flight, a driver that still accepts frames can send a newer frame first and the stranded one after it.
   */
  lemma StrandedFrameOvertaken(s: State) returns (run: seq<Action>, t: State)
    requires Inv(s) && s.running && !s.idle && !s.inFlight && s.pending.Some?
    ensures ValidRun(s, run, t) && t.running && !Increasing(t.sent)
  {
    var x, p := s.submitted, s.pending.value;
    assert Places(s, p) == One(p < s.submitted);
    assert BusyAt(s, p) && BusyAt(s, x);
    var s1 := Apply(s, Accept);
    var s2 := Apply(s1, SubmitOk(x));
    var s3 := Apply(s2, CtrlFail(x));
    var s4 := Apply(s3, CompleteLock);
    RunSnoc(s, [], s, Accept);
    RunSnoc(s, [] + [Accept], s1, SubmitOk(x));
    RunSnoc(s, [] + [Accept] + [SubmitOk(x)], s2, CtrlFail(x));
    RunSnoc(s, [] + [Accept] + [SubmitOk(x)] + [CtrlFail(x)], s3, CompleteLock);
    run := [] + [Accept] + [SubmitOk(x)] + [CtrlFail(x)] + [CompleteLock];
    RunSnoc(s, run, s4, SubmitOk(p));
    run, t := run + [SubmitOk(p)], Apply(s4, SubmitOk(p));
    var n := |s.sent|;
    assert t.sent[n] == x && t.sent[n + 1] == p;
  }

  /** Such a state is exactly what a stranding step leaves behind. */
  lemma StrandingStep(s: State, a: Action)
    requires Inv(s) && Enabled(s, a)
    ensures Strands(s, a) ==> !Apply(s, a).inFlight && Apply(s, a).pending.Some?
    ensures OrderInv(s) && s.running && !Strands(s, a) ==>
              !(Apply(s, a).running && !Apply(s, a).inFlight && Apply(s, a).pending.Some?)
  {
    if OrderInv(s) && !Strands(s, a) {
      OrderStep(s, a);
    }
  }

  lemma {:induction false} RunConcat(s: State, first: seq<Action>, m: State, second: seq<Action>, t: State)
    requires ValidRun(s, first, m) && ValidRun(m, second, t)
    ensures ValidRun(s, first + second, t)
    decreases |first|
  {
    if first == [] {
      assert first + second == second;
    } else {
      RunConcat(Apply(s, first[0]), first[1..], m, second, t);
      assert (first + second)[1..] == first[1..] + second;
    }
  }

  /** A frame is stranded, and overtaken, in a run from the start without any shutdown. */
  lemma StrandingHappens() returns (run: seq<Action>, t: State)
    ensures ValidRun(START, run, t) && t.running && !Increasing(t.sent)
  {
    StartInv();
    var first, s4 := RunOn(START, [], START, Accept);
    first, s4 := RunOn(START, first, s4, Accept);
    first, s4 := RunOn(START, first, s4, SubmitFail(0));
    first, s4 := RunOn(START, first, s4, FailLock(0));
    var second;
    second, t := StrandedFrameOvertaken(s4);
    RunConcat(START, first, s4, second, t);
    run := first + second;
  }
}
