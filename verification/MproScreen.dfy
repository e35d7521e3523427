/**
 What the MPro panel shows when the pipeline has come to rest: partial frames carry only their own rectangle,
 and the pending slot drops a frame without merging its rectangle into the next one.
 */
module MproScreen {
  import opened Grid
  import opened MproPipeline
  import opened MproRuns
  import opened Words

  /** An update requested for the panel: its rectangle, and the frame as it was then. */
  datatype Shot = Shot(area: Rect, image: map<Point, bv16>)

  /** A pixel no image mentions is black. */
  function At(image: map<Point, bv16>, p: Point): bv16 { if p in image then image[p] else 0 }

  /** Pixel p of the frame when the last of the shots was taken. */
  function FrameAt(first: map<Point, bv16>, shots: seq<Shot>, p: Point): bv16 {
    if shots == [] then At(first, p) else At(shots[|shots| - 1].image, p)
  }

  /** Pixel p of a panel that showed `first` and then got the shots with these numbers, in this order. */
  function PanelAt(first: map<Point, bv16>, shots: seq<Shot>, arrived: seq<Id>, p: Point): bv16
    requires InRange(shots, arrived)
  {
    if arrived == [] then At(first, p)
    else
      var x := arrived[|arrived| - 1];
      if Contains(shots[x].area, p) then At(shots[x].image, p)
      else PanelAt(first, shots, arrived[..|arrived| - 1], p)
  }

  predicate InRange(shots: seq<Shot>, arrived: seq<Id>) {
    forall i :: 0 <= i < |arrived| ==> arrived[i] < |shots|
  }

  /** From each shot to the next the frame changes only inside the rectangle that is requested for it. */
  ghost predicate Tracked(first: map<Point, bv16>, shots: seq<Shot>) {
    forall x, p :: 0 <= x < |shots| && !Contains(shots[x].area, p) ==>
      At(shots[x].image, p) == FrameAt(first, shots[..x], p)
  }

  /** The last of the first n shots that covers p, or -1. */
  function Latest(shots: seq<Shot>, n: nat, p: Point): (x: int)
    requires n <= |shots|
    ensures -1 <= x < n && (0 <= x ==> Contains(shots[x].area, p))
    ensures forall y :: x < y < n ==> !Contains(shots[y].area, p)
  {
    if n == 0 then -1 else if Contains(shots[n - 1].area, p) then n - 1 else Latest(shots, n - 1, p)
  }

  /** The last shot that covers p, if there is one, has arrived. */
  predicate Repainted(shots: seq<Shot>, arrived: seq<Id>, p: Point) {
    var x := Latest(shots, |shots|, p);
    x == -1 || x in arrived
  }

  function Value(first: map<Point, bv16>, shots: seq<Shot>, x: int, p: Point): bv16
    requires -1 <= x < |shots|
  {
    if x == -1 then At(first, p) else At(shots[x].image, p)
  }

  lemma {:induction false} FrameIsLatest(first: map<Point, bv16>, shots: seq<Shot>, n: nat, p: Point)
    requires n <= |shots| && Tracked(first, shots)
    ensures FrameAt(first, shots[..n], p) == Value(first, shots, Latest(shots, n, p), p)
  {
    if n > 0 {
      FrameIsLatest(first, shots, n - 1, p);
      assert shots[..n][n - 1] == shots[n - 1];
    }
  }

  /** The last arrived shot that covers p, or -1. */
  function LatestOf(shots: seq<Shot>, arrived: seq<Id>, p: Point): (x: int)
    requires InRange(shots, arrived)
    ensures -1 <= x < |shots| && (0 <= x ==> Contains(shots[x].area, p) && x in arrived)
  {
    if arrived == [] then -1
    else
      var x := arrived[|arrived| - 1];
      if Contains(shots[x].area, p) then x else LatestOf(shots, arrived[..|arrived| - 1], p)
  }

  lemma {:induction false} PanelIsLatest(first: map<Point, bv16>, shots: seq<Shot>, arrived: seq<Id>, p: Point)
    requires InRange(shots, arrived)
    ensures PanelAt(first, shots, arrived, p) == Value(first, shots, LatestOf(shots, arrived, p), p)
    decreases |arrived|
  {
    if arrived != [] {
      PanelIsLatest(first, shots, arrived[..|arrived| - 1], p);
    }
  }

  lemma {:induction false} LatestArrived(shots: seq<Shot>, arrived: seq<Id>, p: Point, x: Id)
    requires InRange(shots, arrived) && Increasing(arrived) && x in arrived && Contains(shots[x].area, p)
    ensures x <= LatestOf(shots, arrived, p)
    decreases |arrived|
  {
    var n := |arrived| - 1;
    if arrived[n] != x {
      assert arrived == arrived[..n] + [arrived[n]];
      LatestArrived(shots, arrived[..n], p, x);
      var i :| 0 <= i < |arrived| && arrived[i] == x;
      assert arrived[i] < arrived[n];
    }
  }

  /** Where the last covering shot has arrived, panel and frame agree. */
  lemma AgreeAt(first: map<Point, bv16>, shots: seq<Shot>, arrived: seq<Id>, p: Point)
    requires Tracked(first, shots) && InRange(shots, arrived) && Increasing(arrived) && Repainted(shots, arrived, p)
    ensures PanelAt(first, shots, arrived, p) == FrameAt(first, shots, p)
  {
    var x := Latest(shots, |shots|, p);
    assert shots[..|shots|] == shots;
    FrameIsLatest(first, shots, |shots|, p);
    PanelIsLatest(first, shots, arrived, p);
    if x != -1 {
      LatestArrived(shots, arrived, p, x);
    }
  }

  /** The same rectangles with a frame in which only shot x changes anything, and only pixel p. */
  function Spot(shots: seq<Shot>, x: int, p: Point): seq<Shot> {
    seq(|shots|, i requires 0 <= i < |shots| => Shot(shots[i].area, if x <= i then map[p := 1] else map[]))
  }

  predicate SameAreas(a: seq<Shot>, b: seq<Shot>) {
    |a| == |b| && forall i :: 0 <= i < |a| ==> a[i].area == b[i].area
  }

  lemma SpotTracked(shots: seq<Shot>, x: nat, p: Point)
    requires x < |shots| && Contains(shots[x].area, p)
    ensures Tracked(map[], Spot(shots, x, p))
  {
    var spot := Spot(shots, x, p);
    forall i, q | 0 <= i < |spot| && !Contains(spot[i].area, q)
      ensures At(spot[i].image, q) == FrameAt(map[], spot[..i], q)
    {
      if 0 < i {
        assert spot[..i][i - 1] == spot[i - 1];
      }
    }
  }

  lemma SpotUnpainted(shots: seq<Shot>, arrived: seq<Id>, x: nat, p: Point)
    requires x < |shots| && x !in arrived && forall y :: x < y < |shots| ==> !Contains(shots[y].area, p)
    requires InRange(Spot(shots, x, p), arrived)
    ensures PanelAt(map[], Spot(shots, x, p), arrived, p) == 0
  {
    var spot := Spot(shots, x, p);
    PanelIsLatest(map[], spot, arrived, p);
    var y := LatestOf(spot, arrived, p);
    assert y != x;
    assert 0 <= y ==> Contains(shots[y].area, p) && y < x;
  }

  lemma SpotMissed(shots: seq<Shot>, arrived: seq<Id>, p: Point)
    requires InRange(shots, arrived) && !Repainted(shots, arrived, p)
    ensures var spot := Spot(shots, Latest(shots, |shots|, p), p);
            && SameAreas(spot, shots) && InRange(spot, arrived) && Tracked(map[], spot)
            && PanelAt(map[], spot, arrived, p) != FrameAt(map[], spot, p)
  {
    var x := Latest(shots, |shots|, p);
    SpotTracked(shots, x, p);
    SpotUnpainted(shots, arrived, x, p);
  }

  /** Whatever the frames hold, panel and frame agree everywhere. */
  ghost predicate AlwaysAgree(shots: seq<Shot>, arrived: seq<Id>)
    requires InRange(shots, arrived)
  {
    forall first, others, p ::
      SameAreas(others, shots) && Tracked(first, others) ==> AgreesAt(first, others, arrived, p)
  }

  predicate AgreesAt(first: map<Point, bv16>, shots: seq<Shot>, arrived: seq<Id>, p: Point) {
    InRange(shots, arrived) && PanelAt(first, shots, arrived, p) == FrameAt(first, shots, p)
  }

  lemma {:induction false} LatestSame(a: seq<Shot>, b: seq<Shot>, n: nat, p: Point)
    requires SameAreas(a, b) && n <= |a|
    ensures Latest(a, n, p) == Latest(b, n, p)
  {
    if n > 0 {
      LatestSame(a, b, n - 1, p);
    }
  }

  /** They do exactly if for every pixel the last shot that covers it has arrived. */
  lemma AgreementExact(shots: seq<Shot>, arrived: seq<Id>)
    requires InRange(shots, arrived) && Increasing(arrived)
    ensures AlwaysAgree(shots, arrived) <==> forall p :: Repainted(shots, arrived, p)
  {
    if forall p :: Repainted(shots, arrived, p) {
      forall first, others, p | SameAreas(others, shots) && Tracked(first, others)
        ensures AgreesAt(first, others, arrived, p)
      {
        LatestSame(others, shots, |shots|, p);
        assert Repainted(shots, arrived, p) && InRange(others, arrived);
        AgreeAt(first, others, arrived, p);
      }
    } else {
      var p :| !Repainted(shots, arrived, p);
      SpotMissed(shots, arrived, p);
      assert !AgreesAt(map[], Spot(shots, Latest(shots, |shots|, p), p), arrived, p);
    }
  }

  // ---- Runs of the pipeline --------------------------------------------------------------------------

  /** The transfer that a step completes; those in `bad` complete with an error status. */
  function Arrival(a: Action, bad: set<Id>): seq<Id> { if a.BulkDone? && a.x !in bad then [a.x] else [] }

  /** The transfers that arrive during a run, in order. */
  function Arrived(run: seq<Action>, bad: set<Id>): seq<Id> {
    if run == [] then [] else Arrival(run[0], bad) + Arrived(run[1..], bad)
  }

  ghost predicate ArrivedInv(s: State, arrived: seq<Id>) {
    && Increasing(arrived) && AllBelow(arrived, s.submitted)
    && (forall i :: 0 <= i < |arrived| ==> arrived[i] in s.sent)
    && (s.current.Some? && !Waiting(s) ==> AllBelow(arrived, s.current.value))
  }

  lemma ArrivedStep(s: State, a: Action, bad: set<Id>, arrived: seq<Id>)
    requires Inv(s) && OrderInv(s) && Enabled(s, a) && !Strands(s, a) && ArrivedInv(s, arrived)
    ensures ArrivedInv(Apply(s, a), arrived + Arrival(a, bad))
  {
    if a.SubmitOk? || a.SubmitFail? || a.FailLock? || a.CtrlOk? || a.CtrlFail? || a.BulkDone? {
      BusyIsCurrent(s, a.x);
    }
    if Arrival(a, bad) == [] {
      assert arrived + [] == arrived;
    }
  }

  ghost predicate OnRecord(s: State, arrived: seq<Id>) { Inv(s) && OrderInv(s) && ArrivedInv(s, arrived) }

  lemma RecordStep(s: State, a: Action, bad: set<Id>, arrived: seq<Id>)
    requires OnRecord(s, arrived) && Enabled(s, a) && !Strands(s, a) && (a.Kill? ==> Calm(s))
    ensures OnRecord(Apply(s, a), arrived + Arrival(a, bad))
  {
    StepInv(s, a);
    OrderStep(s, a);
    ArrivedStep(s, a, bad, arrived);
  }

  lemma {:induction false} ArrivedRun(s: State, before: seq<Id>, run: seq<Action>, bad: set<Id>, t: State)
    requires OnRecord(s, before)
    requires ValidRun(s, run, t) && CalmShutdown(s, run) && NeverStrands(s, run)
    ensures OnRecord(t, before + Arrived(run, bad))
    decreases |run|
  {
    if run == [] {
      assert before + [] == before;
    } else {
      var now, later := Arrival(run[0], bad), Arrived(run[1..], bad);
      RunHead(s, run, t);
      RecordStep(s, run[0], bad, before);
      ArrivedRun(Apply(s, run[0]), before + now, run[1..], bad, t);
      Regroup(before, now, later);
    }
  }

  lemma Regroup(a: seq<Id>, b: seq<Id>, c: seq<Id>)
    ensures (a + b) + c == a + (b + c)
  {}

  lemma RunHead(s: State, run: seq<Action>, t: State)
    requires run != [] && ValidRun(s, run, t) && CalmShutdown(s, run) && NeverStrands(s, run)
    ensures Enabled(s, run[0]) && !Strands(s, run[0]) && (run[0].Kill? ==> Calm(s))
    ensures var m := Apply(s, run[0]);
            ValidRun(m, run[1..], t) && CalmShutdown(m, run[1..]) && NeverStrands(m, run[1..])
  {}

  /** In runs without stranding, transfers arrive in the order in which they were accepted. */
  lemma ArrivalsIncrease(run: seq<Action>, bad: set<Id>, t: State)
    requires ValidRun(START, run, t) && CalmShutdown(START, run) && NeverStrands(START, run)
    ensures Increasing(Arrived(run, bad)) && AllBelow(Arrived(run, bad), t.submitted)
  {
    ArrivedRun(START, [], run, bad, t);
    assert [] + Arrived(run, bad) == Arrived(run, bad);
  }

  // ---- Requests ------------------------------------------------------------------------------------

  /**
   The steps that answer a request for an update: its transfer is accepted, or dropped while the display is
   idle, or refused before that (a partial frame that touches the bottom row, no memory, a blanked display).
   */
  predicate IsRequest(a: Action) { a.Accept? || a.IdleDrop? || a.Refuse? }

  /** How many updates are requested during a run. */
  function Requests(run: seq<Action>): nat {
    if run == [] then 0 else One(IsRequest(run[0])) + Requests(run[1..])
  }

  /** The numbers of the accepted ones among all requests, where the first request of the run has number n. */
  function Accepted(run: seq<Action>, n: nat): seq<nat> {
    if run == [] then []
    else (if run[0].Accept? then [n] else []) + Accepted(run[1..], n + One(IsRequest(run[0])))
  }

  lemma {:induction false} AcceptedBounds(run: seq<Action>, n: nat)
    ensures Increasing(Accepted(run, n)) && AllBelow(Accepted(run, n), n + Requests(run))
    ensures forall i :: 0 <= i < |Accepted(run, n)| ==> n <= Accepted(run, n)[i]
    decreases |run|
  {
    if run != [] {
      AcceptedBounds(run[1..], n + One(IsRequest(run[0])));
    }
  }

  lemma {:induction false} AcceptedCount(s: State, run: seq<Action>, t: State, n: nat)
    requires ValidRun(s, run, t)
    ensures |Accepted(run, n)| == t.submitted - s.submitted
    decreases |run|
  {
    if run != [] {
      AcceptedCount(Apply(s, run[0]), run[1..], t, n + One(IsRequest(run[0])));
    }
  }

  predicate Known(arrived: seq<Id>, number: seq<nat>) { forall i :: 0 <= i < |arrived| ==> arrived[i] < |number| }

  /** The requests whose transfers arrived, in the order of arrival. */
  function Renumbered(arrived: seq<Id>, number: seq<nat>): (r: seq<nat>)
    requires Known(arrived, number)
    ensures |r| == |arrived| && forall i :: 0 <= i < |r| ==> r[i] == number[arrived[i]]
  {
    seq(|arrived|, i requires 0 <= i < |arrived| => number[arrived[i]])
  }

  lemma RenumberedMember(arrived: seq<Id>, number: seq<nat>, x: Id)
    requires Known(arrived, number) && Increasing(number) && x < |number|
    ensures number[x] in Renumbered(arrived, number) <==> x in arrived
  {
    var r := Renumbered(arrived, number);
    if x in arrived {
      var i :| 0 <= i < |arrived| && arrived[i] == x;
      assert r[i] == number[x];
    }
    if number[x] in r {
      var i :| 0 <= i < |r| && r[i] == number[x];
      assert arrived[i] == x;
    }
  }

  /** The requests that have reached the panel in a run from the start. */
  function Shown(run: seq<Action>, bad: set<Id>): seq<nat> {
    var arrived, number := Arrived(run, bad), Accepted(run, 0);
    if Known(arrived, number) then Renumbered(arrived, number) else []
  }

  /** In runs without stranding, they reach it in the order in which they were requested. */
  lemma ShownIncrease(run: seq<Action>, bad: set<Id>, t: State)
    requires ValidRun(START, run, t) && CalmShutdown(START, run) && NeverStrands(START, run)
    ensures Known(Arrived(run, bad), Accepted(run, 0)) && |Accepted(run, 0)| == t.submitted
    ensures Increasing(Shown(run, bad)) && AllBelow(Shown(run, bad), Requests(run))
  {
    ArrivalsIncrease(run, bad, t);
    AcceptedBounds(run, 0);
    AcceptedCount(START, run, t, 0);
  }

  /**
   Panel and frame after such a run, whichever URBs fail and whichever updates are refused or dropped: they
   agree, whatever was drawn, exactly if for every pixel the last update requested for it has arrived.
   */
  lemma ScreenExact(run: seq<Action>, bad: set<Id>, t: State, shots: seq<Shot>)
    requires ValidRun(START, run, t) && CalmShutdown(START, run) && NeverStrands(START, run)
    requires |shots| == Requests(run)
    ensures InRange(shots, Shown(run, bad))
    ensures AlwaysAgree(shots, Shown(run, bad)) <==> forall p :: Repainted(shots, Shown(run, bad), p)
  {
    ShownIncrease(run, bad, t);
    AgreementExact(shots, Shown(run, bad));
  }

  // ---- Whole frames, and displaced partial ones ------------------------------------------------------

  /** No URB fails and no submit fails. */
  predicate Smooth(run: seq<Action>) {
    forall k :: 0 <= k < |run| ==> !run[k].CtrlFail? && !run[k].SubmitFail?
  }

  ghost predicate Delivering(s: State, arrived: seq<Id>) {
    && s.failing == {} && s.failed == {}
    && forall x :: x in s.sent ==> x in arrived || x in s.ctrl || x in s.bulk
  }

  lemma DeliveringStep(s: State, a: Action, arrived: seq<Id>)
    requires Delivering(s, arrived) && Enabled(s, a) && !a.CtrlFail? && !a.SubmitFail? && !a.Kill?
    ensures Delivering(Apply(s, a), arrived + Arrival(a, {}))
  {
    var t := Apply(s, a);
    forall x | x in t.sent
      ensures x in (arrived + Arrival(a, {})) || x in t.ctrl || x in t.bulk
    {}
  }

  lemma {:induction false} DeliveringRun(s: State, before: seq<Id>, run: seq<Action>, t: State)
    requires Delivering(s, before) && ValidRun(s, run, t) && Smooth(run) && t.stage.Up?
    ensures Delivering(t, before + Arrived(run, {})) && NeverStrands(s, run) && CalmShutdown(s, run)
    decreases |run|
  {
    if run == [] {
      assert before + [] == before;
    } else {
      var now := Arrival(run[0], {});
      if run[0].Kill? {
        BegunIsCalm(Apply(s, run[0]), run[1..], t);
      }
      DeliveringStep(s, run[0], before);
      assert Smooth(run[1..]);
      DeliveringRun(Apply(s, run[0]), before + now, run[1..], t);
      assert (before + now) + Arrived(run[1..], {}) == before + (now + Arrived(run[1..], {}));
    }
  }

  /** A smooth run from the start at whose end the driver is up and nothing is in flight. */
  ghost predicate Rested(run: seq<Action>, t: State) {
    ValidRun(START, run, t) && Smooth(run) && t.running && t.stage.Up? && !t.inFlight
  }

  /** After it, everything sent has arrived. */
  lemma SentHasArrived(run: seq<Action>, t: State, x: Id)
    requires Rested(run, t) && x in t.sent
    ensures x in Arrived(run, {})
  {
    DeliveringRun(START, [], run, t);
    assert [] + Arrived(run, {}) == Arrived(run, {});
    RunInv(START, run, t);
    assert BusyAt(t, x);
  }

  lemma NewestHasArrived(run: seq<Action>, t: State)
    requires Rested(run, t) && 0 < t.submitted
    ensures t.submitted - 1 in Arrived(run, {})
  {
    DeliveringRun(START, [], run, t);
    LatestWins(run, t);
    SentHasArrived(run, t, t.submitted - 1);
  }

  /** The newest request, if there is any, was accepted. */
  predicate NewestAccepted(run: seq<Action>) { Requests(run) == 0 || Requests(run) - 1 in Accepted(run, 0) }

  /** If the newest number has arrived, the number before n has arrived exactly if it is one of them. */
  lemma LastRenumbered(arrived: seq<Id>, number: seq<nat>, n: nat)
    requires Known(arrived, number) && Increasing(number) && AllBelow(number, n) && 0 < n
    requires number != [] ==> |number| - 1 in arrived
    ensures n - 1 in Renumbered(arrived, number) <==> n - 1 in number
  {
    if n - 1 in number {
      var x :| 0 <= x < |number| && number[x] == n - 1;
      var last := |number| - 1;
      assert number[last] < n;
      assert x == last;
      RenumberedMember(arrived, number, x);
    }
  }

  /** It has reached the panel exactly if it was accepted. */
  lemma NewestShown(run: seq<Action>, t: State)
    requires Rested(run, t) && 0 < Requests(run)
    ensures Requests(run) - 1 in Shown(run, {}) <==> NewestAccepted(run)
  {
    assert NeverStrands(START, run) && CalmShutdown(START, run) by { DeliveringRun(START, [], run, t); }
    ShownIncrease(run, {}, t);
    AcceptedBounds(run, 0);
    if 0 < t.submitted {
      NewestHasArrived(run, t);
    }
    LastRenumbered(Arrived(run, {}), Accepted(run, 0), Requests(run));
  }

  predicate WholeFrames(shots: seq<Shot>, whole: Rect) {
    forall x :: 0 <= x < |shots| ==> shots[x].area == whole
  }

  /**
   If every update is a whole frame, then after a smooth run, at rest, panel and frame agree, whatever was
   drawn, exactly if the newest update was neither dropped while the display was idle nor refused.
   */
  lemma WholeFramesAgree(run: seq<Action>, t: State, shots: seq<Shot>, whole: Rect)
    requires Rested(run, t) && |shots| == Requests(run)
    requires WholeFrames(shots, whole) && whole.x0 < whole.x1 && whole.y0 < whole.y1
    ensures InRange(shots, Shown(run, {}))
    ensures AlwaysAgree(shots, Shown(run, {})) <==> NewestAccepted(run)
  {
    assert NeverStrands(START, run) && CalmShutdown(START, run) by { DeliveringRun(START, [], run, t); }
    ScreenExact(run, {}, t, shots);
    if 0 < |shots| {
      NewestShown(run, t);
      var p := Point(whole.x0, whole.y0);
      assert Contains(shots[|shots| - 1].area, p);
      assert Latest(shots, |shots|, p) == |shots| - 1;
      assert Repainted(shots, Shown(run, {}), p) <==> NewestAccepted(run);
    }
    if NewestAccepted(run) {
      forall q ensures Repainted(shots, Shown(run, {}), q) {
        var x := Latest(shots, |shots|, q);
        assert 0 <= x ==> Contains(shots[|shots| - 1].area, q);
      }
    }
  }

  /**
   While the display is idle nothing is accepted: the black frame that idle_work pushes after it has set
   is_idle never reaches the wire, unless the display has been woken up again before.
   */
  lemma {:induction false} IdleAcceptsNothing(s: State, run: seq<Action>, t: State, n: nat)
    requires s.idle && ValidRun(s, run, t)
    requires forall k :: 0 <= k < |run| ==> run[k] != SetIdle(false)
    ensures t.idle && t.submitted == s.submitted && Accepted(run, n) == []
    decreases |run|
  {
    if run != [] {
      assert forall k :: 0 <= k < |run[1..]| ==> run[1..][k] == run[k + 1];
      IdleAcceptsNothing(Apply(s, run[0]), run[1..], t, n + One(IsRequest(run[0])));
    }
  }

  /** A frame drawn while the display is idle is missing on the panel after it has woken up. */
  lemma IdleFrameMissing() returns (run: seq<Action>, t: State)
    ensures Rested(run, t) && !t.idle && Requests(run) == 1 && !NewestAccepted(run)
  {
    var s1 := Apply(START, SetIdle(true));
    var s2 := Apply(s1, IdleDrop);
    t := Apply(s2, SetIdle(false));
    RunSnoc(START, [], START, SetIdle(true));
    RunSnoc(START, [] + [SetIdle(true)], s1, IdleDrop);
    RunSnoc(START, [] + [SetIdle(true)] + [IdleDrop], s2, SetIdle(false));
    run := [] + [SetIdle(true)] + [IdleDrop] + [SetIdle(false)];
    assert run == [SetIdle(true), IdleDrop, SetIdle(false)];
    assert run[1..] == [IdleDrop, SetIdle(false)] && run[1..][1..] == [SetIdle(false)];
    assert Requests([SetIdle(false)]) == 0 && Accepted([SetIdle(false)], 1) == [];
    assert Requests(run[1..]) == 1 && Accepted(run[1..], 0) == [];
  }

  /** One transfer from its submit to its completion. */
  const PASS0 := [SubmitOk(0), CtrlOk(0), BulkDone(0), CompleteLock]
  const PASS2 := [SubmitOk(2), CtrlOk(2), BulkDone(2), CompleteLock]

  lemma Passes(s: State, x: Id) returns (t: State)
    requires x in s.submitting && s.ctrl == {} && s.bulk == {} && !s.completeQueued
    ensures ValidRun(s, [SubmitOk(x), CtrlOk(x), BulkDone(x), CompleteLock], t)
    ensures t == DoComplete(s.(submitting := s.submitting - {x}, worker := Without(s.worker, x),
                               sent := s.sent + [x], completeQueued := true))
  {
    var s1 := Apply(s, SubmitOk(x));
    var s2 := Apply(s1, CtrlOk(x));
    var s3 := Apply(s2, BulkDone(x));
    t := Apply(s3, CompleteLock);
    RunSnoc(s, [], s, SubmitOk(x));
    RunSnoc(s, [] + [SubmitOk(x)], s1, CtrlOk(x));
    RunSnoc(s, [] + [SubmitOk(x)] + [CtrlOk(x)], s2, BulkDone(x));
    RunSnoc(s, [] + [SubmitOk(x)] + [CtrlOk(x)] + [BulkDone(x)], s3, CompleteLock);
    assert [] + [SubmitOk(x)] + [CtrlOk(x)] + [BulkDone(x)] + [CompleteLock] ==
           [SubmitOk(x), CtrlOk(x), BulkDone(x), CompleteLock];
  }

  lemma ThreeAccepted() returns (t: State)
    ensures ValidRun(START, [Accept, Accept, Accept], t)
    ensures t == START.(submitted := 3, inFlight := true, current := Some(0), pending := Some(2), submitting := {0},
                        dropping := {1}, displaced := {1})
  {
    var s1 := Apply(START, Accept);
    var s2 := Apply(s1, Accept);
    t := Apply(s2, Accept);
    RunSnoc(START, [], START, Accept);
    RunSnoc(START, [] + [Accept], s1, Accept);
    RunSnoc(START, [] + [Accept] + [Accept], s2, Accept);
    assert [] + [Accept] + [Accept] + [Accept] == [Accept, Accept, Accept];
  }

  /** Without any failure, the damage of a displaced partial frame stays off the panel. */
  lemma DisplacedDamageStays() returns (run: seq<Action>, t: State)
    ensures Rested(run, t) && Requests(run) == 3 && Accepted(run, 0) == [0, 1, 2] && Shown(run, {}) == [0, 2]
    ensures forall shots: seq<Shot>, p ::
              |shots| == 3 && Contains(shots[1].area, p) && !Contains(shots[2].area, p) ==>
              !Repainted(shots, Shown(run, {}), p)
  {
    var s1 := ThreeAccepted();
    var s2 := Passes(s1, 0);
    t := Passes(s2, 2);
    RunConcat(START, [Accept, Accept, Accept], s1, PASS0, s2);
    RunConcat(START, [Accept, Accept, Accept] + PASS0, s2, PASS2, t);
    run := [Accept, Accept, Accept] + PASS0 + PASS2;
    ArrivedOfThat(run);
    AcceptedOfThat(run);
    forall shots: seq<Shot>, p | |shots| == 3 && Contains(shots[1].area, p) && !Contains(shots[2].area, p)
      ensures !Repainted(shots, Shown(run, {}), p)
    {
      assert Latest(shots, 3, p) == 1;
    }
  }

  lemma {:induction false} NoRequests(run: seq<Action>, n: nat)
    requires forall k :: 0 <= k < |run| ==> !IsRequest(run[k])
    ensures Requests(run) == 0 && Accepted(run, n) == []
    decreases |run|
  {
    if run != [] {
      NoRequests(run[1..], n);
    }
  }

  lemma AcceptedOfThat(run: seq<Action>)
    requires run == [Accept, Accept, Accept] + PASS0 + PASS2
    ensures Requests(run) == 3 && Accepted(run, 0) == [0, 1, 2]
  {
    var rest := PASS0 + PASS2;
    NoRequests(rest, 3);
    assert run[1..] == [Accept, Accept] + rest && run[1..][1..] == [Accept] + rest && run[1..][1..][1..] == rest;
    assert Accepted(run[1..][1..], 2) == [2] && Requests(run[1..][1..]) == 1;
    assert Accepted(run[1..], 1) == [1, 2] && Requests(run[1..]) == 2;
  }

  lemma {:induction false} ArrivedConcat(a: seq<Action>, b: seq<Action>)
    ensures Arrived(a + b, {}) == Arrived(a, {}) + Arrived(b, {})
    decreases |a|
  {
    if a == [] {
      assert a + b == b;
    } else {
      assert (a + b)[0] == a[0] && (a + b)[1..] == a[1..] + b;
      ArrivedConcat(a[1..], b);
    }
  }

  lemma ArrivedOfThat(run: seq<Action>)
    requires run == [Accept, Accept, Accept] + PASS0 + PASS2
    ensures Arrived(run, {}) == [0, 2]
  {
    ArrivedConcat([Accept, Accept, Accept] + PASS0, PASS2);
    ArrivedConcat([Accept, Accept, Accept], PASS0);
    assert [Accept, Accept, Accept][1..] == [Accept, Accept] && [Accept, Accept][1..] == [Accept];
    ArrivedPass(0);
    ArrivedPass(2);
  }

  lemma ArrivedPass(x: Id)
    ensures Arrived([SubmitOk(x), CtrlOk(x), BulkDone(x), CompleteLock], {}) == [x]
  {
    var run := [SubmitOk(x), CtrlOk(x), BulkDone(x), CompleteLock];
    assert run[1..] == [CtrlOk(x), BulkDone(x), CompleteLock];
    assert run[1..][1..] == [BulkDone(x), CompleteLock] && run[1..][1..][1..] == [CompleteLock];
    assert Arrived([CompleteLock], {}) == [];
    assert Arrived([BulkDone(x), CompleteLock], {}) == [x];
  }
}
