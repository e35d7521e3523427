/**
 The MPro pipeline object: mpro_send_xfer, mpro_complete_work and mpro_io_shutdown on the driver's fields.
 Each is proved to be a run of the state machine in MproPipeline when no other thread cuts in.
 */
module MproDriver {
  import opened MproPipeline
  import opened MproRuns
  import opened Words

  const ESHUTDOWN := 108

  class Pipeline {
    var running: bool
    var isIdle: bool
    var inFlight: bool
    var currentXfer: Option<Id>
    var pendingXfer: Option<Id>
    var statsSubmitted: nat
    var statsDropped: nat

    predicate Represents(s: State)
      reads this
    {
      && running == s.running && isIdle == s.idle && inFlight == s.inFlight
      && currentXfer == s.current && pendingXfer == s.pending
      && statsSubmitted == s.submitted && statsDropped == s.dropped
    }

    /** mpro_io_init, and probe setting `running`. */
    constructor ()
      ensures Represents(START)
    {
      running, isIdle, inFlight := true, false, false;
      currentXfer, pendingXfer := None, None;
      statsSubmitted, statsDropped := 0, 0;
    }

    /**
     mpro_send_xfer.  `usb` is what submitting the control URB returns, 0 for success.  The new transfer
     takes the next number if it is accepted.
     */
    method SendXfer(xfer: Id, usb: int, ghost s: State) returns (ret: int, ghost run: seq<Action>, ghost t: State)
      requires Represents(s) && xfer == s.submitted
      modifies this
      ensures Represents(t) && ValidRun(s, run, t)
      ensures !s.running ==> t == s
      ensures ret == if !s.running then -ESHUTDOWN else if s.idle || s.inFlight then 0 else usb
      ensures s.running && !s.idle <==> t.submitted == s.submitted + 1
      ensures s.running && !s.idle && s.inFlight ==>
                && t.pending == Some(xfer) && t.current == s.current && t.inFlight
                && t.freed == s.freed + AsSet(s.pending) && t.displaced == s.displaced + AsSet(s.pending)
                && t.dropped == s.dropped + One(s.pending.Some?)
      ensures s.running && !s.idle && !s.inFlight && usb == 0 ==>
                t.current == Some(xfer) && t.inFlight && t.sent == s.sent + [xfer] && xfer in t.ctrl
      ensures s.running && !s.idle && !s.inFlight && usb != 0 ==>
                t.current == None && !t.inFlight && t.pending == s.pending && xfer in t.freed && xfer in t.failed
    {
      run, t := [], s;
      if !running {
        RunSnoc(s, run, t, Refuse);
        return -ESHUTDOWN, run + [Refuse], t;
      }
      if isIdle {
        RunSnoc(s, run, t, IdleDrop);
        run, t := run + [IdleDrop], Apply(t, IdleDrop);
        statsDropped := statsDropped + 1;
        return 0, run, t;
      }
      RunSnoc(s, run, t, Accept);
      run, t := run + [Accept], Apply(t, Accept);
      statsSubmitted := statsSubmitted + 1;
      if inFlight {
        var displaced := pendingXfer;
        pendingXfer := Some(xfer);
        if displaced.Some? {
          ghost var d := Drop(displaced.value);
          RunSnoc(s, run, t, d);
          run, t := run + [d], Apply(t, d);
          statsDropped := statsDropped + 1;
        }
        return 0, run, t;
      }
      inFlight := true;
      currentXfer := Some(xfer);
      run, t := Submit(xfer, usb, s, run, t);
      return usb, run, t;
    }

    /** Submit a transfer outside the lock, and give it up again under the lock if that fails. */
    method Submit(xfer: Id, usb: int, ghost s: State, ghost run0: seq<Action>, ghost m: State)
      returns (ghost run: seq<Action>, ghost t: State)
      requires Represents(m) && ValidRun(s, run0, m) && xfer in m.submitting
      modifies this`currentXfer, this`inFlight
      ensures Represents(t) && ValidRun(s, run, t)
      ensures usb == 0 ==> t == Apply(m, SubmitOk(xfer))
      ensures usb != 0 ==>
                t == m.(current := None, inFlight := false, submitting := m.submitting - {xfer}, failing := t.failing,
                        worker := Without(m.worker, xfer),
                        doomed := t.doomed, freed := m.freed + {xfer}, failed := m.failed + {xfer})
    {
      if usb == 0 {
        RunSnoc(s, run0, m, SubmitOk(xfer));
        return run0 + [SubmitOk(xfer)], Apply(m, SubmitOk(xfer));
      }
      currentXfer := None;
      inFlight := false;
      run, t := GiveUp(s, run0, m, xfer);
    }

    /** mpro_complete_work, run by the work queue after a completion queued it. */
    method CompleteWork(usb: int, ghost s: State) returns (ghost run: seq<Action>, ghost t: State)
      requires Represents(s) && Token(s) && s.completeQueued
      modifies this`currentXfer, this`pendingXfer, this`inFlight
      ensures Represents(t) && ValidRun(s, run, t)
      ensures t.done == s.done + AsSet(s.current) && AsSet(s.current) <= t.freed
      ensures s.pending.Some? && s.running ==>
                && t.pending == None
                && (if usb == 0 then t.current == s.pending && t.inFlight && t.sent == s.sent + [s.pending.value]
                    else t.current == None && !t.inFlight && s.pending.value in t.freed)
      ensures !(s.pending.Some? && s.running) ==> t.current == None && !t.inFlight && t.pending == s.pending
    {
      var done, next := currentXfer, None;
      if pendingXfer.Some? && running {
        next := pendingXfer;
        pendingXfer := None;
        currentXfer := next;
      } else {
        currentXfer := None;
        inFlight := false;
      }
      RunSnoc(s, [], s, CompleteLock);
      run, t := [] + [CompleteLock], Apply(s, CompleteLock);
      if done.Some? {
        RunSnoc(s, run, t, Free(done.value));
        run, t := run + [Free(done.value)], Apply(t, Free(done.value));
      }
      if next.None? {
        return;
      }
      run, t := Submit(next.value, usb, s, run, t);
    }

    /**
     mpro_io_shutdown, after the caller has cleared `running`, at a calm moment.  `busy` says whether the
     completion work is giving up a transfer whose submit has failed; cancel_work_sync waits for that.
     */
    method Shutdown(busy: bool, ghost s: State) returns (ghost run: seq<Action>, ghost t: State)
      requires Represents(s) && Token(s) && Stopped(s) && Calm(s) && busy == s.worker.Some?
      modifies this`currentXfer, this`pendingXfer, this`inFlight
      ensures Represents(t) && ValidRun(s, run, t) && CalmShutdown(s, run) && t.stage == Closed
      ensures t.current == None && t.pending == None && !t.inFlight
      ensures t.submitting == {} && t.failing == {} && t.ctrl == {} && t.bulk == {} && !t.completeQueued
      ensures t.freed == s.freed + AsSet(s.current) + AsSet(s.pending)
    {
      run, t := Begun(s);
      if busy {
        run, t := WorkerGivesUp(s, run, t);
        currentXfer, inFlight := None, false;
      }
      var cur, pend := currentXfer, pendingXfer;
      currentXfer, pendingXfer, inFlight := None, None, false;
      run, t := Emptied(s, run, t);
      if cur.Some? {
        run, t := Freed(s, run, t, cur.value);
      }
      if pend.Some? && pend != cur {
        run, t := Freed(s, run, t, pend.value);
      }
    }
  }

  lemma GiveUp(s: State, run0: seq<Action>, m: State, x: Id) returns (run: seq<Action>, t: State)
    requires ValidRun(s, run0, m) && x in m.submitting
    ensures ValidRun(s, run, t)
    ensures t == m.(current := None, inFlight := false, submitting := m.submitting - {x}, failing := t.failing,
                    worker := Without(m.worker, x),
                    doomed := t.doomed, freed := m.freed + {x}, failed := m.failed + {x})
  {
    var m1 := Apply(m, SubmitFail(x));
    var m2 := Apply(m1, FailLock(x));
    RunSnoc(s, run0, m, SubmitFail(x));
    RunSnoc(s, run0 + [SubmitFail(x)], m1, FailLock(x));
    RunSnoc(s, run0 + [SubmitFail(x)] + [FailLock(x)], m2, Free(x));
    run, t := run0 + [SubmitFail(x)] + [FailLock(x)] + [Free(x)], Apply(m2, Free(x));
  }

  /** A run in which shutdown begins, calmly, and gets no further than the state m. */
  ghost predicate Underway(s: State, run: seq<Action>, m: State) { ValidRun(s, run, m) && CalmShutdown(s, run) }

  lemma {:induction false} Onward(s: State, run: seq<Action>, m: State, a: Action)
    requires Underway(s, run, m) && Enabled(m, a) && (a.Kill? ==> Calm(m))
    ensures Underway(s, run + [a], Apply(m, a))
    decreases |run|
  {
    RunSnoc(s, run, m, a);
    CalmSnoc(s, run, m, a);
  }

  lemma {:induction false} CalmSnoc(s: State, run: seq<Action>, t: State, a: Action)
    requires ValidRun(s, run, t) && CalmShutdown(s, run) && Enabled(t, a) && (a.Kill? ==> Calm(t))
    ensures CalmShutdown(s, run + [a])
    decreases |run|
  {
    if run == [] {
      assert (run + [a])[1..] == [];
    } else {
      CalmSnoc(Apply(s, run[0]), run[1..], t, a);
      assert (run + [a])[1..] == run[1..] + [a];
    }
  }

  lemma Begun(s: State) returns (run: seq<Action>, t: State)
    requires Token(s) && Stopped(s) && Calm(s)
    ensures Underway(s, run, t) && t == DoKill(s) && Token(t)
  {
    Onward(s, [], s, Kill);
    TokenKill(s);
    run, t := [] + [Kill], DoKill(s);
  }

  lemma WorkerGivesUp(s: State, run0: seq<Action>, m: State) returns (run: seq<Action>, t: State)
    requires Underway(s, run0, m) && m.stage.Killed? && Token(m) && m.worker.Some?
    ensures Underway(s, run, t) && t.stage.Killed? && t.worker == None && Token(t)
    ensures t == DoFail(m, m.worker.value).(doomed := t.doomed, freed := m.freed + AsSet(m.current))
  {
    var x := m.worker.value;
    BusyIsCurrent(m, x);
    TokenFail(m, x);
    TokenHarmless(DoFail(m, x), Free(x));
    Onward(s, run0, m, FailLock(x));
    Onward(s, run0 + [FailLock(x)], DoFail(m, x), Free(x));
    run, t := run0 + [FailLock(x)] + [Free(x)], Apply(DoFail(m, x), Free(x));
  }

  lemma Emptied(s: State, run0: seq<Action>, m: State) returns (run: seq<Action>, t: State)
    requires Underway(s, run0, m) && m.stage.Killed? && m.worker == None
    ensures Underway(s, run, t) && t == DoShut(m.(completeQueued := false))
  {
    var m1 := Apply(m, Cancel);
    Onward(s, run0, m, Cancel);
    Onward(s, run0 + [Cancel], m1, Shut);
    run, t := run0 + [Cancel] + [Shut], Apply(m1, Shut);
  }

  lemma Freed(s: State, run0: seq<Action>, m: State, x: Id) returns (run: seq<Action>, t: State)
    requires Underway(s, run0, m) && x in m.doomed
    ensures Underway(s, run, t) && t == m.(doomed := m.doomed - {x}, freed := m.freed + {x})
  {
    Onward(s, run0, m, Free(x));
    run, t := run0 + [Free(x)], Apply(m, Free(x));
  }
}
