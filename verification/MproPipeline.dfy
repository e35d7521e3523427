/**
 The MPro frame pipeline as a state machine: one transfer in flight, one pending slot that the newest
 frame wins, any number of sending threads, two URB completions, the completion work item and shutdown.
 Everything the driver does under state_lock is one step; what a thread does between two lock sections
 (submit, handle a failed submit, free) is a step of its own.
 */
module MproPipeline {
  import opened Words

  /** Accepted transfers are numbered in the order in which mpro_send_xfer accepted them. */
  type Id = nat

  /** How far mpro_io_shutdown has come: not begun, URBs killed, completion work cancelled, slots taken. */
  datatype Stage = Up | Killed | Cancelled | Closed

  datatype State = State(
    // driver fields
    running: bool, idle: bool,
    inFlight: bool, current: Option<Id>, pending: Option<Id>,
    submitted: nat, dropped: nat,              // stats_submitted, stats_dropped
    completeQueued: bool,                      // complete_work is queued
    worker: Option<Id>,                        // the transfer a running complete_work submits or gives up
    stage: Stage,
    // transfers in the hands of a thread or of the USB core
    submitting: set<Id>, failing: set<Id>, ctrl: set<Id>, bulk: set<Id>,
    dropping: set<Id>, doomed: set<Id>, freed: set<Id>,
    // history
    sent: seq<Id>,
    done: set<Id>, displaced: set<Id>, failed: set<Id>, shut: set<Id>,
    idleDrops: nat)

  const START := State(true, false, false, None, None, 0, 0, false, None, Up,
                       {}, {}, {}, {}, {}, {}, {}, [], {}, {}, {}, {}, 0)

  datatype Action =
    | Accept                 // lock section of mpro_send_xfer
    | IdleDrop               // the same lock section while the display is idle
    | Refuse                 // an update that never gets that far, or finds the driver stopped
    | SubmitOk(x: Id)        // usb_submit_urb accepted the control URB
    | SubmitFail(x: Id)
    | FailLock(x: Id)        // lock section after a failed submit, in a sender or in the completion work
    | CtrlOk(x: Id)          // control URB done, bulk URB submitted
    | CtrlFail(x: Id)        // control URB failed, or the bulk URB could not be submitted
    | BulkDone(x: Id)
    | CompleteLock           // lock section of mpro_complete_work
    | Drop(x: Id)            // a sender counts and frees the frame it displaced
    | Free(x: Id)
    | SetIdle(on: bool)
    | Stop                   // running := false
    | Kill                   // mpro_io_shutdown kills the anchored URBs; their completions queue the work
    | Cancel                 // it cancels the queued completion work, having waited for a running one
    | Shut                   // its lock section

  /**
   No sender is between its lock section and its submit or failure handling, and the completion work is at
   most giving up a transfer whose submit has failed.
   */
  predicate Calm(s: State) { s.submitting == {} && OnlyWorkerFails(s) }

  predicate OnlyWorkerFails(s: State) { forall x :: x in s.failing ==> s.worker == Some(x) }

  predicate Enabled(s: State, a: Action) {
    match a
    case Accept => s.running && !s.idle
    case IdleDrop => s.running && s.idle
    case Refuse => true
    case SubmitOk(x) => x in s.submitting
    case SubmitFail(x) => x in s.submitting
    case FailLock(x) => x in s.failing
    case CtrlOk(x) => x in s.ctrl
    case CtrlFail(x) => x in s.ctrl
    case BulkDone(x) => x in s.bulk
    case CompleteLock => s.completeQueued
    case Drop(x) => x in s.dropping
    case Free(x) => x in s.doomed
    case SetIdle(_) => true
    case Stop => s.running
    case Kill => !s.running && s.stage.Up?
    case Cancel => s.stage.Killed? && s.worker.None?
    case Shut => s.stage.Cancelled?
  }

  function AsSet(o: Option<Id>): set<Id> { if o.Some? then {o.value} else {} }

  /** The completion work lets go of a transfer it holds. */
  function Without(o: Option<Id>, x: Id): Option<Id> { if o == Some(x) then None else o }

  function DoAccept(s: State): State {
    var x := s.submitted;
    if !s.inFlight then
      s.(submitted := x + 1, inFlight := true, current := Some(x), submitting := s.submitting + {x})
    else
      s.(submitted := x + 1, pending := Some(x),
         dropping := s.dropping + AsSet(s.pending), displaced := s.displaced + AsSet(s.pending))
  }

  function DoComplete(s: State): State {
    var t := s.(completeQueued := false, doomed := s.doomed + AsSet(s.current), done := s.done + AsSet(s.current));
    if s.pending.Some? && s.running then
      t.(pending := None, current := s.pending, submitting := s.submitting + AsSet(s.pending), worker := s.pending)
    else
      t.(current := None, inFlight := false)
  }

  function DoFail(s: State, x: Id): State {
    s.(current := None, inFlight := false, worker := Without(s.worker, x),
       failing := s.failing - {x}, doomed := s.doomed + {x}, failed := s.failed + {x})
  }

  /** Every anchored URB is gone, and its completion handler has queued the completion work. */
  function DoKill(s: State): State {
    s.(ctrl := {}, bulk := {}, completeQueued := s.completeQueued || s.ctrl + s.bulk != {}, stage := Killed)
  }

  /** Both slots are emptied under the lock; what they held is freed after it. */
  function DoShut(s: State): State {
    var both := AsSet(s.current) + AsSet(s.pending);
    s.(current := None, pending := None, inFlight := false,
       doomed := s.doomed + both, shut := s.shut + both, stage := Closed)
  }

  function Apply(s: State, a: Action): State
    requires Enabled(s, a)
  {
    match a
    case Accept => DoAccept(s)
    case IdleDrop => s.(dropped := s.dropped + 1, idleDrops := s.idleDrops + 1)
    case Refuse => s
    case SubmitOk(x) =>
      s.(submitting := s.submitting - {x}, worker := Without(s.worker, x), ctrl := s.ctrl + {x}, sent := s.sent + [x])
    case SubmitFail(x) => s.(submitting := s.submitting - {x}, failing := s.failing + {x})
    case FailLock(x) => DoFail(s, x)
    case CtrlOk(x) => s.(ctrl := s.ctrl - {x}, bulk := s.bulk + {x})
    case CtrlFail(x) => s.(ctrl := s.ctrl - {x}, completeQueued := true)
    case BulkDone(x) => s.(bulk := s.bulk - {x}, completeQueued := true)
    case CompleteLock => DoComplete(s)
    case Drop(x) => s.(dropped := s.dropped + 1, dropping := s.dropping - {x}, freed := s.freed + {x})
    case Free(x) => s.(doomed := s.doomed - {x}, freed := s.freed + {x})
    case SetIdle(on) => s.(idle := on)
    case Stop => s.(running := false)
    case Kill => DoKill(s)
    case Cancel => s.(completeQueued := false, stage := Cancelled)
    case Shut => DoShut(s)
  }

  // ---- Ownership -----------------------------------------------------------------------------

  function One(b: bool): nat { if b then 1 else 0 }

  /** How often transfer x is accounted for: in a slot, or retired for one of the four reasons. */
  function Places(s: State, x: Id): nat {
    One(s.current == Some(x)) + One(s.pending == Some(x)) + Retirements(s, x)
  }

  function Retirements(s: State, x: Id): nat {
    One(x in s.done) + One(x in s.displaced) + One(x in s.failed) + One(x in s.shut)
  }

  /** Who answers for a retired transfer: the sender that displaced it, the thread about to free it, nobody. */
  function Holders(s: State, x: Id): nat {
    One(x in s.dropping) + One(x in s.doomed) + One(x in s.freed)
  }

  /** How often a thread or the USB core is working on transfer x. */
  function Busy(s: State, x: Id): nat {
    One(x in s.submitting) + One(x in s.failing) + One(x in s.ctrl) + One(x in s.bulk)
  }

  /** Nobody needs to be busy with `current`: its completion is queued, or shutdown is about to take it. */
  predicate Waiting(s: State) { s.completeQueued || s.stage.Cancelled? }

  ghost predicate BusyAt(s: State, x: Id) { Busy(s, x) == One(s.current == Some(x) && !Waiting(s)) }

  /** Once shutdown has begun calmly, nothing is on its way to the wire any more. */
  predicate WindsDown(s: State) {
    s.stage.Up? || (!s.running && s.submitting == {} && s.ctrl == {} && s.bulk == {} && OnlyWorkerFails(s))
  }

  /** in_flight is a token: exactly one thread, one URB or one queued completion answers for `current`. */
  ghost predicate Token(s: State) {
    && s.inFlight == s.current.Some?
    && (s.completeQueued ==> s.inFlight && !s.stage.Cancelled?)
    && (forall x: Id :: BusyAt(s, x))
    && (s.worker.Some? ==> s.worker.value in s.submitting + s.failing)
    && WindsDown(s)
  }

  /** Every accepted transfer is in exactly one place, and a retired one has exactly one holder or is freed. */
  ghost predicate Ownership(s: State) {
    && (forall x: Id :: Places(s, x) == One(x < s.submitted))
    && (forall x: Id :: Holders(s, x) == Retirements(s, x))
    && (forall x: Id :: x in s.dropping ==> x in s.displaced)
  }

  predicate Counters(s: State) {
    s.dropped + |s.dropping| == |s.displaced| + s.idleDrops
  }

  ghost predicate Inv(s: State) { Token(s) && Ownership(s) && Counters(s) }

  // ---- Every step keeps the token ------------------------------------------------------------------

  /** A transfer some thread or URB is busy with is the current one, and nothing else is going on. */
  lemma BusyIsCurrent(s: State, x: Id)
    requires Token(s) && x in s.submitting + s.failing + s.ctrl + s.bulk
    ensures s.inFlight && s.current == Some(x) && !Waiting(s) && Busy(s, x) == 1
    ensures s.worker.Some? ==> s.worker == Some(x) && x in s.submitting + s.failing
  {
    assert BusyAt(s, x);
    if s.worker.Some? {
      assert BusyAt(s, s.worker.value);
    }
  }

  lemma TokenAccept(s: State)
    requires Inv(s) && Enabled(s, Accept)
    ensures Token(DoAccept(s))
  {
    var t := DoAccept(s);
    assert Places(s, s.submitted) == 0;
    assert BusyAt(s, s.submitted);
    forall x: Id ensures BusyAt(t, x) {
      assert BusyAt(s, x);
    }
  }

  lemma TokenComplete(s: State)
    requires Inv(s) && Enabled(s, CompleteLock)
    ensures Token(DoComplete(s))
  {
    var t := DoComplete(s);
    forall x: Id ensures BusyAt(t, x) {
      assert BusyAt(s, x);
    }
    if s.worker.Some? {
      assert BusyAt(s, s.worker.value);
    }
  }

  lemma TokenSubmitOk(s: State, y: Id)
    requires Token(s) && y in s.submitting
    ensures Token(Apply(s, SubmitOk(y)))
  {
    var t := Apply(s, SubmitOk(y));
    BusyIsCurrent(s, y);
    forall x: Id ensures BusyAt(t, x) {
      assert BusyAt(s, x);
    }
  }

  lemma TokenSubmitFail(s: State, y: Id)
    requires Token(s) && y in s.submitting
    ensures Token(Apply(s, SubmitFail(y)))
  {
    var t := Apply(s, SubmitFail(y));
    BusyIsCurrent(s, y);
    forall x: Id ensures BusyAt(t, x) {
      assert BusyAt(s, x);
    }
  }

  lemma TokenFail(s: State, y: Id)
    requires Token(s) && y in s.failing
    ensures Token(DoFail(s, y))
  {
    var t := DoFail(s, y);
    BusyIsCurrent(s, y);
    forall x: Id ensures BusyAt(t, x) {
      assert BusyAt(s, x);
    }
  }

  lemma TokenCtrlOk(s: State, y: Id)
    requires Token(s) && y in s.ctrl
    ensures Token(Apply(s, CtrlOk(y)))
  {
    var t := Apply(s, CtrlOk(y));
    BusyIsCurrent(s, y);
    forall x: Id ensures BusyAt(t, x) {
      assert BusyAt(s, x);
    }
  }

  lemma TokenCtrlFail(s: State, y: Id)
    requires Token(s) && y in s.ctrl
    ensures Token(Apply(s, CtrlFail(y)))
  {
    var t := Apply(s, CtrlFail(y));
    BusyIsCurrent(s, y);
    forall x: Id ensures BusyAt(t, x) {
      assert BusyAt(s, x);
    }
  }

  lemma TokenBulkDone(s: State, y: Id)
    requires Token(s) && y in s.bulk
    ensures Token(Apply(s, BulkDone(y)))
  {
    var t := Apply(s, BulkDone(y));
    BusyIsCurrent(s, y);
    forall x: Id ensures BusyAt(t, x) {
      assert BusyAt(s, x);
    }
  }

  lemma TokenKill(s: State)
    requires Token(s) && Enabled(s, Kill) && Calm(s)
    ensures Token(DoKill(s))
  {
    var t := DoKill(s);
    if s.ctrl + s.bulk != {} {
      var y :| y in s.ctrl + s.bulk;
      BusyIsCurrent(s, y);
    }
    forall x: Id ensures BusyAt(t, x) {
      assert BusyAt(s, x);
    }
  }

  lemma TokenCancel(s: State)
    requires Token(s) && Enabled(s, Cancel)
    ensures Token(Apply(s, Cancel))
  {
    assert s.failing == {};
  }

  lemma TokenShut(s: State)
    requires Token(s) && Enabled(s, Shut)
    ensures Token(DoShut(s))
  {
    forall x: Id ensures BusyAt(DoShut(s), x) {
      assert BusyAt(s, x);
    }
  }

  /** The steps that leave everything in_flight depends on alone. */
  predicate Harmless(a: Action) {
    a.IdleDrop? || a.Refuse? || a.Drop? || a.Free? || a.SetIdle? || a.Stop?
  }

  lemma TokenHarmless(s: State, a: Action)
    requires Token(s) && Enabled(s, a) && Harmless(a)
    ensures Token(Apply(s, a))
  {
    forall x: Id ensures BusyAt(Apply(s, a), x) {
      assert BusyAt(s, x);
    }
  }

  lemma TokenStep(s: State, a: Action)
    requires Inv(s) && Enabled(s, a) && (a.Kill? ==> Calm(s))
    ensures Token(Apply(s, a))
  {
    match a
    case Accept => TokenAccept(s);
    case SubmitOk(x) => TokenSubmitOk(s, x);
    case SubmitFail(x) => TokenSubmitFail(s, x);
    case FailLock(x) => TokenFail(s, x);
    case CtrlOk(x) => TokenCtrlOk(s, x);
    case CtrlFail(x) => TokenCtrlFail(s, x);
    case BulkDone(x) => TokenBulkDone(s, x);
    case CompleteLock => TokenComplete(s);
    case Kill => TokenKill(s);
    case Cancel => TokenCancel(s);
    case Shut => TokenShut(s);
    case _ => TokenHarmless(s, a);
  }

  // ---- Every step keeps ownership ------------------------------------------------------------------

  ghost predicate OwnedAt(s: State, x: Id) {
    && Places(s, x) == One(x < s.submitted)
    && Holders(s, x) == Retirements(s, x)
    && (x in s.dropping ==> x in s.displaced)
  }

  /** Both states account for every transfer in the same way. */
  predicate SameAccount(s: State, t: State) {
    && (s.current, s.pending, s.submitted) == (t.current, t.pending, t.submitted)
    && (s.done, s.displaced, s.failed, s.shut) == (t.done, t.displaced, t.failed, t.shut)
    && (s.dropping, s.doomed, s.freed) == (t.dropping, t.doomed, t.freed)
  }

  lemma SameAccountOwned(s: State, t: State)
    requires Ownership(s) && SameAccount(s, t)
    ensures Ownership(t)
  {
    forall x: Id ensures OwnedAt(t, x) {
      assert OwnedAt(s, x);
    }
    OwnedEverywhere(t);
  }

  lemma OwnedEverywhere(s: State)
    requires forall x: Id :: OwnedAt(s, x)
    ensures Ownership(s)
  {
    forall x: Id ensures Places(s, x) == One(x < s.submitted) && Holders(s, x) == Retirements(s, x) {
      assert OwnedAt(s, x);
    }
    forall x: Id | x in s.dropping ensures x in s.displaced {
      assert OwnedAt(s, x);
    }
  }

  lemma AcceptOwned(s: State)
    requires Inv(s) && Enabled(s, Accept)
    ensures Ownership(DoAccept(s))
  {
    forall x: Id ensures OwnedAt(DoAccept(s), x) {
      assert OwnedAt(s, x);
    }
    OwnedEverywhere(DoAccept(s));
  }

  lemma CompleteOwned(s: State)
    requires Inv(s) && Enabled(s, CompleteLock)
    ensures Ownership(DoComplete(s))
  {
    forall x: Id ensures OwnedAt(DoComplete(s), x) {
      assert OwnedAt(s, x);
    }
    OwnedEverywhere(DoComplete(s));
  }

  lemma ShutOwned(s: State)
    requires Inv(s) && Enabled(s, Shut)
    ensures Ownership(DoShut(s))
  {
    forall x: Id ensures OwnedAt(DoShut(s), x) {
      assert OwnedAt(s, x);
    }
    OwnedEverywhere(DoShut(s));
  }

  lemma FailOwned(s: State, y: Id)
    requires Inv(s) && y in s.failing
    ensures Ownership(DoFail(s, y))
  {
    BusyIsCurrent(s, y);
    forall x: Id ensures OwnedAt(DoFail(s, y), x) {
      assert OwnedAt(s, x);
    }
    OwnedEverywhere(DoFail(s, y));
  }

  lemma DropOwned(s: State, y: Id)
    requires Inv(s) && y in s.dropping
    ensures Ownership(Apply(s, Drop(y)))
  {
    forall x: Id ensures OwnedAt(Apply(s, Drop(y)), x) {
      assert OwnedAt(s, x);
    }
    OwnedEverywhere(Apply(s, Drop(y)));
  }

  lemma FreeOwned(s: State, y: Id)
    requires Inv(s) && y in s.doomed
    ensures Ownership(Apply(s, Free(y)))
  {
    forall x: Id ensures OwnedAt(Apply(s, Free(y)), x) {
      assert OwnedAt(s, x);
    }
    OwnedEverywhere(Apply(s, Free(y)));
  }

  /** The steps that move no transfer from one place or holder to another. */
  predicate KeepsAccount(a: Action) {
    !(a.Accept? || a.CompleteLock? || a.FailLock? || a.Shut? || a.Drop? || a.Free?)
  }

  lemma OwnershipStep(s: State, a: Action)
    requires Inv(s) && Enabled(s, a)
    ensures Ownership(Apply(s, a))
  {
    if KeepsAccount(a) {
      SameAccountOwned(s, Apply(s, a));
    } else {
      match a
      case Accept => AcceptOwned(s);
      case CompleteLock => CompleteOwned(s);
      case FailLock(x) => FailOwned(s, x);
      case Shut => ShutOwned(s);
      case Drop(x) => DropOwned(s, x);
      case Free(x) => FreeOwned(s, x);
    }
  }

  lemma CountersStep(s: State, a: Action)
    requires Inv(s) && Enabled(s, a)
    ensures Counters(Apply(s, a))
  {
    if a.Accept? && s.pending.Some? {
      assert Places(s, s.pending.value) == 1 && Holders(s, s.pending.value) == Retirements(s, s.pending.value);
    }
  }

  /** Every step keeps the invariant, as long as shutdown begins calmly. */
  lemma StepInv(s: State, a: Action)
    requires Inv(s) && Enabled(s, a) && (a.Kill? ==> Calm(s))
    ensures Inv(Apply(s, a))
  {
    TokenStep(s, a);
    OwnershipStep(s, a);
    CountersStep(s, a);
  }
}
