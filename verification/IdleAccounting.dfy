/** The MPro power statistics: what the transition counters and the two time totals say about a run. */
module IdleAccounting {
  import opened Words

  /** Everything that happens under listeners_lock: idle, wake, or a reset of the statistics. */
  datatype Op = Sleep | Wake(touch: bool) | Reset

  datatype Entry = Entry(now: nat, op: Op)

  /** The statistics; the three counters are 32 bits wide. */
  datatype Pm = Pm(
    idle: bool,
    changedNs: nat,
    activeNs: nat,
    idleNs: nat,
    idles: nat,
    wakes: nat,
    touches: nat)

  function Bump(n: nat): nat { Cut(n + 1) }

  lemma {:induction false} BumpCut(n: nat)
    ensures Bump(Cut(n)) == Cut(n + 1)
  {
    if n >= 0x1_0000_0000 {
      BumpCut(n - 0x1_0000_0000);
    }
  }

  // ---- The operations on values ----------------------------------------------------------------------

  /** mpro_pm_record_transition, called before the state bit changes. */
  function Recorded(pm: Pm, newIdle: bool, touch: bool, now: nat): Pm
    requires pm.changedNs <= now
  {
    var elapsed := now - pm.changedNs;
    var change := pm.idle != newIdle;
    pm.(activeNs := if pm.idle then pm.activeNs else pm.activeNs + elapsed,
        idleNs := if pm.idle then pm.idleNs + elapsed else pm.idleNs,
        changedNs := now,
        idles := if change && newIdle then Bump(pm.idles) else pm.idles,
        wakes := if change && !newIdle then Bump(pm.wakes) else pm.wakes,
        touches := if change && !newIdle && touch then Bump(pm.touches) else pm.touches)
  }

  function Step(pm: Pm, e: Entry): Pm
    requires pm.changedNs <= e.now
  {
    match e.op
    case Sleep => if pm.idle then pm else Recorded(pm, true, false, e.now).(idle := true)
    case Wake(touch) => if pm.idle then Recorded(pm, false, touch, e.now).(idle := false) else pm
    case Reset => Pm(pm.idle, e.now, 0, 0, 0, 0, 0)
  }

  // ---- The run itself --------------------------------------------------------------------------------

  function Front(h: seq<Entry>): seq<Entry>
    requires h != []
  {
    h[..|h| - 1]
  }

  function Last(h: seq<Entry>): Entry
    requires h != []
  {
    h[|h| - 1]
  }

  function LastTime(start: nat, h: seq<Entry>): nat { if h == [] then start else Last(h).now }

  /** The clock never runs backwards. */
  predicate Ordered(start: nat, h: seq<Entry>) {
    h == [] || (Ordered(start, Front(h)) && LastTime(start, Front(h)) <= Last(h).now)
  }

  /** Whether the device is idle at time t: what the last sleep or wake up to then said. */
  predicate IdleAt(idle0: bool, h: seq<Entry>, t: nat) {
    if h == [] then idle0
    else if Last(h).now <= t && !Last(h).op.Reset? then Last(h).op.Sleep?
    else IdleAt(idle0, Front(h), t)
  }

  /** How many nanoseconds of [from, until) the device spends idle, or active. */
  function TimeIn(idle0: bool, h: seq<Entry>, idle: bool, from: nat, until: nat): nat {
    if until <= from then 0
    else TimeIn(idle0, h, idle, from, until - 1) + if IdleAt(idle0, h, until - 1) == idle then 1 else 0
  }

  /** When the statistics were last reset. */
  function Since(start: nat, h: seq<Entry>): nat {
    if h == [] then start
    else if Last(h).op.Reset? then Last(h).now
    else Since(start, Front(h))
  }

  predicate IdleAfter(idle0: bool, h: seq<Entry>) {
    if h == [] then idle0
    else if Last(h).op.Reset? then IdleAfter(idle0, Front(h))
    else Last(h).op.Sleep?
  }

  predicate IdleAtReset(idle0: bool, h: seq<Entry>) {
    if h == [] then idle0
    else if Last(h).op.Reset? then IdleAfter(idle0, h)
    else IdleAtReset(idle0, Front(h))
  }

  /** The real changes of state since the last reset, with the operation that made each. */
  function Changes(idle0: bool, h: seq<Entry>): seq<Op> {
    if h == [] || Last(h).op.Reset? then []
    else if Last(h).op.Sleep? == IdleAfter(idle0, Front(h)) then Changes(idle0, Front(h))
    else Changes(idle0, Front(h)) + [Last(h).op]
  }

  function Sleeps(ops: seq<Op>): nat {
    if ops == [] then 0 else Sleeps(ops[..|ops| - 1]) + if ops[|ops| - 1].Sleep? then 1 else 0
  }

  function Wakes(ops: seq<Op>): nat {
    if ops == [] then 0 else Wakes(ops[..|ops| - 1]) + if ops[|ops| - 1].Wake? then 1 else 0
  }

  function Touches(ops: seq<Op>): nat {
    if ops == [] then 0
    else Touches(ops[..|ops| - 1]) + if ops[|ops| - 1].Wake? && ops[|ops| - 1].touch then 1 else 0
  }

  lemma CountSnoc(ops: seq<Op>, op: Op)
    ensures Sleeps(ops + [op]) == Sleeps(ops) + if op.Sleep? then 1 else 0
    ensures Wakes(ops + [op]) == Wakes(ops) + if op.Wake? then 1 else 0
    ensures Touches(ops + [op]) == Touches(ops) + if op.Wake? && op.touch then 1 else 0
  {
    var longer := ops + [op];
    assert longer[..|longer| - 1] == ops;
  }

  // ---- Facts about runs ------------------------------------------------------------------------------

  lemma SnocParts(h: seq<Entry>, e: Entry)
    ensures Front(h + [e]) == h && Last(h + [e]) == e
  {}

  /** A later entry does not change the past. */
  lemma {:induction false} TimeBefore(idle0: bool, h: seq<Entry>, e: Entry, idle: bool, from: nat, until: nat)
    requires until <= e.now
    ensures TimeIn(idle0, h + [e], idle, from, until) == TimeIn(idle0, h, idle, from, until)
    decreases until
  {
    SnocParts(h, e);
    if from < until {
      TimeBefore(idle0, h, e, idle, from, until - 1);
    }
  }

  /** While the state stays, its total grows with the clock and the other one rests. */
  lemma {:induction false} TimeSteady(idle0: bool, h: seq<Entry>, idle: bool, from: nat, mid: nat, until: nat)
    requires from <= mid <= until
    requires forall t :: mid <= t < until ==> IdleAt(idle0, h, t) == idle
    ensures TimeIn(idle0, h, idle, from, until) == TimeIn(idle0, h, idle, from, mid) + (until - mid)
    ensures TimeIn(idle0, h, !idle, from, until) == TimeIn(idle0, h, !idle, from, mid)
    decreases until
  {
    if mid < until {
      TimeSteady(idle0, h, idle, from, mid, until - 1);
      assert IdleAt(idle0, h, until - 1) == idle;
    }
  }

  lemma {:induction false} TimesAddUp(idle0: bool, h: seq<Entry>, from: nat, until: nat)
    requires from <= until
    ensures TimeIn(idle0, h, true, from, until) + TimeIn(idle0, h, false, from, until) == until - from
    decreases until
  {
    if from < until {
      TimesAddUp(idle0, h, from, until - 1);
    }
  }

  lemma {:induction false} SettledState(start: nat, idle0: bool, h: seq<Entry>, t: nat)
    requires Ordered(start, h) && LastTime(start, h) <= t
    ensures IdleAt(idle0, h, t) == IdleAfter(idle0, h)
    decreases h
  {
    if h != [] && Last(h).op.Reset? {
      SettledState(start, idle0, Front(h), t);
    }
  }

  /** Recorded changes strictly alternate, starting with the one that leaves the state at the reset. */
  lemma {:induction false} ChangesAlternate(idle0: bool, h: seq<Entry>)
    ensures var cs := Changes(idle0, h);
            && (forall k :: 0 <= k < |cs| ==> !cs[k].Reset?)
            && (forall k :: 0 < k < |cs| ==> cs[k].Sleep? != cs[k - 1].Sleep?)
            && (cs != [] ==> cs[0].Sleep? != IdleAtReset(idle0, h))
            && (IdleAfter(idle0, h) <==> if cs == [] then IdleAtReset(idle0, h) else cs[|cs| - 1].Sleep?)
    decreases h
  {
    if h != [] && !Last(h).op.Reset? {
      ChangesAlternate(idle0, Front(h));
    }
  }

  function Bit(b: bool): int { if b then 1 else 0 }

  /** So sleeps and wakes differ by what the state bit has gained since the reset. */
  lemma {:induction false} CountsBalance(idle0: bool, h: seq<Entry>)
    ensures var cs := Changes(idle0, h);
            && Sleeps(cs) - Wakes(cs) == Bit(IdleAfter(idle0, h)) - Bit(IdleAtReset(idle0, h))
            && Touches(cs) <= Wakes(cs)
            && Sleeps(cs) + Wakes(cs) == |cs|
    decreases h
  {
    if h != [] && !Last(h).op.Reset? {
      CountsBalance(idle0, Front(h));
      CountSnoc(Changes(idle0, Front(h)), Last(h).op);
    }
  }

  // ---- The statistics describe the run ---------------------------------------------------------------

  ghost predicate Timed(start: nat, idle0: bool, h: seq<Entry>, pm: Pm) {
    && Since(start, h) <= pm.changedNs <= LastTime(start, h)
    && (forall t :: pm.changedNs <= t ==> IdleAt(idle0, h, t) == pm.idle)
    && pm.activeNs == TimeIn(idle0, h, false, Since(start, h), pm.changedNs)
    && pm.idleNs == TimeIn(idle0, h, true, Since(start, h), pm.changedNs)
  }

  ghost predicate CountersOf(ops: seq<Op>, pm: Pm) {
    pm.idles == Cut(Sleeps(ops)) && pm.wakes == Cut(Wakes(ops)) && pm.touches == Cut(Touches(ops))
  }

  ghost predicate Counted(idle0: bool, h: seq<Entry>, pm: Pm) {
    && pm.idle == IdleAfter(idle0, h)
    && CountersOf(Changes(idle0, h), pm)
  }

  lemma StepTimed(start: nat, idle0: bool, h: seq<Entry>, pm: Pm, e: Entry)
    requires Timed(start, idle0, h, pm) && LastTime(start, h) <= e.now
    ensures Timed(start, idle0, h + [e], Step(pm, e))
  {
    var h', pm', from := h + [e], Step(pm, e), Since(start, h);
    SnocParts(h, e);
    if e.op.Reset? {
      assert TimeIn(idle0, h', true, e.now, e.now) == 0;
    } else {
      assert Since(start, h') == from;
      TimeBefore(idle0, h, e, true, from, pm'.changedNs);
      TimeBefore(idle0, h, e, false, from, pm'.changedNs);
      TimeSteady(idle0, h, pm.idle, from, pm.changedNs, pm'.changedNs);
    }
    forall t | pm'.changedNs <= t ensures IdleAt(idle0, h', t) == pm'.idle {
      assert IdleAt(idle0, h, t) == pm.idle;
    }
  }

  lemma RecordedCounts(ops: seq<Op>, pm: Pm, e: Entry)
    requires CountersOf(ops, pm) && pm.changedNs <= e.now && !e.op.Reset? && e.op.Sleep? != pm.idle
    ensures CountersOf(ops + [e.op], Step(pm, e))
  {
    CountSnoc(ops, e.op);
    BumpCut(Sleeps(ops));
    BumpCut(Wakes(ops));
    BumpCut(Touches(ops));
  }

  lemma StepCounted(idle0: bool, h: seq<Entry>, pm: Pm, e: Entry)
    requires Counted(idle0, h, pm) && pm.changedNs <= e.now
    ensures Counted(idle0, h + [e], Step(pm, e))
  {
    SnocParts(h, e);
    if Changes(idle0, h + [e]) == Changes(idle0, h) + [e.op] {
      RecordedCounts(Changes(idle0, h), pm, e);
    }
  }

  /** The statistics after a run that starts when the driver initialises them. */
  function After(start: nat, h: seq<Entry>): (pm: Pm)
    requires Ordered(start, h)
    ensures pm.changedNs <= LastTime(start, h)
  {
    if h == [] then Pm(false, start, 0, 0, 0, 0, 0) else Step(After(start, Front(h)), Last(h))
  }

  lemma {:induction false} RunAccounted(start: nat, h: seq<Entry>)
    requires Ordered(start, h)
    ensures Timed(start, false, h, After(start, h)) && Counted(false, h, After(start, h))
    decreases h
  {
    if h == [] {
      assert TimeIn(false, h, true, start, start) == 0;
    } else {
      RunAccounted(start, Front(h));
      assert h == Front(h) + [Last(h)];
      StepTimed(start, false, Front(h), After(start, Front(h)), Last(h));
      StepCounted(false, Front(h), After(start, Front(h)), Last(h));
    }
  }

  /**
   The time the statistics show at any moment, current state included, is the time the device spent in each
   state since the last reset, and the recorded totals telescope to the last change.
   */
  lemma TimeAccounted(start: nat, h: seq<Entry>, now: nat)
    requires Ordered(start, h) && LastTime(start, h) <= now
    ensures var pm, since := After(start, h), Since(start, h);
            && since <= pm.changedNs <= now
            && pm.activeNs + pm.idleNs == pm.changedNs - since
            && TimeIn(false, h, pm.idle, since, now) ==
                 (if pm.idle then pm.idleNs else pm.activeNs) + (now - pm.changedNs)
            && TimeIn(false, h, !pm.idle, since, now) == if pm.idle then pm.activeNs else pm.idleNs
  {
    RunAccounted(start, h);
    var pm, since := After(start, h), Since(start, h);
    TimesAddUp(false, h, since, pm.changedNs);
    TimeSteady(false, h, pm.idle, since, pm.changedNs, now);
  }

  lemma CutDifference(a: nat, b: nat)
    ensures (Cut(a) - Cut(b) - (a - b)) % 0x1_0000_0000 == 0
  {
    CutIsMod(a);
    CutIsMod(b);
    assert a % 0x1_0000_0000 - b % 0x1_0000_0000 - (a - b) == 0x1_0000_0000 * (b / 0x1_0000_0000 - a / 0x1_0000_0000);
  }

  /** Sleeps less wakes is what the state bit has gained since the reset, up to the width of the counters. */
  lemma TransitionsAccounted(start: nat, h: seq<Entry>)
    requires Ordered(start, h)
    ensures var pm := After(start, h);
            && (pm.idles - pm.wakes - (Bit(pm.idle) - Bit(IdleAtReset(false, h)))) % 0x1_0000_0000 == 0
  {
    RunAccounted(start, h);
    CountsBalance(false, h);
    CutDifference(Sleeps(Changes(false, h)), Wakes(Changes(false, h)));
  }

  /** While they have not wrapped they satisfy the laws exactly. */
  lemma CountersExact(start: nat, h: seq<Entry>)
    requires Ordered(start, h)
    requires Sleeps(Changes(false, h)) < 0x1_0000_0000 && Wakes(Changes(false, h)) < 0x1_0000_0000
    ensures var pm := After(start, h);
            && pm.touches <= pm.wakes
            && pm.idles - pm.wakes == Bit(pm.idle) - Bit(IdleAtReset(false, h))
            && pm.idles + pm.wakes == |Changes(false, h)|
  {
    var cs := Changes(false, h);
    RunAccounted(start, h);
    CountsBalance(false, h);
    CutExact(Sleeps(cs));
    CutExact(Wakes(cs));
    CutExact(Touches(cs));
  }

  /** Past that, a wrapped wake counter can fall behind the touch wakes. */
  lemma WrapBreaksOrder(pm: Pm, now: nat)
    requires pm.idle && pm.changedNs <= now && pm.wakes == 0xffff_ffff && 0 < pm.touches <= pm.wakes
    ensures Step(pm, Entry(now, Wake(false))).touches > Step(pm, Entry(now, Wake(false))).wakes
  {}

  /** n times to sleep and woken by touch, all in the nanosecond of initialisation. */
  function Cycles(start: nat, n: nat): seq<Entry> {
    if n == 0 then [] else Cycles(start, n - 1) + [Entry(start, Sleep)] + [Entry(start, Wake(true))]
  }

  lemma AfterSnoc(start: nat, h: seq<Entry>, e: Entry)
    requires Ordered(start, h) && LastTime(start, h) <= e.now
    ensures Ordered(start, h + [e]) && LastTime(start, h + [e]) == e.now
    ensures After(start, h + [e]) == Step(After(start, h), e)
  {
    SnocParts(h, e);
  }

  lemma {:induction false} CyclesCounted(start: nat, n: nat)
    requires n < 0x1_0000_0000
    ensures Ordered(start, Cycles(start, n)) && LastTime(start, Cycles(start, n)) == start
    ensures After(start, Cycles(start, n)) == Pm(false, start, 0, 0, n, n, n)
  {
    if n > 0 {
      var h, e1, e2 := Cycles(start, n - 1), Entry(start, Sleep), Entry(start, Wake(true));
      CyclesCounted(start, n - 1);
      AfterSnoc(start, h, e1);
      AfterSnoc(start, h + [e1], e2);
    }
  }

  /** That state is reached: 2^32 - 1 touch wakes and then one of another kind. */
  lemma WrapHappens(start: nat, n: nat) returns (h: seq<Entry>)
    requires n == 0xffff_ffff
    ensures Ordered(start, h) && After(start, h).touches > After(start, h).wakes
  {
    var e1, e2 := Entry(start, Sleep), Entry(start, Wake(false));
    CyclesCounted(start, n);
    AfterSnoc(start, Cycles(start, n), e1);
    AfterSnoc(start, Cycles(start, n) + [e1], e2);
    h := Cycles(start, n) + [e1] + [e2];
  }

  // ---- The driver ------------------------------------------------------------------------------------

  class MproPm {
    const fbdev: bool
    var delayMs: nat
    var refs: int
    var idle: bool
    var changedNs: nat
    var activeNs: nat
    var idleNs: nat
    var idles: nat
    var wakes: nat
    var touches: nat

    function Value(): Pm
      reads this
    {
      Pm(idle, changedNs, activeNs, idleNs, idles, wakes, touches)
    }

    constructor (fb: bool, delay: nat, now: nat)
      ensures Value() == After(now, []) && refs == 0 && fbdev == fb && delayMs == delay
    {
      fbdev, delayMs, refs, idle, changedNs := fb, delay, 0, false, now;
      activeNs, idleNs, idles, wakes, touches := 0, 0, 0, 0, 0;
    }

    method RecordTransition(newIdle: bool, touchWake: bool, now: nat)
      requires changedNs <= now
      modifies this`activeNs, this`idleNs, this`changedNs, this`idles, this`wakes, this`touches
      ensures Value() == Recorded(old(Value()), newIdle, touchWake, now)
    {
      var elapsed := now - changedNs;
      if idle {
        idleNs := idleNs + elapsed;
      } else {
        activeNs := activeNs + elapsed;
      }
      changedNs := now;
      if idle != newIdle {
        if newIdle {
          idles := Bump(idles);
        } else {
          wakes := Bump(wakes);
          if touchWake {
            touches := Bump(touches);
          }
        }
      }
    }

    method IdleWork(now: nat) returns (entered: bool)
      requires changedNs <= now
      modifies this`idle, this`activeNs, this`idleNs, this`changedNs, this`idles, this`wakes, this`touches
      ensures Value() == Step(old(Value()), Entry(now, Sleep)) && entered == !old(idle)
    {
      if idle {
        return false;
      }
      RecordTransition(true, false, now);
      idle := true;
      return true;
    }

    /** mpro_active_get: an fbdev console only counts references. */
    method ActiveGet(now: nat) returns (woke: bool)
      requires changedNs <= now
      modifies this`refs, this`idle, this`activeNs, this`idleNs, this`changedNs, this`idles, this`wakes, this`touches
      ensures refs == old(refs) + 1
      ensures Value() == if fbdev then old(Value()) else Step(old(Value()), Entry(now, Wake(false)))
      ensures woke == (old(idle) && !fbdev) && (!fbdev ==> !idle)
    {
      refs := refs + 1;
      if fbdev {
        return false;
      }
      woke := idle;
      if woke {
        RecordTransition(false, false, now);
      }
      idle := false;
    }

    /** mpro_active_put: says whether the idle work is to be scheduled. */
    method ActivePut(held: bool) returns (schedule: bool)
      modifies this`refs
      ensures refs == old(refs) - (if held then 1 else 0)
      ensures schedule <==> held && refs == 0 && !fbdev && delayMs != 0
    {
      if !held {
        return false;
      }
      refs := refs - 1;
      if refs != 0 {
        return false;
      }
      return !fbdev && delayMs != 0;
    }

    method ForceIdle(now: nat) returns (changed: bool)
      requires changedNs <= now
      modifies this`idle, this`activeNs, this`idleNs, this`changedNs, this`idles, this`wakes, this`touches
      ensures Value() == Step(old(Value()), Entry(now, Sleep)) && changed == !old(idle)
    {
      changed := false;
      if !idle {
        RecordTransition(true, false, now);
        idle := true;
        changed := true;
      }
    }

    method ForceActive(now: nat) returns (wasIdle: bool)
      requires changedNs <= now
      modifies this`idle, this`activeNs, this`idleNs, this`changedNs, this`idles, this`wakes, this`touches
      ensures Value() == Step(old(Value()), Entry(now, Wake(false))) && wasIdle == old(idle)
    {
      wasIdle := idle;
      if wasIdle {
        RecordTransition(false, false, now);
      }
      idle := false;
    }

    /** mpro_wake_work: says whether the idle work is to be scheduled again. */
    method WakeWork(now: nat) returns (schedule: bool)
      requires changedNs <= now
      modifies this`idle, this`activeNs, this`idleNs, this`changedNs, this`idles, this`wakes, this`touches
      ensures Value() == Step(old(Value()), Entry(now, Wake(true)))
      ensures schedule <==> old(idle) && !fbdev && delayMs > 0 && refs == 0
    {
      var wasIdle := idle;
      if wasIdle {
        RecordTransition(false, true, now);
      }
      idle := false;
      if !wasIdle {
        return false;
      }
      return !fbdev && delayMs > 0 && refs == 0;
    }

    method ResetStats(now: nat)
      requires changedNs <= now
      modifies this`activeNs, this`idleNs, this`changedNs, this`idles, this`wakes, this`touches
      ensures Value() == Step(old(Value()), Entry(now, Op.Reset))
    {
      activeNs := 0;
      idleNs := 0;
      changedNs := now;
      idles := 0;
      wakes := 0;
      touches := 0;
    }
  }
}
