/**
 The Win32 token pool: a child thread waits for the jobserver semaphore on behalf of the parent, which sits
 in GetQueuedCompletionStatus.  Two semaphores, created with a maximum of one, keep the two in step.
 */
module JobserverWin32 {
  /** Idle: outside DoWork; Waiting: for enter_wait; Queue: in GetQueuedCompletionStatus; Got: a packet is out. */
  datatype Parent = Idle | Waiting | Queue | Got

  /** The places of SemaphoreThread; Listening is the alertable wait for the jobserver semaphore. */
  datatype Child = NotStarted | Top | Listening | Holding | Posting | Blocked

  datatype State = State(
    enter: int,      // semaphore_enter_wait_
    restart: int,    // semaphore_restart_
    apcs: nat,       // calls queued for the child and not yet delivered
    jobs: int,       // the jobserver semaphore
    packets: nat,    // posted by the child, not yet dequeued
    events: nat,     // completions of subprocess pipes, not yet dequeued
    parent: Parent,
    child: Child,
    pool: nat,       // tokens this ninja has acquired
    others: nat)     // tokens the other clients have

  /** PlainEvent and PlainPacket are DoWork without a token pool: it takes what the queue holds for a subprocess. */
  datatype ParentStep = Begin | Entered | GetToken | GetEvent | Alert | Acquire | Return | PlainEvent | PlainPacket

  datatype ChildStep = Announce | TakeToken | Alerted | GiveBack | Post | Restart

  datatype OtherStep = OtherTakes | OtherGives | Event

  datatype Step = P(p: ParentStep) | C(c: ChildStep) | O(o: OtherStep)

  predicate ParentCan(s: State, p: ParentStep) {
    match p
    case Begin => s.parent == Idle
    case Entered => s.parent == Waiting && 0 < s.enter
    case GetToken => s.parent == Queue && 0 < s.packets
    case GetEvent => s.parent == Queue && 0 < s.events
    case Alert => s.parent == Got
    case Acquire => s.parent == Idle && 0 < s.jobs
    case Return => s.parent == Idle && 0 < s.pool
    case PlainEvent => s.parent == Idle && 0 < s.events
    case PlainPacket => s.parent == Idle && 0 < s.packets
  }

  predicate ChildCan(s: State, c: ChildStep) {
    match c
    case Announce => s.child == Top
    case TakeToken => s.child == Listening && 0 < s.jobs
    case Alerted => s.child == Listening && 0 < s.apcs
    case GiveBack => s.child == Holding
    case Post => s.child == Posting
    case Restart => s.child == Blocked && 0 < s.restart
  }

  predicate Can(s: State, a: Step) {
    match a
    case P(p) => ParentCan(s, p)
    case C(c) => ChildCan(s, c)
    case O(o) =>
      match o
      case OtherTakes => 0 < s.jobs
      case OtherGives => 0 < s.others
      case Event => true
  }

  /** Begin starts the child the first time and lets it loop every other time. */
  function ParentDo(s: State, p: ParentStep): State
    requires ParentCan(s, p)
  {
    match p
    case Begin =>
      if s.child == NotStarted then s.(parent := Waiting, child := Top)
      else s.(parent := Waiting, restart := s.restart + 1)
    case Entered => s.(parent := Queue, enter := s.enter - 1)
    case GetToken => s.(parent := Got, packets := s.packets - 1)
    case GetEvent => s.(parent := Got, events := s.events - 1)
    case Alert => s.(parent := Idle, apcs := s.apcs + 1)
    case Acquire => s.(jobs := s.jobs - 1, pool := s.pool + 1)
    case Return => s.(jobs := s.jobs + 1, pool := s.pool - 1)
    case PlainEvent => s.(events := s.events - 1)
    case PlainPacket => s.(packets := s.packets - 1)
  }

  /** An alerted wait has run every call queued so far. */
  function ChildDo(s: State, c: ChildStep): State
    requires ChildCan(s, c)
  {
    match c
    case Announce => s.(child := Listening, enter := s.enter + 1)
    case TakeToken => s.(child := Holding, jobs := s.jobs - 1)
    case Alerted => s.(child := Blocked, apcs := 0)
    case GiveBack => s.(child := Posting, jobs := s.jobs + 1)
    case Post => s.(child := Blocked, packets := s.packets + 1)
    case Restart => s.(child := Top, restart := s.restart - 1)
  }

  function Do(s: State, a: Step): State
    requires Can(s, a)
  {
    match a
    case P(p) => ParentDo(s, p)
    case C(c) => ChildDo(s, c)
    case O(o) =>
      match o
      case OtherTakes => s.(jobs := s.jobs - 1, others := s.others + 1)
      case OtherGives => s.(jobs := s.jobs + 1, others := s.others - 1)
      case Event => s.(events := s.events + 1)
  }

  ghost predicate ValidRun(s: State, run: seq<Step>, t: State)
    decreases run
  {
    if run == [] then t == s else Can(s, run[0]) && ValidRun(Do(s, run[0]), run[1..], t)
  }

  function Start(tokens: nat, others: nat): State {
    State(0, 0, 0, tokens, 0, 0, Idle, NotStarted, 0, others)
  }

  function Tokens(s: State): int {
    s.jobs + (if s.child == Holding then 1 else 0) + s.pool + s.others
  }

  /** The child has announced itself in the parent's current round and has not been let go again. */
  predicate Announced(s: State) {
    s.child != NotStarted && s.child != Top && s.restart == 0
  }

  /**
   Who may do what: outside Waiting both semaphores are down; in Waiting at most one is up, and a child that
   still listens from the previous round has a call queued that will wake it.
   */
  predicate Handshake(s: State) {
    match s.parent
    case Idle =>
      && s.enter == 0 && s.restart == 0 && s.child != Top
      && (s.child == Listening ==> 0 < s.apcs)
    case Waiting =>
      || (s.enter == 1 && Announced(s))
      || (s.enter == 0 && s.restart == 0 && s.child == Top)
      || (s.enter == 0 && s.restart == 1 && s.child != Top && s.child != NotStarted &&
          (s.child == Listening ==> 0 < s.apcs))
    case Queue => s.enter == 0 && Announced(s)
    case Got => s.enter == 0 && Announced(s)
  }

  predicate Inv(total: int, s: State) {
    Handshake(s) && Tokens(s) == total && 0 <= s.jobs
  }

  lemma StepInv(total: int, s: State, a: Step)
    requires Inv(total, s) && Can(s, a)
    ensures Inv(total, Do(s, a))
  {}

  lemma {:induction false} RunInv(total: int, s: State, run: seq<Step>, t: State)
    requires Inv(total, s) && ValidRun(s, run, t)
    ensures Inv(total, t)
    decreases run
  {
    if run != [] {
      StepInv(total, s, run[0]);
      RunInv(total, Do(s, run[0]), run[1..], t);
    }
  }

  lemma {:induction false} RunConcat(s: State, first: seq<Step>, m: State, second: seq<Step>, t: State)
    requires ValidRun(s, first, m) && ValidRun(m, second, t)
    ensures ValidRun(s, first + second, t)
    decreases first
  {
    if first == [] {
      assert first + second == second;
    } else {
      assert (first + second)[0] == first[0] && (first + second)[1..] == first[1..] + second;
      RunConcat(Do(s, first[0]), first[1..], m, second, t);
    }
  }

  // ---- Safety --------------------------------------------------------------------------------------

  /**
   In every run the two semaphores are 0 or 1 and never both 1, every release finds its semaphore below its
   maximum, and the tokens are conserved, so no release is ever fatal and the pool never makes a token.
   */
  lemma SemaphoresInRange(tokens: nat, others: nat, run: seq<Step>, t: State)
    requires ValidRun(Start(tokens, others), run, t)
    ensures 0 <= t.enter && 0 <= t.restart && t.enter + t.restart <= 1
    ensures ChildCan(t, Announce) ==> t.enter == 0
    ensures ParentCan(t, Begin) ==> t.restart == 0
    ensures t.jobs + (if t.child == Holding then 1 else 0) + t.pool + t.others == tokens + others
    ensures ChildCan(t, GiveBack) || ParentCan(t, Return) || 0 < t.others ==> 0 <= t.jobs < tokens + others
  {
    RunInv(tokens + others, Start(tokens, others), run, t);
  }

  // ---- Progress ------------------------------------------------------------------------------------

  /** The child's distance, in steps, from announcing itself to a parent that waits for it. */
  function Distance(s: State): nat {
    if s.parent != Waiting || 0 < s.enter then 0
    else match s.child
      case Top => 1
      case Blocked => 2
      case Posting => 3
      case Holding => 4
      case Listening => 5
      case NotStarted => 6
  }

  /** While the parent is blocked on enter_wait the child can move, stale calls or not. */
  lemma NeverBothBlocked(tokens: nat, others: nat, run: seq<Step>, t: State)
    requires ValidRun(Start(tokens, others), run, t)
    requires t.parent == Waiting && t.enter == 0
    ensures exists c :: ChildCan(t, c)
  {
    RunInv(tokens + others, Start(tokens, others), run, t);
    var c := match t.child
      case Top => Announce
      case Blocked => Restart
      case Posting => Post
      case Holding => GiveBack
      case _ => Alerted;
    assert ChildCan(t, c);
  }

  /** Each step of the child brings the announcement closer and nobody else's step defers it. */
  lemma WaitingEnds(total: int, s: State, a: Step)
    requires Inv(total, s) && Can(s, a) && s.parent == Waiting && s.enter == 0
    ensures Do(s, a).parent == Waiting
    ensures a.C? ==> Distance(Do(s, a)) < Distance(s)
    ensures !a.C? ==> Distance(Do(s, a)) == Distance(s)
    ensures Distance(Do(s, a)) == 0 <==> Can(Do(s, a), P(Entered))
  {}

  function ChildSteps(run: seq<Step>): nat {
    if run == [] then 0 else (if run[0].C? then 1 else 0) + ChildSteps(run[1..])
  }

  /** Some state that the run can reach has the parent's semaphore up. */
  ghost predicate WaitOver(s: State, run: seq<Step>) {
    exists m :: ValidRun(s, run, m) && m.parent == Waiting && m.enter == 1
  }

  lemma DistanceBound(total: int, s: State)
    requires Inv(total, s) && s.parent == Waiting && s.enter == 0
    ensures 1 <= Distance(s) <= 5
  {}

  lemma {:induction false} WaitBoundedBy(total: int, s: State, run: seq<Step>, t: State)
    requires Inv(total, s) && s.parent == Waiting && s.enter == 0 && ValidRun(s, run, t)
    requires Distance(s) <= ChildSteps(run)
    ensures exists k :: 0 < k <= |run| && ChildSteps(run[..k]) <= Distance(s) && WaitOver(s, run[..k])
    decreases run
  {
    var s' := Do(s, run[0]);
    StepInv(total, s, run[0]);
    WaitingEnds(total, s, run[0]);
    if Distance(s') == 0 {
      assert ValidRun(s', [], s');
      assert run[..1] == [run[0]] && run[..1][1..] == [];
      assert ValidRun(s, run[..1], s');
      assert ChildSteps(run[..1][1..]) == 0;
    } else {
      WaitBoundedBy(total, s', run[1..], t);
      var k :| 0 < k <= |run[1..]| && ChildSteps(run[1..][..k]) <= Distance(s') && WaitOver(s', run[1..][..k]);
      var m :| ValidRun(s', run[1..][..k], m) && m.parent == Waiting && m.enter == 1;
      assert run[..k + 1][1..] == run[1..][..k];
      assert ValidRun(s, run[..k + 1], m);
    }
  }

  /** So a wait for enter_wait is over with the child's fifth step, whatever else happens meanwhile. */
  lemma WaitBounded(total: int, s: State, run: seq<Step>, t: State)
    requires Inv(total, s) && s.parent == Waiting && s.enter == 0 && ValidRun(s, run, t)
    requires 5 <= ChildSteps(run)
    ensures exists k :: 0 < k <= |run| && ChildSteps(run[..k]) <= 5 && WaitOver(s, run[..k])
  {
    DistanceBound(total, s);
    WaitBoundedBy(total, s, run, t);
  }

  /** DoWork leaves on the interrupt packet before it calls TokenIsAvailable. */
  function Interrupted(s: State): State { s.(parent := Idle) }

  /** Why the runs exclude that: exactly then a further DoWork would block on a child that cannot move. */
  lemma InterruptedRoundBlocks(total: int, s: State)
    requires Inv(total, s) && s.parent == Queue
    ensures var t := Do(Interrupted(s), P(Begin));
            (forall c :: !ChildCan(t, c)) <==> s.child == Listening && s.apcs == 0 && s.jobs == 0
  {
    var t := Do(Interrupted(s), P(Begin));
    var c := match t.child
      case Blocked => Restart
      case Posting => Post
      case Holding => GiveBack
      case _ => if 0 < t.apcs then Alerted else TakeToken;
    assert ChildCan(t, c) <==> !(s.child == Listening && s.apcs == 0 && s.jobs == 0);
  }

  // ---- What a stale call costs -----------------------------------------------------------------------

  /** Nobody will tell the parent about a token: it sleeps in the queue and the child waits to be restarted. */
  predicate Deaf(s: State) {
    s.parent == Queue && s.child == Blocked && s.restart == 0 && s.packets == 0
  }

  /** Only an event of a subprocess ends that. */
  lemma DeafStays(s: State, a: Step)
    requires Deaf(s) && Can(s, a) && a != P(GetEvent)
    ensures Deaf(Do(s, a))
  {}

  /** A round that starts with no call pending is never deaf: the child listens or has posted a packet. */
  lemma {:induction false} FreshRoundListens(s: State, run: seq<Step>, t: State)
    requires s.child in {Listening, Holding, Posting} && s.apcs == 0 && ValidRun(s, run, t)
    requires P(Alert) !in run && C(Post) !in run
    ensures t.child in {Listening, Holding, Posting} && t.apcs == 0
    decreases run
  {
    if run != [] {
      FreshRoundListens(Do(s, run[0]), run[1..], t);
    }
  }

  lemma Prefixed(s: State, a: Step, m: State, run: seq<Step>, t: State)
    requires Can(s, a) && Do(s, a) == m && ValidRun(m, run, t)
    ensures ValidRun(s, [a] + run, t)
  {
    assert ([a] + run)[1..] == run;
  }

  lemma RunCons(s: State, a: Step, m: State, run: seq<Step>, t: State) returns (longer: seq<Step>)
    requires Can(s, a) && Do(s, a) == m && ValidRun(m, run, t)
    ensures ValidRun(s, longer, t)
  {
    Prefixed(s, a, m, run, t);
    longer := [a] + run;
  }

  /** No step of the parent. */
  predicate Asleep(run: seq<Step>) { forall k :: 0 <= k < |run| ==> !run[k].P? }

  /** While the parent sleeps in the queue the child can stop listening without having posted. */
  ghost predicate CanGoDeaf(s: State) {
    exists run, t :: ValidRun(s, run, t) && Asleep(run) && Deaf(t)
  }

  lemma {:induction false} FreshStaysAwake(s: State, run: seq<Step>, t: State)
    requires s.apcs == 0 && s.restart == 0 && (s.child in {Listening, Holding, Posting} || 0 < s.packets)
    requires s.child in {Listening, Holding, Posting, Blocked} && ValidRun(s, run, t) && Asleep(run)
    ensures !Deaf(t)
    decreases |run|
  {
    if run != [] {
      assert !run[0].P?;
      assert Asleep(run[1..]);
      FreshStaysAwake(Do(s, run[0]), run[1..], t);
    }
  }

  /** A listening child can go deaf exactly if a stale call is pending when the parent goes to sleep. */
  lemma DeafnessExact(s: State)
    requires s.parent == Queue && s.child == Listening && s.restart == 0 && s.packets == 0
    ensures CanGoDeaf(s) <==> 0 < s.apcs
  {
    if s.apcs == 0 {
      forall run, t | ValidRun(s, run, t) && Asleep(run) ensures !Deaf(t) {
        FreshStaysAwake(s, run, t);
      }
    } else {
      var t := Do(s, C(Alerted));
      assert ValidRun(t, [], t) && [C(Alerted)][1..] == [];
      assert ValidRun(s, [C(Alerted)], t) && Asleep([C(Alerted)]) && Deaf(t);
    }
  }

  /** The parent has begun a round and takes nothing out of the queue. */
  predicate WithinRound(run: seq<Step>) { forall k :: 0 <= k < |run| ==> run[k].P? ==> run[k] == P(Entered) }

  /** In the round that has begun the child can stop listening without having posted. */
  ghost predicate RoundCanGoDeaf(s: State) {
    exists run, t :: ValidRun(s, run, t) && WithinRound(run) && Deaf(t)
  }

  /** A packet is out or on its way, or the child will listen once more with no call pending. */
  predicate StaysAwake(s: State) {
    || 0 < s.packets
    || s.child in {Holding, Posting}
    || (s.child == Listening && s.restart == 1)
    || (s.apcs == 0 && (s.child in {Top, Listening} || (s.child == Blocked && s.restart == 1)))
  }

  lemma {:induction false} AwakeRound(s: State, run: seq<Step>, t: State)
    requires StaysAwake(s) && ValidRun(s, run, t) && WithinRound(run)
    ensures !Deaf(t)
    decreases |run|
  {
    if run != [] {
      assert run[0].P? ==> run[0] == P(Entered);
      assert forall k :: 0 <= k < |run[1..]| ==> run[1..][k] == run[k + 1];
      AwakeRound(Do(s, run[0]), run[1..], t);
    }
  }

  lemma DeafRound(s: State) returns (run: seq<Step>, t: State)
    requires s.parent == Waiting && s.enter == 0 && 0 < s.apcs && s.packets == 0
    requires (s.child == Top && s.restart == 0) || (s.child == Blocked && s.restart == 1)
    ensures ValidRun(s, run, t) && WithinRound(run) && Deaf(t)
  {
    var s1 := s.(child := Top, restart := 0);
    var s2 := Do(s1, C(Announce));
    var s3 := Do(s2, P(Entered));
    t := Do(s3, C(Alerted));
    Prefixed(s3, C(Alerted), t, [], t);
    Prefixed(s2, P(Entered), s3, [C(Alerted)] + [], t);
    Prefixed(s1, C(Announce), s2, [P(Entered)] + ([C(Alerted)] + []), t);
    run := [C(Announce)] + ([P(Entered)] + ([C(Alerted)] + []));
    if s.child == Blocked {
      Prefixed(s, C(Restart), s1, run, t);
      run := [C(Restart)] + run;
    }
  }

  /**
   For a whole round: it can leave the child deaf exactly if at its start a call is pending, no packet is, and
   the child is at the top of its loop or blocked until it is let go.
   */
  lemma RoundDeafness(total: int, s: State)
    requires Inv(total, s) && s.parent == Waiting && s.enter == 0
    ensures RoundCanGoDeaf(s) <==> 0 < s.apcs && s.packets == 0 && s.child in {Top, Blocked}
  {
    if StaysAwake(s) {
      forall run, t | ValidRun(s, run, t) && WithinRound(run) ensures !Deaf(t) {
        AwakeRound(s, run, t);
      }
    } else {
      var run, t := DeafRound(s);
    }
  }

  /** The first round reports the one free token and leaves a call behind. */
  lemma ReportedRound(s: State) returns (run: seq<Step>)
    requires s == Start(1, 1)
    ensures ValidRun(s, run, s.(child := Blocked, apcs := 1))
  {
    var s1 := s.(parent := Waiting, child := Top);
    var s2 := s.(parent := Waiting, child := Listening, enter := 1);
    var s3 := s.(parent := Queue, child := Listening);
    var s4 := s.(parent := Queue, child := Holding, jobs := 0);
    var s5 := s.(parent := Queue, child := Posting);
    var s6 := s.(parent := Queue, child := Blocked, packets := 1);
    var s7 := s.(parent := Got, child := Blocked);
    var t := s.(child := Blocked, apcs := 1);
    run := [];
    run := RunCons(s7, P(Alert), t, run, t);
    run := RunCons(s6, P(GetToken), s7, run, t);
    run := RunCons(s5, C(Post), s6, run, t);
    run := RunCons(s4, C(GiveBack), s5, run, t);
    run := RunCons(s3, C(TakeToken), s4, run, t);
    run := RunCons(s2, P(Entered), s3, run, t);
    run := RunCons(s1, C(Announce), s2, run, t);
    run := RunCons(s, P(Begin), s1, run, t);
  }

  /** In the next one that call wakes the child at once, and another client's token comes too late. */
  lemma DeafenedRound(m: State) returns (run: seq<Step>)
    requires m == Start(1, 1).(child := Blocked, apcs := 1)
    ensures ValidRun(m, run, m.(parent := Queue, apcs := 0, pool := 1, others := 0))
  {
    var m1 := m.(jobs := 0, pool := 1);
    var m2 := m1.(parent := Waiting, restart := 1);
    var m3 := m1.(parent := Waiting, child := Top);
    var m4 := m1.(parent := Waiting, child := Listening, enter := 1);
    var m5 := m1.(parent := Queue, child := Listening);
    var m6 := m1.(parent := Queue, child := Blocked, apcs := 0);
    var t := m.(parent := Queue, apcs := 0, pool := 1, others := 0);
    run := [];
    run := RunCons(m6, O(OtherGives), t, run, t);
    run := RunCons(m5, C(Alerted), m6, run, t);
    run := RunCons(m4, P(Entered), m5, run, t);
    run := RunCons(m3, C(Announce), m4, run, t);
    run := RunCons(m2, C(Restart), m3, run, t);
    run := RunCons(m1, P(Begin), m2, run, t);
    run := RunCons(m, P(Acquire), m1, run, t);
  }

  /**
   The call that TokenIsAvailable queues after the child's own packet is stale: the child sleeps through the
   next round, and a token given back meanwhile goes unnoticed.
   */
  lemma StaleCallDeafens() returns (run: seq<Step>, t: State)
    ensures ValidRun(Start(1, 1), run, t) && Deaf(t) && 0 < t.jobs && t.events == 0
  {
    var s := Start(1, 1);
    var m := s.(child := Blocked, apcs := 1);
    t := m.(parent := Queue, apcs := 0, pool := 1, others := 0);
    var first := ReportedRound(s);
    var second := DeafenedRound(m);
    RunConcat(s, first, m, second, t);
    run := first + second;
  }

  // ---- DoWork without a token pool -------------------------------------------------------------------

  function Posts(run: seq<Step>): nat {
    if run == [] then 0 else (if run[0] == C(Post) then 1 else 0) + Posts(run[1..])
  }

  function Fetches(run: seq<Step>): nat {
    if run == [] then 0 else (if run[0] == P(GetToken) || run[0] == P(PlainPacket) then 1 else 0) + Fetches(run[1..])
  }

  lemma {:induction false} PacketsCounted(s: State, run: seq<Step>, t: State)
    requires ValidRun(s, run, t)
    ensures t.packets == s.packets + Posts(run) - Fetches(run)
    decreases |run|
  {
    if run != [] {
      PacketsCounted(Do(s, run[0]), run[1..], t);
    }
  }

  /**
   Such a call can take the child's packet for a subprocess exactly if the child has posted more packets than
   the parent has fetched: a round left on an event while its packet was still to come.
   */
  lemma PlainPacketExact(tokens: nat, others: nat, run: seq<Step>, t: State)
    requires ValidRun(Start(tokens, others), run, t) && t.parent == Idle
    ensures ParentCan(t, PlainPacket) <==> Fetches(run) < Posts(run)
  {
    PacketsCounted(Start(tokens, others), run, t);
  }

  /** And that happens: an event comes first, and the child's packet waits when the round is over. */
  lemma PacketLeftBehind() returns (run: seq<Step>, t: State)
    ensures ValidRun(Start(1, 0), run, t) && ParentCan(t, PlainPacket)
  {
    var s := Start(1, 0);
    var m := s.(parent := Queue, child := Posting);
    var first := TakenAndGivenBack(s);
    t := s.(child := Blocked, packets := 1, apcs := 1);
    var second := EventOvertakesPacket(m);
    RunConcat(s, first, m, second, t);
    run := first + second;
  }

  lemma TakenAndGivenBack(s: State) returns (run: seq<Step>)
    requires s == Start(1, 0)
    ensures ValidRun(s, run, s.(parent := Queue, child := Posting))
  {
    var s1 := s.(parent := Waiting, child := Top);
    var s2 := s.(parent := Waiting, child := Listening, enter := 1);
    var s3 := s.(parent := Queue, child := Listening);
    var s4 := s.(parent := Queue, child := Holding, jobs := 0);
    var t := s.(parent := Queue, child := Posting);
    run := [];
    run := RunCons(s4, C(GiveBack), t, run, t);
    run := RunCons(s3, C(TakeToken), s4, run, t);
    run := RunCons(s2, P(Entered), s3, run, t);
    run := RunCons(s1, C(Announce), s2, run, t);
    run := RunCons(s, P(Begin), s1, run, t);
  }

  lemma EventOvertakesPacket(s: State) returns (run: seq<Step>)
    requires s == Start(1, 0).(parent := Queue, child := Posting)
    ensures ValidRun(s, run, s.(parent := Idle, child := Blocked, packets := 1, apcs := 1))
  {
    var s1 := s.(child := Blocked, packets := 1);
    var s2 := s1.(events := 1);
    var s3 := s1.(parent := Got);
    var t := s.(parent := Idle, child := Blocked, packets := 1, apcs := 1);
    run := [];
    run := RunCons(s3, P(Alert), t, run, t);
    run := RunCons(s2, P(GetEvent), s3, run, t);
    run := RunCons(s1, O(Event), s2, run, t);
    run := RunCons(s, C(Post), s1, run, t);
  }
}
