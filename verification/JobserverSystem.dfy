/** Any number of token pools on one pipe: conservation and the bound on running jobs, over all runs. */
module JobserverSystem {
  import opened JobserverPool
  import opened Words

  /** One client, with everything it has read from and written to the pipe so far. */
  datatype Client = Client(pool: Pool, taken: multiset<char>, given: multiset<char>)

  datatype System = System(pipe: multiset<char>, clients: seq<Client>)

  datatype Action =
    | AcquireOp(i: nat, ready: Option<char>)
    | ReserveOp(i: nat)
    | ReleaseOp(i: nat, ok: bool)
    | ReturnOp(i: nat, ok: bool)    // the second loop of Clear

  predicate Enabled(s: System, a: Action) {
    && a.i < |s.clients|
    && var p := s.clients[a.i].pool;
       match a
       case AcquireOp(_, ready) => ready.Some? ==> p.available <= 0 && ready.value in s.pipe
       case ReserveOp(_) => true
       case ReleaseOp(_, _) => Balanced(p) && 0 < p.used
       case ReturnOp(_, _) => p.available > 1 && p.tokens != []
  }

  /** The character that a step writes back, if it writes one. */
  function Written(p: Pool, q: Pool): multiset<char> {
    if |q.tokens| < |p.tokens| then multiset{p.tokens[|p.tokens| - 1]} else multiset{}
  }

  function AfterOp(p: Pool, a: Action): Pool
    requires a.ReleaseOp? ==> Balanced(p) && 0 < p.used
    requires a.ReturnOp? ==> p.tokens != []
  {
    match a
    case AcquireOp(_, ready) => Acquired(p, ready).0
    case ReserveOp(_) => Reserved(p)
    case ReleaseOp(_, ok) => Released(p, ok)
    case ReturnOp(_, ok) => Returned(p, ok)
  }

  function Apply(s: System, a: Action): System
    requires Enabled(s, a)
  {
    var c := s.clients[a.i];
    var q := AfterOp(c.pool, a);
    var read, wrote := Read(a), Written(c.pool, q);
    System(s.pipe - read + wrote, s.clients[a.i := Client(q, c.taken + read, c.given + wrote)])
  }

  ghost predicate ValidRun(s: System, run: seq<Action>, t: System)
    decreases run
  {
    if run == [] then t == s else Enabled(s, run[0]) && ValidRun(Apply(s, run[0]), run[1..], t)
  }

  function Held(cs: seq<Client>): multiset<char> {
    if cs == [] then multiset{} else multiset(cs[0].pool.tokens) + Held(cs[1..])
  }

  function TotalUsed(cs: seq<Client>): int {
    if cs == [] then 0 else cs[0].pool.used + TotalUsed(cs[1..])
  }

  function TotalAvailable(cs: seq<Client>): int {
    if cs == [] then 0 else cs[0].pool.available + TotalAvailable(cs[1..])
  }

  predicate Start(s: System) {
    forall i :: 0 <= i < |s.clients| ==> s.clients[i] == Client(NEW_POOL, multiset{}, multiset{})
  }

  predicate Sound(c: Client) {
    Balanced(c.pool) && c.taken == c.given + multiset(c.pool.tokens)
  }

  ghost predicate Inv(initial: multiset<char>, s: System) {
    && (forall i :: 0 <= i < |s.clients| ==> Sound(s.clients[i]))
    && s.pipe + Held(s.clients) == initial
  }

  lemma {:induction false} HeldUpdate(cs: seq<Client>, i: nat, c: Client)
    requires i < |cs|
    ensures Held(cs[i := c]) + multiset(cs[i].pool.tokens) == Held(cs) + multiset(c.pool.tokens)
    decreases cs
  {
    var cs' := cs[i := c];
    if i == 0 {
      assert cs'[1..] == cs[1..];
    } else {
      HeldUpdate(cs[1..], i - 1, c);
      assert cs'[1..] == cs[1..][i - 1 := c];
      var first, before, after := multiset(cs[0].pool.tokens), multiset(cs[i].pool.tokens), multiset(c.pool.tokens);
      assert Held(cs') + before == first + (Held(cs'[1..]) + before);
      assert Held(cs) + after == first + (Held(cs[1..]) + after);
    }
  }

  lemma TopSplit(tokens: seq<char>)
    requires tokens != []
    ensures multiset(tokens) == multiset(tokens[..|tokens| - 1]) + multiset{tokens[|tokens| - 1]}
  {
    assert tokens == tokens[..|tokens| - 1] + [tokens[|tokens| - 1]];
  }

  /** An operation keeps the stack, or writes its top character back. */
  lemma WrittenBack(p: Pool, q: Pool)
    requires q.tokens == p.tokens || (p.tokens != [] && q.tokens == p.tokens[..|p.tokens| - 1])
    ensures multiset(q.tokens) + Written(p, q) == multiset(p.tokens)
  {
    if q.tokens != p.tokens {
      TopSplit(p.tokens);
    }
  }

  lemma ReadIn(p: Pool, ch: char)
    requires Balanced(p) && p.available <= 0
    ensures var q := Acquired(p, Some(ch)).0;
            Balanced(q) && Written(p, q) == multiset{} && multiset(q.tokens) == multiset(p.tokens) + multiset{ch}
  {}

  function Read(a: Action): multiset<char> {
    if a.AcquireOp? && a.ready.Some? then multiset{a.ready.value} else multiset{}
  }

  lemma OpMovesCharacters(p: Pool, a: Action)
    requires Balanced(p)
    requires a.AcquireOp? && a.ready.Some? ==> p.available <= 0
    requires a.ReleaseOp? ==> 0 < p.used
    requires a.ReturnOp? ==> p.available > 1 && p.tokens != []
    ensures var q := AfterOp(p, a);
            Balanced(q) && multiset(q.tokens) + Written(p, q) == multiset(p.tokens) + Read(a)
  {
    if a.AcquireOp? && a.ready.Some? {
      ReadIn(p, a.ready.value);
    } else {
      WrittenBack(p, AfterOp(p, a));
    }
  }

  /** What leaves the pipe enters a stack and the other way round, so the sum stays. */
  lemma Flow(pipe: multiset<char>, read: multiset<char>, wrote: multiset<char>,
             before: multiset<char>, after: multiset<char>, held: multiset<char>, held': multiset<char>)
    requires read <= pipe && after + wrote == before + read && held' + before == held + after
    ensures pipe - read + wrote + held' == pipe + held
  {
    forall ch: char ensures (pipe - read + wrote + held')[ch] == (pipe + held)[ch] {
      assert (after + wrote)[ch] == (before + read)[ch];
      assert (held' + before)[ch] == (held + after)[ch];
    }
  }

  /** The same for one client: what it took and what it gave differ by what it holds. */
  lemma Ledger(taken: multiset<char>, given: multiset<char>, read: multiset<char>, wrote: multiset<char>,
               before: multiset<char>, after: multiset<char>)
    requires taken == given + before && after + wrote == before + read
    ensures taken + read == (given + wrote) + after
  {
    forall ch: char ensures (taken + read)[ch] == ((given + wrote) + after)[ch] {
      assert (after + wrote)[ch] == (before + read)[ch];
      assert taken[ch] == (given + before)[ch];
    }
  }

  /** One step replaces one client by a sound one and moves its characters through the pipe. */
  lemma StepMoves(s: System, a: Action) returns (read: multiset<char>, wrote: multiset<char>, d: Client)
    requires a.i < |s.clients| && Sound(s.clients[a.i]) && Enabled(s, a)
    ensures Apply(s, a) == System(s.pipe - read + wrote, s.clients[a.i := d])
    ensures Sound(d) && read <= s.pipe && d.pool == AfterOp(s.clients[a.i].pool, a)
    ensures multiset(d.pool.tokens) + wrote == multiset(s.clients[a.i].pool.tokens) + read
  {
    var c := s.clients[a.i];
    var q := AfterOp(c.pool, a);
    read, wrote := Read(a), Written(c.pool, q);
    d := Client(q, c.taken + read, c.given + wrote);
    OpMovesCharacters(c.pool, a);
    Ledger(c.taken, c.given, read, wrote, multiset(c.pool.tokens), multiset(q.tokens));
  }

  lemma StepInv(initial: multiset<char>, s: System, a: Action)
    requires Inv(initial, s) && Enabled(s, a)
    ensures Inv(initial, Apply(s, a))
  {
    var read, wrote, d := StepMoves(s, a);
    HeldUpdate(s.clients, a.i, d);
    Flow(s.pipe, read, wrote, multiset(s.clients[a.i].pool.tokens), multiset(d.pool.tokens),
         Held(s.clients), Held(s.clients[a.i := d]));
  }

  lemma {:induction false} RunInv(initial: multiset<char>, s: System, run: seq<Action>, t: System)
    requires Inv(initial, s) && ValidRun(s, run, t)
    ensures Inv(initial, t) && |t.clients| == |s.clients|
    decreases run
  {
    if run != [] {
      StepInv(initial, s, run[0]);
      RunInv(initial, Apply(s, run[0]), run[1..], t);
    }
  }

  lemma {:induction false} StartHeld(cs: seq<Client>)
    requires forall i :: 0 <= i < |cs| ==> cs[i].pool.tokens == []
    ensures Held(cs) == multiset{}
    decreases cs
  {
    if cs != [] {
      assert cs[0].pool.tokens == [];
      StartHeld(cs[1..]);
    }
  }

  /**
   Conservation: whatever the clients do, the pipe and the stacks together hold the initial characters,
   every client can account for each character it read, and available + used = 1 + stack height.
   */
  lemma TokensConserved(s: System, run: seq<Action>, t: System)
    requires Start(s) && ValidRun(s, run, t)
    ensures t.pipe + Held(t.clients) == s.pipe
    ensures |t.clients| == |s.clients|
    ensures forall i :: 0 <= i < |t.clients| ==>
              Balanced(t.clients[i].pool) &&
              t.clients[i].taken == t.clients[i].given + multiset(t.clients[i].pool.tokens)
  {
    StartHeld(s.clients);
    RunInv(s.pipe, s, run, t);
  }

  lemma {:induction false} Totals(cs: seq<Client>)
    requires forall i :: 0 <= i < |cs| ==> Sound(cs[i])
    ensures TotalAvailable(cs) + TotalUsed(cs) == |cs| + |Held(cs)|
    decreases cs
  {
    if cs != [] {
      assert Sound(cs[0]);
      Totals(cs[1..]);
    }
  }

  /** The number of jobs follows from where the tokens are, in every run, progress rule included. */
  lemma JobsAccounted(s: System, run: seq<Action>, t: System)
    requires Start(s) && ValidRun(s, run, t)
    ensures TotalUsed(t.clients) == |s.clients| + |s.pipe| - |t.pipe| - TotalAvailable(t.clients)
  {
    StartHeld(s.clients);
    RunInv(s.pipe, s, run, t);
    Totals(t.clients);
    assert |t.pipe + Held(t.clients)| == |t.pipe| + |Held(t.clients)|;
  }

  /** A job starts only after a successful Acquire. */
  predicate Disciplined(s: System, a: Action)
    requires Enabled(s, a)
  {
    a.ReserveOp? ==> 0 < s.clients[a.i].pool.available
  }

  ghost predicate DisciplinedRun(s: System, run: seq<Action>)
    decreases run
  {
    run == [] || (Enabled(s, run[0]) && Disciplined(s, run[0]) && DisciplinedRun(Apply(s, run[0]), run[1..]))
  }

  /** Every write to the pipe succeeds. */
  predicate WritesSucceed(run: seq<Action>) {
    forall k :: 0 <= k < |run| ==> (run[k].ReleaseOp? || run[k].ReturnOp? ==> run[k].ok)
  }

  predicate Range(s: System, top: int) {
    forall i :: 0 <= i < |s.clients| ==> 0 <= s.clients[i].pool.available <= top
  }

  ghost predicate AllSound(s: System) {
    forall i :: 0 <= i < |s.clients| ==> Sound(s.clients[i])
  }

  predicate Covered(s: System) {
    forall i :: 0 <= i < |s.clients| ==> 0 <= s.clients[i].pool.available
  }

  lemma StepCovered(s: System, a: Action)
    requires Covered(s) && AllSound(s) && Enabled(s, a) && Disciplined(s, a)
    ensures Covered(Apply(s, a)) && AllSound(Apply(s, a))
  {
    var _, _, d := StepMoves(s, a);
    OpInRange(s.clients[a.i].pool, a);
  }

  /** A disciplined operation leaves no pool overdrawn, and with a working write none hoards. */
  lemma OpInRange(p: Pool, a: Action)
    requires Balanced(p) && 0 <= p.available
    requires a.ReserveOp? ==> 0 < p.available
    requires a.AcquireOp? && a.ready.Some? ==> p.available <= 0
    requires a.ReleaseOp? ==> 0 < p.used
    requires a.ReturnOp? ==> p.available > 1 && p.tokens != []
    ensures 0 <= AfterOp(p, a).available
    ensures p.available <= 1 && (a.ReleaseOp? || a.ReturnOp? ==> a.ok) ==> AfterOp(p, a).available <= 1
  {}

  lemma StepInRange(s: System, a: Action)
    requires Range(s, 1) && AllSound(s) && Enabled(s, a) && Disciplined(s, a)
    requires a.ReleaseOp? || a.ReturnOp? ==> a.ok
    ensures Range(Apply(s, a), 1) && AllSound(Apply(s, a))
  {
    var _, _, d := StepMoves(s, a);
    OpInRange(s.clients[a.i].pool, a);
  }

  lemma {:induction false} NeverOverdrawn(s: System, run: seq<Action>, t: System)
    requires Covered(s) && AllSound(s) && ValidRun(s, run, t) && DisciplinedRun(s, run)
    ensures Covered(t)
    decreases run
  {
    if run != [] {
      StepCovered(s, run[0]);
      NeverOverdrawn(Apply(s, run[0]), run[1..], t);
    }
  }

  lemma {:induction false} AvailableNonNegative(cs: seq<Client>)
    requires forall i :: 0 <= i < |cs| ==> 0 <= cs[i].pool.available
    ensures 0 <= TotalAvailable(cs)
    decreases cs
  {
    if cs != [] {
      assert 0 <= cs[0].pool.available;
      AvailableNonNegative(cs[1..]);
    }
  }

  /** With that discipline there are never more jobs than pools and initial tokens, failed writes or not. */
  lemma JobsBounded(s: System, run: seq<Action>, t: System)
    requires Start(s) && ValidRun(s, run, t) && DisciplinedRun(s, run)
    ensures TotalUsed(t.clients) <= |s.clients| + |s.pipe|
  {
    NeverOverdrawn(s, run, t);
    AvailableNonNegative(t.clients);
    JobsAccounted(s, run, t);
  }

  /** With that discipline and working writes a pool never keeps more than one token in reserve. */
  lemma {:induction false} AtMostOneInReserve(s: System, run: seq<Action>, t: System)
    requires Range(s, 1) && AllSound(s) && ValidRun(s, run, t) && DisciplinedRun(s, run) && WritesSucceed(run)
    ensures Range(t, 1)
    decreases run
  {
    if run != [] {
      StepInRange(s, run[0]);
      assert WritesSucceed(run[1..]);
      AtMostOneInReserve(Apply(s, run[0]), run[1..], t);
    }
  }

  /** One failed write is enough to break that: the pool then sits on a token nobody uses. */
  lemma FailedWriteHoards(p: Pool)
    requires Balanced(p) && p.available == 1 && 0 < p.used
    ensures Released(p, false).available == 2 && Released(p, true).available == 1
  {}
}
