/**
 The GNU make jobserver client of ninja on POSIX: a token pool that takes one-character tokens out of a
 shared pipe and puts the same characters back.
 */
module JobserverPool {
  import opened Words

  /** The pipe all jobserver clients share; the order of its characters plays no role. */
  class Pipe {
    var bytes: multiset<char>

    constructor (initial: multiset<char>)
      ensures bytes == initial
    {
      bytes := initial;
    }
  }

  /** What one write() of a token returns: a positive count, -1 with EINTR, or any other failure. */
  datatype WriteResult = Wrote | Interrupted | Broken

  /** A pool as a value: the two counters and the stack of characters read from the pipe, top last. */
  datatype Pool = Pool(available: int, used: int, tokens: seq<char>)

  /** Every pool owns one implicit token that never was a character. */
  const NEW_POOL := Pool(1, 0, [])

  predicate Balanced(p: Pool) {
    p.available + p.used == 1 + |p.tokens| && 0 <= p.used
  }

  // ---- The operations on values ----------------------------------------------------------------

  function Acquired(p: Pool, ready: Option<char>): (Pool, bool) {
    if p.available > 0 then (p, true)
    else if ready.Some? then (p.(available := p.available + 1, tokens := p.tokens + [ready.value]), true)
    else (p, false)
  }

  function Reserved(p: Pool): Pool { p.(available := p.available - 1, used := p.used + 1) }

  function Returned(p: Pool, ok: bool): Pool
    requires p.tokens != []
  {
    if ok then p.(available := p.available - 1, tokens := p.tokens[..|p.tokens| - 1]) else p
  }

  function Released(p: Pool, ok: bool): Pool
    requires Balanced(p) && 0 < p.used
  {
    var q := p.(available := p.available + 1, used := p.used - 1);
    if q.available > 1 then Returned(q, ok) else q
  }

  /** A pool with no job running can always start one: its implicit token is available. */
  lemma IdlePoolNeverBlocks(p: Pool, ready: Option<char>)
    requires Balanced(p) && p.used == 0
    ensures Acquired(p, ready) == (p, true)
  {}

  /** A release changes nothing but the counters, unless it gives the top character back. */
  lemma ReleaseGivesTop(p: Pool, ok: bool)
    requires Balanced(p) && 0 < p.used
    ensures var q := Released(p, ok);
            && Balanced(q) && q.used == p.used - 1
            && q.tokens == (if p.available >= 1 && ok then p.tokens[..|p.tokens| - 1] else p.tokens)
  {}

  // ---- Clear, one write at a time --------------------------------------------------------------

  function Count(b: bool): nat { if b then 1 else 0 }

  function Successes(ok: seq<bool>): nat {
    if ok == [] then 0 else Count(ok[0]) + Successes(ok[1..])
  }

  /** The releases that Clear makes before its next write, because they need none. */
  function Quiet(p: Pool): (q: Pool)
    requires Balanced(p)
    ensures Balanced(q) && q.tokens == p.tokens
    ensures q.used > 0 ==> q.available > 0
    decreases p.used
  {
    if p.used > 0 && p.available < 1 then Quiet(Released(p, true)) else p
  }

  /** Clear is through with both of its loops. */
  predicate Ended(p: Pool) { p.used == 0 && p.available <= 1 }

  /** How far Clear has come when its writes so far have succeeded or failed as listed. */
  function Clearing(p: Pool, ok: seq<bool>): (q: Pool)
    requires Balanced(p)
    ensures Balanced(q)
    decreases |ok|
  {
    var q := Quiet(p);
    if ok == [] || Ended(q) then q
    else Clearing(if q.used > 0 then Released(q, ok[0]) else Returned(q, ok[0]), ok[1..])
  }

  /**
   Clear ends exactly when as many of its writes have succeeded as the pool holds characters, however many
   fail in between, and it then leaves a new pool.
   */
  lemma {:induction false} ClearExact(p: Pool, ok: seq<bool>)
    requires Balanced(p)
    ensures Ended(Clearing(p, ok)) <==> |p.tokens| <= Successes(ok)
    ensures Ended(Clearing(p, ok)) ==> Clearing(p, ok) == NEW_POOL
    decreases |ok|
  {
    var q := Quiet(p);
    if ok != [] && !Ended(q) {
      ClearExact(if q.used > 0 then Released(q, ok[0]) else Returned(q, ok[0]), ok[1..]);
    }
  }

  // ---- The class ---------------------------------------------------------------------------------

  class TokenPool {
    const pipe: Pipe
    var available: int
    var used: int
    var tokens: seq<char>

    function Value(): Pool
      reads this
    {
      Pool(available, used, tokens)
    }

    constructor (shared: Pipe)
      ensures pipe == shared && Value() == NEW_POOL
    {
      pipe := shared;
      available, used, tokens := 1, 0, [];
    }

    /** AcquireToken: `ready` is the character a read would return, if it returns one in time. */
    method AcquireToken(ready: Option<char>) returns (ok: bool)
      requires ready.Some? ==> ready.value in pipe.bytes
      modifies this`tokens, pipe
      ensures ok == ready.Some?
      ensures tokens == if ok then old(tokens) + [ready.value] else old(tokens)
      ensures pipe.bytes + multiset(tokens) == old(pipe.bytes + multiset(tokens))
    {
      if ready.None? {
        return false;
      }
      pipe.bytes := pipe.bytes - multiset{ready.value};
      tokens := tokens + [ready.value];
      return true;
    }

    method Acquire(ready: Option<char>) returns (ok: bool)
      requires ready.Some? ==> ready.value in pipe.bytes
      modifies this`available, this`tokens, pipe
      ensures (Value(), ok) == Acquired(old(Value()), ready)
      ensures pipe.bytes + multiset(tokens) == old(pipe.bytes + multiset(tokens))
    {
      if available > 0 {
        return true;
      }
      ok := AcquireToken(ready);
      if ok {
        available := available + 1;
      }
    }

    method Reserve()
      modifies this`available, this`used
      ensures Value() == Reserved(old(Value()))
    {
      available := available - 1;
      used := used + 1;
    }

    /** ReturnToken: the write is interrupted `interrupts` times before it comes back with `last`. */
    method ReturnToken(interrupts: nat, last: WriteResult) returns (ok: bool)
      requires tokens != [] && last != Interrupted
      modifies this`tokens, pipe
      ensures ok == last.Wrote?
      ensures tokens == if ok then old(tokens[..|tokens| - 1]) else old(tokens)
      ensures pipe.bytes + multiset(tokens) == old(pipe.bytes + multiset(tokens))
    {
      var buf := tokens[|tokens| - 1];
      var n := interrupts;
      while true
        invariant tokens == old(tokens) && pipe.bytes == old(pipe.bytes)
        decreases n
      {
        var result := if n > 0 then Interrupted else last;
        if result.Wrote? {
          assert tokens == tokens[..|tokens| - 1] + [buf];
          pipe.bytes := pipe.bytes + multiset{buf};
          tokens := tokens[..|tokens| - 1];
          return true;
        }
        if !result.Interrupted? {
          return false;
        }
        n := n - 1;
      }
    }

    method Return(interrupts: nat, last: WriteResult)
      requires tokens != [] && last != Interrupted
      modifies this`available, this`tokens, pipe
      ensures Value() == Returned(old(Value()), last.Wrote?)
      ensures pipe.bytes + multiset(tokens) == old(pipe.bytes + multiset(tokens))
    {
      var ok := ReturnToken(interrupts, last);
      if ok {
        available := available - 1;
      }
    }

    method Release(interrupts: nat, last: WriteResult)
      requires Balanced(Value()) && 0 < used && last != Interrupted
      modifies this`available, this`used, this`tokens, pipe
      ensures Value() == Released(old(Value()), last.Wrote?)
      ensures pipe.bytes + multiset(tokens) == old(pipe.bytes + multiset(tokens))
    {
      available := available + 1;
      used := used - 1;
      if available > 1 {
        Return(interrupts, last);
      }
    }

    /**
     Clear: `ok` says of each write whether it succeeds, after some interrupts.  If enough of them do, the loops
     end, the implicit token is kept, and exactly the characters this pool holds are back in the pipe.
     */
    method Clear(ok: seq<bool>, interrupts: nat -> nat)
      requires Balanced(Value()) && |tokens| <= Successes(ok)
      modifies this`available, this`used, this`tokens, pipe
      ensures Value() == NEW_POOL && Value() == Clearing(old(Value()), ok)
      ensures pipe.bytes == old(pipe.bytes) + multiset(old(tokens))
    {
      ClearExact(Value(), ok);
      var k := 0;
      while used > 0
        invariant 0 <= k <= |ok| && Balanced(Value()) && |tokens| <= Successes(ok[k..])
        invariant pipe.bytes + multiset(tokens) == old(pipe.bytes + multiset(tokens))
        decreases used
      {
        if available >= 1 {
          Release(interrupts(k), if ok[k] then Wrote else Broken);
          k := k + 1;
        } else {
          Release(0, Broken);   // makes no write
        }
      }
      while available > 1
        invariant 0 <= k <= |ok| && Balanced(Value()) && used == 0 && |tokens| <= Successes(ok[k..])
        invariant pipe.bytes + multiset(tokens) == old(pipe.bytes + multiset(tokens))
        decreases |ok| - k
      {
        Return(interrupts(k), if ok[k] then Wrote else Broken);
        k := k + 1;
      }
    }
  }

  /** What one DoWork call of the subprocess set brings: children that exited, a readable pipe, an interrupt. */
  datatype Work = Work(exits: nat, token: bool, interrupted: bool)

  /** What WaitForCommand comes back with; Waiting means that it has not come back yet. */
  datatype Waited = Reaped | TokenAvailable | WasInterrupted | Waiting

  /** The first DoWork call that brings anything decides, and a finished command goes before a token. */
  function Outcome(finished: nat, moreReady: bool, work: seq<Work>): Waited {
    if finished > 0 then Reaped
    else if work == [] then Waiting
    else if work[0].interrupted then WasInterrupted
    else if work[0].exits > 0 then Reaped
    else if moreReady && work[0].token then TokenAvailable
    else Outcome(0, moreReady, work[1..])
  }

  /** A DoWork call that brings nothing WaitForCommand waits for. */
  predicate Uneventful(moreReady: bool, w: Work) {
    w.exits == 0 && !w.interrupted && !(moreReady && w.token)
  }

  predicate BringsToken(w: Work) { !w.interrupted && w.exits == 0 && w.token }

  /** Call k of DoWork is made, and nothing has come before it. */
  predicate Reaches(moreReady: bool, work: seq<Work>, k: int) {
    0 <= k < |work| && forall i :: 0 <= i < k ==> Uneventful(moreReady, work[i])
  }

  lemma {:induction false} OutcomeAt(moreReady: bool, work: seq<Work>, k: nat)
    requires k <= |work| && forall i :: 0 <= i < k ==> Uneventful(moreReady, work[i])
    ensures Outcome(0, moreReady, work) == Outcome(0, moreReady, work[k..])
    decreases k
  {
    if k == 0 {
      assert work[0..] == work;
    } else {
      assert forall i :: 0 <= i < k - 1 ==> work[1..][i] == work[i + 1];
      OutcomeAt(moreReady, work[1..], k - 1);
      assert work[1..][k - 1..] == work[k..];
    }
  }

  lemma SameCall(moreReady: bool, work: seq<Work>, i: int, k: int)
    requires Reaches(moreReady, work, i) && !Uneventful(moreReady, work[i])
    requires Reaches(moreReady, work, k) && !Uneventful(moreReady, work[k])
    ensures i == k
  {}

  /** What each outcome means: the first call that brings anything, and what it brings. */
  lemma OutcomeExact(finished: nat, moreReady: bool, work: seq<Work>)
    ensures var o := Outcome(finished, moreReady, work);
            && (o == Waiting <==> finished == 0 && forall k :: 0 <= k < |work| ==> Uneventful(moreReady, work[k]))
            && (o == WasInterrupted <==>
                  finished == 0 && exists k :: Reaches(moreReady, work, k) && work[k].interrupted)
            && (o == Reaped <==>
                  finished > 0 || exists k :: Reaches(moreReady, work, k) && !work[k].interrupted && work[k].exits > 0)
            && (o == TokenAvailable <==>
                  && finished == 0 && moreReady
                  && exists k :: Reaches(moreReady, work, k) && BringsToken(work[k]))
  {
    if finished == 0 {
      if k :| Reaches(moreReady, work, k) && !Uneventful(moreReady, work[k]) {
        OutcomeAt(moreReady, work, k);
        assert work[k..][0] == work[k];
        forall i | Reaches(moreReady, work, i) && !Uneventful(moreReady, work[i]) ensures i == k {
          SameCall(moreReady, work, i, k);
        }
      } else {
        NothingComes(moreReady, work, |work|);
        OutcomeAt(moreReady, work, |work|);
      }
    }
  }

  lemma {:induction false} NothingComes(moreReady: bool, work: seq<Work>, n: nat)
    requires n <= |work| && forall k :: Reaches(moreReady, work, k) ==> Uneventful(moreReady, work[k])
    ensures forall i :: 0 <= i < n ==> Uneventful(moreReady, work[i])
  {
    if n > 0 {
      NothingComes(moreReady, work, n - 1);
      assert Reaches(moreReady, work, n - 1);
    }
  }

  /** Only running children exit. */
  predicate Possible(running: int, work: seq<Work>) {
    work == [] || (work[0].exits <= running && Possible(running - work[0].exits, work[1..]))
  }

  /** The command runner's view of the pool: jobs running, and jobs finished but not yet reaped. */
  class CommandRunner {
    const pool: TokenPool
    var running: nat
    var finished: nat

    predicate Valid()
      reads this, pool
    {
      Balanced(pool.Value()) && pool.used == running + finished
    }

    constructor (p: TokenPool)
      requires p.Value() == NEW_POOL
      ensures pool == p && Valid() && running == 0 && finished == 0
    {
      pool, running, finished := p, 0, 0;
    }

    /**
     CanRunMore with a pool; None stands for SIZE_MAX.  The progress rule, which lets a job start without
     a token, applies only while a finished job still waits to be reaped.
     */
    method CanRunMore(ready: Option<char>) returns (capacity: Option<nat>)
      requires Valid() && (ready.Some? ==> ready.value in pool.pipe.bytes)
      modifies pool`available, pool`tokens, pool.pipe
      ensures Valid() && pool.Value() == Acquired(old(pool.Value()), ready).0
      ensures capacity == None <==> 0 < old(pool.available) || ready.Some?
      ensures capacity == None && 0 <= old(pool.available) ==> 0 < pool.available
      ensures capacity != None ==> capacity == Some(if running == 0 then 1 else 0)
      ensures capacity == Some(1) ==> 0 < finished
      ensures pool.pipe.bytes + multiset(pool.tokens) == old(pool.pipe.bytes + multiset(pool.tokens))
    {
      var ok := pool.Acquire(ready);
      if ok {
        return None;
      }
      var n := 0;
      if n == 0 && running == 0 {
        n := 1;
      }
      return Some(n);
    }

    method StartCommand()
      requires Valid()
      modifies this`running, pool`available, pool`used
      ensures Valid() && running == old(running) + 1 && pool.Value() == Reserved(old(pool.Value()))
    {
      running := running + 1;
      pool.Reserve();
    }

    /** The loop of WaitForCommand: DoWork until a command has finished or a token is there. */
    method Await(moreReady: bool, work: seq<Work>) returns (result: Waited)
      requires Possible(running, work)
      modifies this`running, this`finished
      ensures result == Outcome(old(finished), moreReady, work)
      ensures running + finished == old(running + finished)
      ensures result == Reaped ==> finished > 0
      ensures result == TokenAvailable ==> finished == 0
    {
      var k, tokenAvailable := 0, false;
      while finished == 0 && !tokenAvailable
        invariant 0 <= k <= |work| && running + finished == old(running + finished)
        invariant Possible(running, work[k..])
        invariant Outcome(old(finished), moreReady, work) ==
                    if finished == 0 && tokenAvailable then TokenAvailable else Outcome(finished, moreReady, work[k..])
        decreases |work| - k
      {
        if k == |work| {
          return Waiting;
        }
        var w := work[k];
        running, finished := running - w.exits, finished + w.exits;
        tokenAvailable := moreReady && w.token;
        k := k + 1;
        if w.interrupted {
          return WasInterrupted;
        }
      }
      return if finished == 0 then TokenAvailable else Reaped;
    }

    /**
     WaitForCommand: a child that exits keeps its token until its job is reaped, and only that releases it.
     With no more work ready the token pipe is not watched.
     */
    method WaitForCommand(moreReady: bool, work: seq<Work>, interrupts: nat, last: WriteResult)
      returns (result: Waited)
      requires Valid() && Possible(running, work) && last != Interrupted
      modifies this`running, this`finished, pool`available, pool`used, pool`tokens, pool.pipe
      ensures Valid() && result == Outcome(old(finished), moreReady, work)
      ensures result == Waiting <==>
                old(finished) == 0 && forall k :: 0 <= k < |work| ==> Uneventful(moreReady, work[k])
      ensures result == WasInterrupted <==>
                old(finished) == 0 && exists k :: Reaches(moreReady, work, k) && work[k].interrupted
      ensures result == Reaped <==>
                || old(finished) > 0
                || exists k :: Reaches(moreReady, work, k) && !work[k].interrupted && work[k].exits > 0
      ensures result == TokenAvailable <==>
                && old(finished) == 0 && moreReady
                && exists k :: Reaches(moreReady, work, k) && BringsToken(work[k])
      ensures running + finished == old(running + finished) - (if result == Reaped then 1 else 0)
      ensures pool.Value() == if result == Reaped then Released(old(pool.Value()), last.Wrote?) else old(pool.Value())
      ensures result == TokenAvailable ==> moreReady && finished == 0
      ensures pool.pipe.bytes + multiset(pool.tokens) == old(pool.pipe.bytes + multiset(pool.tokens))
    {
      OutcomeExact(finished, moreReady, work);
      result := Await(moreReady, work);
      if result == Reaped {
        finished := finished - 1;
        pool.Release(interrupts, last);
      }
    }

    /** Abort: all children go, and all their tokens. */
    method Abort(ok: seq<bool>, interrupts: nat -> nat)
      requires Valid() && |pool.tokens| <= Successes(ok)
      modifies this`running, this`finished, pool`available, pool`used, pool`tokens, pool.pipe
      ensures Valid() && running == finished == 0 && pool.Value() == NEW_POOL
      ensures pool.pipe.bytes == old(pool.pipe.bytes) + multiset(old(pool.tokens))
    {
      running, finished := 0, 0;
      pool.Clear(ok, interrupts);
    }
  }
}
