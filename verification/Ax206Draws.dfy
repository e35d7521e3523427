/** The commit thread's own steps inside an interleaved run, and what they alone do to the shadow. */
module Ax206Draws {
  import opened Grid
  import opened Ax206Blit
  import opened Ax206Runs

  function DrawOf(a: Action): seq<DrawOp> { if a.Draw? then [a.draw] else [] }

  /** The flush and blank steps of a run, in order. */
  function Draws(run: seq<Action>): seq<DrawOp> {
    if run == [] then [] else DrawOf(run[0]) + Draws(run[1..])
  }

  lemma {:induction false} DrawsConcat(a: seq<Action>, b: seq<Action>)
    ensures Draws(a + b) == Draws(a) + Draws(b)
    decreases |a|
  {
    if a == [] {
      assert a + b == b;
    } else {
      var first, rest := DrawOf(a[0]), a[1..];
      DrawsConcat(rest, b);
      assert (a + b)[0] == a[0] && (a + b)[1..] == rest + b;
      assert first + (Draws(rest) + Draws(b)) == (first + Draws(rest)) + Draws(b);
    }
  }

  lemma DrawsSnoc(run: seq<Action>, o: DrawOp)
    ensures Draws(run + [Draw(o)]) == Draws(run) + [o]
  {
    DrawsConcat(run, [Draw(o)]);
    assert [Draw(o)][1..] == [];
  }

  function Written(f: Frame, o: DrawOp): Frame {
    match o
    case FlushPixel(p, v) => f[p := v]
    case BlankPixel(p) => f[p := BLACK]
    case _ => f
  }

  /** A frame after a sequence of draw steps. */
  function Drawn(f: Frame, ops: seq<DrawOp>): Frame
    decreases |ops|
  {
    if ops == [] then f else Drawn(Written(f, ops[0]), ops[1..])
  }

  lemma {:induction false} DrawnConcat(f: Frame, a: seq<DrawOp>, b: seq<DrawOp>)
    ensures Drawn(f, a + b) == Drawn(Drawn(f, a), b)
    decreases |a|
  {
    if a == [] {
      assert a + b == b;
    } else {
      assert (a + b)[1..] == a[1..] + b;
      DrawnConcat(Written(f, a[0]), a[1..], b);
    }
  }

  lemma DrawWrites(c: Config, s: State, o: DrawOp)
    requires Covers(c, s.shadow) && CanDraw(c, s, o)
    ensures DoDraw(c, s, o).shadow == Written(s.shadow, o) && Covers(c, Written(s.shadow, o))
  {
    if o.FlushPixel? && s.shadow[o.p] == o.v {
      assert s.shadow[o.p := o.v] == s.shadow;
    }
  }

  lemma LeaveReads(c: Config, s: State, o: LeaveOp)
    requires Covers(c, s.shadow) && CanLeave(c, s, o)
    ensures DoLeave(c, s, o).shadow == s.shadow
  {}

  lemma BlitReads(c: Config, s: State, o: BlitOp)
    requires CanBlit(s, o)
    ensures DoBlit(c, s, o).shadow == s.shadow
  {}

  lemma IdleReads(c: Config, s: State, o: IdleOp)
    requires Covers(c, s.shadow) && CanIdle(c, s, o)
    ensures DoIdle(c, s, o).shadow == s.shadow
  {
    match o
    case EnterBegin =>
    case FillSent =>
    case FillFailed(g) =>
    case ResumeCheck =>
    case ResumeClear =>
    case ResumeRead(p) =>
    case ResumeSent =>
    case ResumeFailed(g) =>
  }

  lemma OthersOnlyRead(c: Config, s: State, a: Action)
    requires Covers(c, s.shadow) && Enabled(c, s, a) && !a.Draw?
    ensures Apply(c, s, a).shadow == s.shadow
  {
    if a.Leave? {
      LeaveReads(c, s, a.leave);
    } else if a.Blit? {
      BlitReads(c, s, a.blit);
    } else if a.Idle? {
      IdleReads(c, s, a.idleOp);
    }
  }

  /** Whatever the queue thread does in between, the shadow is what the draw steps of the run make it. */
  lemma {:induction false} ShadowIsDrawn(c: Config, s: State, run: seq<Action>, t: State)
    requires ValidRun(c, s, run, t)
    ensures t.shadow == Drawn(s.shadow, Draws(run))
    decreases |run|
  {
    if run != [] {
      var a, rest := run[0], Draws(run[1..]);
      ShadowIsDrawn(c, Apply(c, s, a), run[1..], t);
      if a.Draw? {
        DrawWrites(c, s, a.draw);
        assert ([a.draw] + rest)[1..] == rest;
      } else {
        OthersOnlyRead(c, s, a);
        assert [] + rest == rest;
      }
    }
  }

  /** The shadow after any of the draw steps of a run covers the panel. */
  lemma {:induction false} PrefixCovers(c: Config, s: State, run: seq<Action>, t: State, ops: seq<DrawOp>)
    requires ValidRun(c, s, run, t) && Covers(c, s.shadow) && ops <= Draws(run)
    ensures Covers(c, Drawn(s.shadow, ops))
    decreases |run|
  {
    if run != [] && ops != [] {
      var a, rest := run[0], Draws(run[1..]);
      if a.Draw? {
        DrawWrites(c, s, a.draw);
        assert ([a.draw] + rest)[1..] == rest;
        PrefixCovers(c, Apply(c, s, a), run[1..], t, ops[1..]);
      } else {
        OthersOnlyRead(c, s, a);
        assert [] + rest == rest;
        PrefixCovers(c, Apply(c, s, a), run[1..], t, ops);
      }
    }
  }
}
