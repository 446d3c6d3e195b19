/** How scopes end: the body is over, the scope ends or waits for its children, and is resumed when the
    last of them is gone. */
module Leaving {
  import opened Wrappers
  import opened Sequences
  import opened Fibers
  import opened Scheduler
  import opened Steps

  /** Frame 0 replaced. */
  function Retop(f: Fiber, frame: Frame): Fiber
    requires f.frames != []
  {
    f.(frames := [frame] + f.frames[1..])
  }

  lemma RetopOnFrames(f: Fiber, frame: Frame, s: nat)
    requires f.frames != [] && frame.scope == f.frames[0].scope && OnFrames(f.frames, s)
    ensures OnFrames(Retop(f, frame).frames, s)
  {
    var i :| 0 <= i < |f.frames| && f.frames[i].scope == s;
    assert Retop(f, frame).frames[i].scope == s;
  }

  // ---------- the body is over ----------

  function Left(m: Machine, f: nat, s: nat, input: Input): Machine
    requires f in m.fibers && m.fibers[f].frames != [] && s in m.scopes
  {
    var fiber := Retop(m.fibers[f], Frame.Leaving(s));
    m.(fibers := m.fibers[f := fiber.(scopes := if fiber.scopes > 0 then fiber.scopes - 1 else 0,
                                      pending := Without(fiber.pending, Inside(s)), unwinds := Without(fiber.unwinds, s))],
       scopes := m.scopes[s := m.scopes[s].(body := Some(input), closed := true)])
  }

  lemma LeftInv(m: Machine, at: map<nat, Where>, f: nat, s: nat, input: Input)
    requires Inv(m, at) && Runs(m, at, f) && m.fibers[f].frames != [] && m.fibers[f].frames[0] == Body(s)
    ensures s in m.scopes && m.scopes[s].body.None? && !m.scopes[s].ended && m.scopes[s].closer.None?
    ensures Inv(Left(m, f, s, input), at) && Keeps(m, Left(m, f, s, input))
  {
    hide Placed, Scopes, Closings, Keeps, Nested;
    PlacedApart(m, at);
    TopScope(m, f);
    LeftNested(m, f, s, input);
    LeftScopes(m, f, s, input);
    LeftKeeps(m, f, s, input);
    LeftClosings(m, at, f, s, input);
    PlacedFrame(m, Left(m, f, s, input), at);
  }

  lemma TopScope(m: Machine, f: nat)
    requires Scopes(m) && f in m.fibers && m.fibers[f].frames != []
    ensures var s := m.fibers[f].frames[0].scope;
            && s in m.scopes && m.scopes[s].fiber == f && !m.scopes[s].ended && (m.fibers[f].frames[0].Body? <==> m.scopes[s].body.None?)
            && (m.fibers[f].frames[0].Body? || m.fibers[f].frames[0].Leaving? ==> m.scopes[s].closer.None?)
  {
    assert FramesOk(m, f);
    assert ScopeOk(m, m.fibers[f].frames[0].scope);
  }

  lemma LeftNested(m: Machine, f: nat, s: nat, input: Input)
    requires Nested(m) && f in m.fibers && m.fibers[f].frames != [] && m.fibers[f].frames[0] == Body(s) && s in m.scopes
    ensures Nested(Left(m, f, s, input))
  {
    hide Nested, OnFrames;
    var m' := Left(m, f, s, input);
    forall t | t in m.scopes && ScopeOpen(m, t) ensures ScopeOpen(m', t) {
      if m.scopes[t].fiber == f && OnFrames(m.fibers[f].frames, t) {
        RetopOnFrames(m.fibers[f], Frame.Leaving(s), t);
      }
    }
    NestedMoved(m, m');
  }

  lemma LeftScopes(m: Machine, f: nat, s: nat, input: Input)
    requires Scopes(m) && f in m.fibers && m.fibers[f].frames != [] && m.fibers[f].frames[0] == Body(s) && s in m.scopes
    ensures Scopes(Left(m, f, s, input))
  {
    assert FramesOk(m, f);
    hide ScopeOk, FramesOk;
    var m' := Left(m, f, s, input);
    forall t | t in m'.scopes ensures ScopeOk(m', t) {
      assert ScopeOk(m, t);
      LeftScope(m, f, s, input, t);
    }
    forall g | g in m'.fibers ensures FramesOk(m', g) {
      assert FramesOk(m, g);
      LeftFrames(m, f, s, input, g);
    }
  }

  lemma LeftScope(m: Machine, f: nat, s: nat, input: Input, t: nat)
    requires f in m.fibers && FramesOk(m, f) && m.fibers[f].frames != [] && m.fibers[f].frames[0] == Body(s) && s in m.scopes
    requires t in m.scopes && ScopeOk(m, t)
    ensures ScopeOk(Left(m, f, s, input), t)
  {
  }

  lemma LeftFrames(m: Machine, f: nat, s: nat, input: Input, g: nat)
    requires f in m.fibers && FramesOk(m, f) && m.fibers[f].frames != [] && m.fibers[f].frames[0] == Body(s) && s in m.scopes
    requires g in m.fibers && FramesOk(m, g)
    ensures FramesOk(Left(m, f, s, input), g)
  {
    if g == f {
      WithoutDistinct(m.fibers[f].pending, Inside(s));
      WithoutDistinct(m.fibers[f].unwinds, s);
      RetopFrames(m, f, s, input);
    }
  }

  lemma LeftKeeps(m: Machine, f: nat, s: nat, input: Input)
    requires f in m.fibers && m.fibers[f].frames != [] && s in m.scopes && m.scopes[s].body.None?
    ensures Keeps(m, Left(m, f, s, input))
  {
  }

  lemma RetopFrames(m: Machine, f: nat, s: nat, input: Input)
    requires f in m.fibers && FramesOk(m, f) && m.fibers[f].frames != [] && m.fibers[f].frames[0] == Body(s) && s in m.scopes
    ensures var frames := Left(m, f, s, input).fibers[f].frames;
            && |frames| == |m.fibers[f].frames| && frames[0] == Frame.Leaving(s)
            && forall i :: 0 < i < |frames| ==> frames[i] == m.fibers[f].frames[i] && frames[i].scope != s
  {
    var frames0 := m.fibers[f].frames;
    forall i | 0 < i < |frames0| ensures frames0[i].scope != s {
      assert frames0[0].scope != frames0[i].scope;
    }
  }

  lemma LeftClosings(m: Machine, at: map<nat, Where>, f: nat, s: nat, input: Input)
    requires at.Keys == m.fibers.Keys && Closings(m, at) && Scopes(m) && Runs(m, at, f) && m.fibers[f].frames != [] && m.fibers[f].frames[0] == Body(s) && s in m.scopes
    ensures Closings(Left(m, f, s, input), at)
  {
    var m' := Left(m, f, s, input);
    forall g | g in m'.fibers ensures ClosingOk(m', at, g) {
      assert ClosingOk(m, at, g);
    }
    forall i | 0 <= i < |m'.queue| ensures ClosingJob(m', m'.queue[i]) {
      assert ClosingJob(m, m.queue[i]);
    }
  }

  // ---------- the scope ends ----------

  function Finished(m: Machine, f: nat, s: nat): Machine
    requires f in m.fibers && m.fibers[f].frames != [] && s in m.scopes
  {
    m.(fibers := m.fibers[f := m.fibers[f].(frames := m.fibers[f].frames[1..])], scopes := m.scopes[s := m.scopes[s].(ended := true)])
  }

  /** The innermost body is just over. */
  ghost predicate Leaves(m: Machine, at: map<nat, Where>, f: nat, s: nat) {
    f in m.fibers && f in at && at[f] == Current && !m.fibers[f].ended && m.fibers[f].frames != [] && m.fibers[f].frames[0] == Frame.Leaving(s) && s in m.scopes
  }

  lemma FinishedInv(m: Machine, at: map<nat, Where>, f: nat, s: nat)
    requires Inv(m, at) && Leaves(m, at, f, s) && m.scopes[s].children == []
    ensures Inv(Finished(m, f, s), at) && Keeps(m, Finished(m, f, s)) && Runs(Finished(m, f, s), at, f)
  {
    hide Placed, Scopes, Closings, Keeps, Nested;
    PlacedApart(m, at);
    TopScope(m, f);
    FinishedNested(m, f, s);
    FinishedScopes(m, f, s);
    FinishedKeeps(m, f, s);
    FinishedClosings(m, at, f, s);
    SecondIsBody(m, f);
    PlacedFrame(m, Finished(m, f, s), at);
  }

  lemma FinishedNested(m: Machine, f: nat, s: nat)
    requires Nested(m) && f in m.fibers && m.fibers[f].frames != [] && m.fibers[f].frames[0].scope == s && s in m.scopes
    ensures Nested(Finished(m, f, s))
  {
    var m' := Finished(m, f, s);
    forall t | t in m.scopes && ScopeOpen(m, t) ensures ScopeOpen(m', t) {
      var frames := m.fibers[f].frames;
      if t != s && m.scopes[t].fiber == f && !m.scopes[t].ended {
        var i :| 0 <= i < |frames| && frames[i].scope == t;
        assert m'.fibers[f].frames[i - 1].scope == t;
      }
    }
    hide Nested, OnFrames;
    NestedMoved(m, m');
  }

  lemma SecondIsBody(m: Machine, f: nat)
    requires Scopes(m) && f in m.fibers
    ensures forall i :: 0 < i < |m.fibers[f].frames| ==> m.fibers[f].frames[i].Body?
  {
    assert FramesOk(m, f);
    forall i | 0 < i < |m.fibers[f].frames| ensures m.fibers[f].frames[i].Body? {
    }
  }

  lemma FinishedScopes(m: Machine, f: nat, s: nat)
    requires Scopes(m) && f in m.fibers && m.fibers[f].frames != [] && m.fibers[f].frames[0] == Frame.Leaving(s) && s in m.scopes && m.scopes[s].children == []
    ensures Scopes(Finished(m, f, s))
  {
    TopScope(m, f);
    assert FramesOk(m, f);
    hide ScopeOk, FramesOk;
    var m' := Finished(m, f, s);
    forall t | t in m'.scopes ensures ScopeOk(m', t) {
      assert ScopeOk(m, t);
      FinishedScope(m, f, s, t);
    }
    forall g | g in m'.fibers ensures FramesOk(m', g) {
      assert FramesOk(m, g);
      FinishedFrames(m, f, s, g);
    }
  }

  lemma FinishedKeeps(m: Machine, f: nat, s: nat)
    requires f in m.fibers && m.fibers[f].frames != [] && s in m.scopes
    ensures Keeps(m, Finished(m, f, s))
  {
  }

  lemma FinishedScope(m: Machine, f: nat, s: nat, t: nat)
    requires f in m.fibers && FramesOk(m, f) && m.fibers[f].frames != [] && m.fibers[f].frames[0] == Frame.Leaving(s)
    requires s in m.scopes && m.scopes[s].fiber == f && m.scopes[s].children == [] && m.scopes[s].closer.None? && t in m.scopes && ScopeOk(m, t)
    ensures ScopeOk(Finished(m, f, s), t)
  {
  }

  lemma FinishedFrames(m: Machine, f: nat, s: nat, g: nat)
    requires f in m.fibers && m.fibers[f].frames != [] && m.fibers[f].frames[0] == Frame.Leaving(s) && s in m.scopes && m.scopes[s].fiber == f
    requires FramesOk(m, f) && g in m.fibers && FramesOk(m, g)
    ensures FramesOk(Finished(m, f, s), g)
  {
    var m' := Finished(m, f, s);
    var frames, frames' := m.fibers[g].frames, m'.fibers[g].frames;
    forall i {:trigger frames'[i]} | 0 <= i < |frames'|
      ensures frames'[i].scope in m'.scopes && m'.scopes[frames'[i].scope].fiber == g && !m'.scopes[frames'[i].scope].ended &&
              m'.scopes[frames'[i].scope].depth == |frames'| - 1 - i &&
              (i > 0 ==> frames'[i].Body?) && (frames'[i].Body? <==> m'.scopes[frames'[i].scope].body.None?) &&
              (frames'[i].Closing? ==> m'.scopes[frames'[i].scope].body == Some(frames'[i].input))
    {
      if g == f {
        assert frames'[i] == frames[i + 1] && frames[0].scope != frames[i + 1].scope;
      } else {
        assert frames'[i] == frames[i];
      }
    }
    FinishedApart(frames, frames', g == f);
  }

  lemma FinishedApart(frames: seq<Frame>, frames': seq<Frame>, popped: bool)
    requires forall i, j {:trigger frames[i], frames[j]} :: 0 <= i < j < |frames| ==> frames[i].scope != frames[j].scope
    requires if popped then frames != [] && frames' == frames[1..] else frames' == frames
    ensures forall i, j {:trigger frames'[i], frames'[j]} :: 0 <= i < j < |frames'| ==> frames'[i].scope != frames'[j].scope
  {
  }

  lemma FinishedClosings(m: Machine, at: map<nat, Where>, f: nat, s: nat)
    requires at.Keys == m.fibers.Keys && Closings(m, at) && Scopes(m) && Leaves(m, at, f, s)
    ensures Closings(Finished(m, f, s), at)
  {
    var m' := Finished(m, f, s);
    SecondIsBody(m, f);
    forall g | g in m'.fibers ensures ClosingOk(m', at, g) {
      assert ClosingOk(m, at, g);
      if g == f && |m.fibers[f].frames| > 1 {
        assert m'.fibers[f].frames[0] == m.fibers[f].frames[1];
      }
    }
    forall i | 0 <= i < |m'.queue| ensures ClosingJob(m', m'.queue[i]) {
      assert ClosingJob(m, m.queue[i]);
    }
  }

  // ---------- the scope waits for its children ----------

  function ClosingOn(m: Machine, f: nat, s: nat, w: nat, input: Input): Machine
    requires f in m.fibers && m.fibers[f].frames != [] && s in m.scopes
  {
    var fiber := Retop(m.fibers[f], Closing(s, input));
    m.(fibers := m.fibers[f := fiber.(holds := fiber.holds + 1, wait := Some(w))], scopes := m.scopes[s := m.scopes[s].(closer := Some(w))],
       waits := m.waits[w := Wait(f, true, true, true)], current := None)
  }

  lemma ClosingInv(m: Machine, at: map<nat, Where>, f: nat, s: nat, w: nat, input: Input)
    requires Inv(m, at) && Leaves(m, at, f, s) && w !in m.waits && m.scopes[s].body == Some(input)
    ensures Inv(ClosingOn(m, f, s, w, input), at[f := Waiting(w)]) && Keeps(m, ClosingOn(m, f, s, w, input))
  {
    hide Scopes, Closings, Keeps, Nested;
    PlacedApart(m, at);
    ClosingNested(m, f, s, w, input);
    ClosingPlaced(m, at, f, s, w, input);
    ClosingScopes(m, f, s, w, input);
    ClosingKeeps(m, f, s, w, input);
    ClosingClosings(m, at, f, s, w, input);
  }

  lemma ClosingPlaced(m: Machine, at: map<nat, Where>, f: nat, s: nat, w: nat, input: Input)
    requires Placed(m, at) && Leaves(m, at, f, s) && w !in m.waits
    ensures Placed(ClosingOn(m, f, s, w, input), at[f := Waiting(w)])
  {
    RunningPlaced(m, at, f);
    forall v | v in m.waits && m.waits[v].live ensures m.waits[v].fiber != f {
      assert WaitPlaced(m, at, v);
    }
    forall job | job in m.queue ensures JobOther(m, job, f) {
      JobAt(m, at, job);
    }
    PlacedApart(m, at);
    MovedPlaced(m, ClosingOn(m, f, s, w, input), at, f, Waiting(w));
  }

  lemma ClosingNested(m: Machine, f: nat, s: nat, w: nat, input: Input)
    requires Nested(m) && f in m.fibers && m.fibers[f].frames != [] && m.fibers[f].frames[0].scope == s && s in m.scopes
    ensures Nested(ClosingOn(m, f, s, w, input))
  {
    hide Nested, OnFrames;
    var m' := ClosingOn(m, f, s, w, input);
    forall t | t in m.scopes && ScopeOpen(m, t) ensures ScopeOpen(m', t) {
      if m.scopes[t].fiber == f && OnFrames(m.fibers[f].frames, t) {
        RetopOnFrames(m.fibers[f], Closing(s, input), t);
      }
    }
    NestedMoved(m, m');
  }

  lemma ClosingScopes(m: Machine, f: nat, s: nat, w: nat, input: Input)
    requires Scopes(m) && f in m.fibers && m.fibers[f].frames != [] && m.fibers[f].frames[0] == Frame.Leaving(s) && s in m.scopes && w !in m.waits && m.scopes[s].body == Some(input)
    ensures Scopes(ClosingOn(m, f, s, w, input))
  {
    TopScope(m, f);
    assert FramesOk(m, f);
    hide ScopeOk, FramesOk;
    var m' := ClosingOn(m, f, s, w, input);
    forall t | t in m'.scopes ensures ScopeOk(m', t) {
      assert ScopeOk(m, t);
      ClosingScope(m, f, s, w, input, t);
    }
    forall g | g in m'.fibers ensures FramesOk(m', g) {
      assert FramesOk(m, g);
      ClosingFrames(m, f, s, w, input, g);
    }
  }

  lemma ClosingScope(m: Machine, f: nat, s: nat, w: nat, input: Input, t: nat)
    requires f in m.fibers && FramesOk(m, f) && m.fibers[f].frames != [] && m.fibers[f].frames[0] == Frame.Leaving(s)
    requires s in m.scopes && m.scopes[s].fiber == f && !m.scopes[s].ended && w !in m.waits && t in m.scopes && ScopeOk(m, t)
    ensures ScopeOk(ClosingOn(m, f, s, w, input), t)
  {
  }

  lemma ClosingFrames(m: Machine, f: nat, s: nat, w: nat, input: Input, g: nat)
    requires f in m.fibers && FramesOk(m, f) && m.fibers[f].frames != [] && m.fibers[f].frames[0] == Frame.Leaving(s)
    requires s in m.scopes && m.scopes[s].body == Some(input) && g in m.fibers && FramesOk(m, g)
    ensures FramesOk(ClosingOn(m, f, s, w, input), g)
  {
    if g == f {
      RetopSame(m.fibers[f], Closing(s, input));
    }
  }

  lemma ClosingKeeps(m: Machine, f: nat, s: nat, w: nat, input: Input)
    requires f in m.fibers && m.fibers[f].frames != [] && s in m.scopes && w !in m.waits
    ensures Keeps(m, ClosingOn(m, f, s, w, input))
  {
  }

  lemma RetopSame(f: Fiber, frame: Frame)
    requires f.frames != [] && frame.scope == f.frames[0].scope
    ensures |Retop(f, frame).frames| == |f.frames| && Retop(f, frame).frames[0] == frame
    ensures forall i :: 0 < i < |f.frames| ==> Retop(f, frame).frames[i] == f.frames[i]
    ensures forall i :: 0 <= i < |f.frames| ==> Retop(f, frame).frames[i].scope == f.frames[i].scope
  {
  }

  lemma ClosingClosings(m: Machine, at: map<nat, Where>, f: nat, s: nat, w: nat, input: Input)
    requires at.Keys == m.fibers.Keys && Closings(m, at) && Scopes(m) && Placed(m, at) && Leaves(m, at, f, s) && w !in m.waits
    ensures Closings(ClosingOn(m, f, s, w, input), at[f := Waiting(w)])
  {
    var m', at' := ClosingOn(m, f, s, w, input), at[f := Waiting(w)];
    TopScope(m, f);
    forall g | g in m'.fibers ensures ClosingOk(m', at', g) {
      assert ClosingOk(m, at, g) && FiberPlaced(m, at, g);
      if g != f && m.fibers[g].frames != [] {
        TopScope(m, g);
      }
    }
    forall i | 0 <= i < |m'.queue| ensures ClosingJob(m', m'.queue[i]) {
      assert ClosingJob(m, m.queue[i]) && JobPlaced(m, at, m.queue[i]);
    }
  }
}
