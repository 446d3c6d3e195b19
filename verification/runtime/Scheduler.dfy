/** The structured-concurrency scheduler: every step keeps the invariants. */
module Scheduler {
  import opened Wrappers
  import opened Sequences
  import opened Fibers

  ghost predicate Inv(m: Machine, at: map<nat, Where>) {
    Placed(m, at) && Scopes(m) && Closings(m, at) && Nested(m)
  }

  /** The tree depends on frames, and on which scopes there are. */
  lemma NestedFrame(m: Machine, m': Machine)
    requires Nested(m) && m'.scopes.Keys == m.scopes.Keys && m'.fibers.Keys == m.fibers.Keys
    requires forall f {:trigger m'.fibers[f]} :: f in m.fibers ==> m'.fibers[f].frames == m.fibers[f].frames && m'.fibers[f].scope == m.fibers[f].scope
    requires forall s {:trigger m'.scopes[s]} :: s in m.scopes ==> m'.scopes[s].fiber == m.scopes[s].fiber && m'.scopes[s].ended == m.scopes[s].ended
    ensures Nested(m')
  {
    hide OnFrames;
    forall s | s in m'.scopes ensures ScopeOpen(m', s) {
      assert ScopeOpen(m, s);
    }
    forall f | f in m'.fibers ensures FiberNested(m', f) {
      assert FiberNested(m, f);
    }
  }

  /** Frames may change as long as they keep the scopes that have not ended. */
  lemma NestedMoved(m: Machine, m': Machine)
    requires Nested(m) && m'.scopes.Keys == m.scopes.Keys && m'.fibers.Keys == m.fibers.Keys
    requires forall f {:trigger m'.fibers[f]} :: f in m.fibers ==> m'.fibers[f].scope == m.fibers[f].scope
    requires forall s {:trigger m'.scopes[s]} :: s in m.scopes ==> m'.scopes[s].fiber == m.scopes[s].fiber
    requires forall s {:trigger ScopeOpen(m', s)} :: s in m.scopes && ScopeOpen(m, s) ==> ScopeOpen(m', s)
    ensures Nested(m')
  {
    forall s | s in m'.scopes ensures ScopeOpen(m', s) {
      assert ScopeOpen(m, s);
    }
    forall f | f in m'.fibers ensures FiberNested(m', f) {
      assert FiberNested(m, f);
    }
  }

  // ---------- primitive changes ----------

  /** The wait leaves the list and its continuation goes to the queue. */
  function Requeued(m: Machine, w: nat, job: Job): Machine
    requires w in m.waits && m.waits[w].fiber in m.fibers
  {
    var f := m.waits[w].fiber;
    m.(waits := m.waits[w := m.waits[w].(live := false)], fibers := m.fibers[f := m.fibers[f].(wait := None)], queue := m.queue + [job])
  }

  lemma RequeuedPlaced(m: Machine, at: map<nat, Where>, w: nat, job: Job)
    requires Placed(m, at) && w in m.waits && m.waits[w].live && Resumes(job) == Some(w)
    ensures m.waits[w].fiber in m.fibers && at[m.waits[w].fiber] == Waiting(w)
    ensures Placed(Requeued(m, w, job), at[m.waits[w].fiber := Queued(w)])
  {
    assert WaitPlaced(m, at, w);
    var f := m.waits[w].fiber;
    assert FiberPlaced(m, at, f);
    var m', at' := Requeued(m, w, job), at[f := Queued(w)];
    forall g | g in m'.fibers ensures FiberPlaced(m', at', g) {
      assert FiberPlaced(m, at, g);
    }
    forall v | v in m'.waits ensures WaitPlaced(m', at', v) {
      assert WaitPlaced(m, at, v);
    }
    forall i | 0 <= i < |m'.queue| ensures JobPlaced(m', at', m'.queue[i]) {
      if i < |m.queue| {
        assert JobPlaced(m, at, m.queue[i]);
      }
    }
    forall i, j {:trigger m'.queue[i], m'.queue[j]} | 0 <= i < j < |m'.queue|
      ensures (Resumes(m'.queue[i]).Some? ==> Resumes(m'.queue[i]) != Resumes(m'.queue[j])) && (m'.queue[i].Begin? ==> m'.queue[i] != m'.queue[j])
    {
      assert JobPlaced(m, at, m.queue[i]);
    }
  }

  /** Requeueing a wait that is not a scope's keeps everything about scopes. */
  lemma RequeuedInv(m: Machine, at: map<nat, Where>, w: nat, job: Job)
    requires Inv(m, at) && w in m.waits && m.waits[w].live && !m.waits[w].closing && Resumes(job) == Some(w)
    ensures m.waits[w].fiber in m.fibers && at[m.waits[w].fiber] == Waiting(w)
    ensures Inv(Requeued(m, w, job), at[m.waits[w].fiber := Queued(w)])
  {
    RequeuedPlaced(m, at, w, job);
    RequeuedScopes(m, w, job);
    RequeuedClosings(m, at, w, job);
    NestedFrame(m, Requeued(m, w, job));
  }

  lemma RequeuedScopes(m: Machine, w: nat, job: Job)
    requires Scopes(m) && w in m.waits && m.waits[w].fiber in m.fibers
    ensures Scopes(Requeued(m, w, job))
  {
    hide Scopes, ScopeOk, FramesOk, InterruptionsOk;
    ScopesFrame(m, Requeued(m, w, job));
  }

  lemma RequeuedClosings(m: Machine, at: map<nat, Where>, w: nat, job: Job)
    requires at.Keys == m.fibers.Keys && Closings(m, at) && w in m.waits && m.waits[w].fiber in m.fibers
    requires at[m.waits[w].fiber] == Waiting(w) && !m.waits[w].closing && Resumes(job) == Some(w)
    ensures Closings(Requeued(m, w, job), at[m.waits[w].fiber := Queued(w)])
  {
    var f := m.waits[w].fiber;
    var m', at' := Requeued(m, w, job), at[f := Queued(w)];
    forall g | g in m'.fibers ensures ClosingOk(m', at', g) {
      assert ClosingOk(m, at, g);
    }
    forall i | 0 <= i < |m'.queue| ensures ClosingJob(m', m'.queue[i]) {
      if i < |m.queue| {
        assert ClosingJob(m, m.queue[i]);
      }
    }
  }

  /** Scopes do not depend on where continuations wait. */
  lemma ScopesFrame(m: Machine, m': Machine)
    requires Scopes(m) && m'.scopes == m.scopes && m'.fibers.Keys == m.fibers.Keys && m.waits.Keys <= m'.waits.Keys
    requires forall w :: w in m.waits ==> m'.waits[w].fiber == m.waits[w].fiber
    requires forall f {:trigger m'.fibers[f]} :: f in m.fibers ==>
               m'.fibers[f].frames == m.fibers[f].frames && m'.fibers[f].ended == m.fibers[f].ended &&
               m'.fibers[f].scope == m.fibers[f].scope && m'.fibers[f].scopes == m.fibers[f].scopes &&
               ((m'.fibers[f].pending == m.fibers[f].pending && m'.fibers[f].unwinds == m.fibers[f].unwinds) || InterruptionsOk(m.scopes, f, m'.fibers[f]))
    ensures Scopes(m')
  {
    forall s | s in m'.scopes ensures ScopeOk(m', s) {
      assert ScopeOk(m, s);
    }
    forall f | f in m'.fibers ensures FramesOk(m', f) {
      assert FramesOk(m, f);
    }
  }

  /** A new interruption of a fiber. */
  function Asked(m: Machine, f: nat, target: Target): Machine
    requires f in m.fibers
  {
    m.(fibers := m.fibers[f := m.fibers[f].(pending := m.fibers[f].pending + [target])])
  }

  lemma AskedInv(m: Machine, at: map<nat, Where>, f: nat, target: Target)
    requires Inv(m, at) && f in m.fibers && target !in m.fibers[f].pending && (target.Inside? ==> target.scope !in m.fibers[f].unwinds && BodyRuns(m.scopes, f, target.scope))
    ensures Inv(Asked(m, f, target), at)
  {
    hide Scopes, ScopeOk, FramesOk, InterruptionsOk, Placed, Closings, Nested;
    var m' := Asked(m, f, target);
    PlacedKeys(m, at);
    FiberInterruptions(m, f);
    AskedFiber(m.scopes, f, m.fibers[f], target);
    AskedClosings(m, at, f, target);
    ScopesFrame(m, m');
    PlacedFrame(m, m', at);
    NestedFrame(m, m');
  }

  lemma PlacedKeys(m: Machine, at: map<nat, Where>)
    requires Placed(m, at)
    ensures at.Keys == m.fibers.Keys
  {
  }

  lemma ScopeOfFiber(m: Machine, f: nat)
    requires Scopes(m) && f in m.fibers && m.fibers[f].scope.Some?
    ensures m.fibers[f].scope.value in m.scopes && ScopeOk(m, m.fibers[f].scope.value)
  {
    assert FramesOk(m, f);
  }

  lemma FiberInterruptions(m: Machine, f: nat)
    requires Scopes(m) && f in m.fibers
    ensures InterruptionsOk(m.scopes, f, m.fibers[f])
  {
    assert FramesOk(m, f);
  }

  lemma AskedFiber(scopes: map<nat, Scope>, f: nat, fiber: Fiber, target: Target)
    requires InterruptionsOk(scopes, f, fiber) && target !in fiber.pending
    requires target.Inside? ==> target.scope !in fiber.unwinds && BodyRuns(scopes, f, target.scope)
    ensures InterruptionsOk(scopes, f, fiber.(pending := fiber.pending + [target]))
  {
  }

  lemma AskedClosings(m: Machine, at: map<nat, Where>, f: nat, target: Target)
    requires at.Keys == m.fibers.Keys && Closings(m, at) && f in m.fibers
    ensures Closings(Asked(m, f, target), at)
  {
    var m' := Asked(m, f, target);
    forall g | g in m'.fibers ensures ClosingOk(m', at, g) {
      assert ClosingOk(m, at, g);
    }
  }

  /** Places depend on waits, jobs, who runs, and which wait a fiber has. */
  lemma PlacedFrame(m: Machine, m': Machine, at: map<nat, Where>)
    requires Placed(m, at) && m'.waits == m.waits && m'.queue == m.queue && m'.current == m.current && m'.fibers.Keys == m.fibers.Keys
    requires forall f {:trigger m'.fibers[f]} :: f in m.fibers ==> m'.fibers[f].ended == m.fibers[f].ended && m'.fibers[f].wait == m.fibers[f].wait
    ensures Placed(m', at)
  {
    forall f | f in m'.fibers ensures FiberPlaced(m', at, f) {
      assert FiberPlaced(m, at, f);
    }
    forall w | w in m'.waits ensures WaitPlaced(m', at, w) {
      assert WaitPlaced(m, at, w);
    }
    forall i | 0 <= i < |m'.queue| ensures JobPlaced(m', at, m'.queue[i]) {
      assert JobPlaced(m, at, m.queue[i]);
    }
  }

  // ---------- the end of a child ----------

  function Gone(m: Machine, c: nat, s: nat, input: Input): Machine
    requires c in m.fibers && s in m.scopes
  {
    m.(fibers := m.fibers[c := m.fibers[c].(ended := true, cause := CauseOf(input), result := ResultOf(input), wait := None)],
       scopes := m.scopes[s := m.scopes[s].(children := Without(m.scopes[s].children, c))],
       current := if m.current == Some(c) then None else m.current)
  }

  /** A continuation that ends is running, or has not begun and will not. */
  ghost predicate CanEnd(m: Machine, at: map<nat, Where>, c: nat) {
    && c in m.fibers && c in at && m.fibers[c].frames == []
    && (at[c] == Current || (at[c] == NotBegun && forall i {:trigger m.queue[i]} :: 0 <= i < |m.queue| ==> m.queue[i] != Begin(c)))
  }

  lemma GonePlaced(m: Machine, at: map<nat, Where>, c: nat, s: nat, input: Input)
    requires Placed(m, at) && CanEnd(m, at, c) && s in m.scopes
    ensures Placed(Gone(m, c, s, input), at[c := Over])
  {
    var m', at' := Gone(m, c, s, input), at[c := Over];
    assert FiberPlaced(m, at, c);
    forall f | f in m'.fibers ensures FiberPlaced(m', at', f) {
      assert FiberPlaced(m, at, f);
    }
    forall w | w in m'.waits ensures WaitPlaced(m', at', w) {
      assert WaitPlaced(m, at, w);
    }
    forall i | 0 <= i < |m'.queue| ensures JobPlaced(m', at', m'.queue[i]) {
      assert JobPlaced(m, at, m.queue[i]);
    }
  }

  lemma GoneScopes(m: Machine, c: nat, s: nat, input: Input)
    requires Scopes(m) && c in m.fibers && !m.fibers[c].ended && m.fibers[c].scope == Some(s) && m.fibers[c].frames == []
    ensures s in m.scopes && !m.scopes[s].ended && Scopes(Gone(m, c, s, input))
  {
    ScopeOfFiber(m, c);
    NotEndedScope(m, c, s);
    hide ScopeOk, FramesOk, Without;
    var m' := Gone(m, c, s, input);
    forall t | t in m'.scopes ensures ScopeOk(m', t) {
      assert ScopeOk(m, t);
      GoneScope(m, c, s, input, t);
    }
    forall f | f in m'.fibers ensures FramesOk(m', f) {
      assert FramesOk(m, f);
      GoneFrames(m, c, s, input, f);
    }
  }

  /** A scope with a child that has not ended has not ended. */
  lemma NotEndedScope(m: Machine, c: nat, s: nat)
    requires c in m.fibers && !m.fibers[c].ended && m.fibers[c].scope == Some(s) && s in m.scopes && ScopeOk(m, s)
    ensures !m.scopes[s].ended
  {
    assert c in m.scopes[s].children;
  }

  lemma GoneKeeps(m: Machine, c: nat, s: nat, input: Input)
    requires c in m.fibers && !m.fibers[c].ended && s in m.scopes
    ensures Keeps(m, Gone(m, c, s, input))
  {
    hide Without;
  }

  lemma GoneScope(m: Machine, c: nat, s: nat, input: Input, t: nat)
    requires c in m.fibers && !m.fibers[c].ended && m.fibers[c].scope == Some(s) && m.fibers[c].frames == []
    requires s in m.scopes && t in m.scopes && ScopeOk(m, t)
    ensures ScopeOk(Gone(m, c, s, input), t)
  {
    if t == s {
      WithoutDistinct(m.scopes[s].children, c);
    }
  }

  lemma GoneFrames(m: Machine, c: nat, s: nat, input: Input, f: nat)
    requires c in m.fibers && m.fibers[c].frames == [] && s in m.scopes && f in m.fibers && FramesOk(m, f)
    ensures FramesOk(Gone(m, c, s, input), f)
  {
  }

  lemma GoneClosings(m: Machine, at: map<nat, Where>, c: nat, s: nat, input: Input)
    requires at.Keys == m.fibers.Keys && Closings(m, at) && c in m.fibers && m.fibers[c].frames == [] && s in m.scopes
    requires !at[c].Waiting? && !at[c].Queued?
    ensures Closings(Gone(m, c, s, input), at[c := Over])
  {
    var m', at' := Gone(m, c, s, input), at[c := Over];
    forall f | f in m'.fibers ensures ClosingOk(m', at', f) {
      assert ClosingOk(m, at, f);
    }
  }

  // ---------- the first failure of a scope ----------

  function Blamed(m: Machine, s: nat, cause: Cause): Machine
    requires s in m.scopes
  {
    m.(scopes := m.scopes[s := m.scopes[s].(first := Some(cause), closed := true)])
  }

  lemma BlamedInv(m: Machine, at: map<nat, Where>, s: nat, cause: Cause)
    requires Inv(m, at) && s in m.scopes && m.scopes[s].first.None? && !m.scopes[s].ended && cause != Interrupted
    ensures Inv(Blamed(m, s, cause), at) && Keeps(m, Blamed(m, s, cause))
  {
    hide Scopes, Placed, Closings, Keeps, Nested;
    PlacedKeys(m, at);
    NestedFrame(m, Blamed(m, s, cause));
    PlacedFrame(m, Blamed(m, s, cause), at);
    BlamedScopes(m, s, cause);
    BlamedClosings(m, at, s, cause);
  }

  lemma BlamedScopes(m: Machine, s: nat, cause: Cause)
    requires Scopes(m) && s in m.scopes && m.scopes[s].first.None? && !m.scopes[s].ended && cause != Interrupted
    ensures Scopes(Blamed(m, s, cause)) && Keeps(m, Blamed(m, s, cause))
  {
    var m' := Blamed(m, s, cause);
    forall t | t in m'.scopes ensures ScopeOk(m', t) {
      assert ScopeOk(m, t);
    }
    forall f | f in m'.fibers ensures FramesOk(m', f) {
      assert FramesOk(m, f);
    }
  }

  lemma BlamedClosings(m: Machine, at: map<nat, Where>, s: nat, cause: Cause)
    requires at.Keys == m.fibers.Keys && Closings(m, at) && s in m.scopes
    ensures Closings(Blamed(m, s, cause), at)
  {
    var m' := Blamed(m, s, cause);
    forall f | f in m'.fibers ensures ClosingOk(m', at, f) {
      assert ClosingOk(m, at, f);
    }
    forall i | 0 <= i < |m'.queue| ensures ClosingJob(m', m'.queue[i]) {
      assert ClosingJob(m, m.queue[i]);
    }
  }

  // ---------- the last child is gone ----------

  function Woken(m: Machine, s: nat): Machine
    requires s in m.scopes && m.scopes[s].closer.Some? && m.scopes[s].closer.value in m.waits && m.waits[m.scopes[s].closer.value].fiber in m.fibers
  {
    var w := m.scopes[s].closer.value;
    Requeued(m, w, Resume(w, Value(UNIT))).(scopes := m.scopes[s := m.scopes[s].(closer := None)])
  }

  lemma WokenInv(m: Machine, at: map<nat, Where>, s: nat)
    requires Inv(m, at) && s in m.scopes && m.scopes[s].closer.Some? && m.scopes[s].children == []
    ensures var w := m.scopes[s].closer.value;
            w in m.waits && m.waits[w].fiber in m.fibers && at[m.waits[w].fiber] == Waiting(w) && m.waits[w].live &&
            Inv(Woken(m, s), at[m.waits[w].fiber := Queued(w)]) && Keeps(m, Woken(m, s))
  {
    CloserWaits(m, at, s);
    var w := m.scopes[s].closer.value;
    var f := m.waits[w].fiber;
    hide ScopeOk, FramesOk, ClosingOk, Placed, Scopes, Nested, Keeps;
    RequeuedPlaced(m, at, w, Resume(w, Value(UNIT)));
    var r, m', at' := Requeued(m, w, Resume(w, Value(UNIT))), Woken(m, s), at[f := Queued(w)];
    PlacedFrame(r, m', at');
    WokenScopes(m, s);
    NestedFrame(m, m');
    forall g | g in m'.fibers ensures ClosingOk(m', at', g) {
      assert ClosingOk(m, at, g);
      FramesKnown(m, g);
      WokenClosing(m, at, s, g);
    }
    forall i | 0 <= i < |m'.queue| ensures ClosingJob(m', m'.queue[i]) {
      if i < |m.queue| {
        assert ClosingJob(m, m.queue[i]);
      }
    }
  }

  /** The fiber of a scope with a closer waits there. */
  lemma CloserWaits(m: Machine, at: map<nat, Where>, s: nat)
    requires Inv(m, at) && s in m.scopes && m.scopes[s].closer.Some?
    ensures var w := m.scopes[s].closer.value;
            && w in m.waits && m.waits[w].live && m.waits[w].fiber in m.fibers && at[m.waits[w].fiber] == Waiting(w) && m.scopes[s].fiber == m.waits[w].fiber
            && var fiber := m.fibers[m.waits[w].fiber];
               IsClosing(fiber) && fiber.frames[0].scope == s
  {
    assert ScopeOk(m, s);
    var f := m.waits[m.scopes[s].closer.value].fiber;
    assert ClosingOk(m, at, f) && FramesOk(m, f);
    assert FiberPlaced(m, at, f);
  }

  lemma FramesKnown(m: Machine, f: nat)
    requires Scopes(m) && f in m.fibers
    ensures FramesOk(m, f)
  {
  }

  lemma WokenClosing(m: Machine, at: map<nat, Where>, s: nat, g: nat)
    requires at.Keys == m.fibers.Keys && s in m.scopes && m.scopes[s].closer.Some? && m.scopes[s].children == []
    requires var w := m.scopes[s].closer.value;
             && w in m.waits && m.waits[w].fiber in m.fibers && at[m.waits[w].fiber] == Waiting(w)
             && IsClosing(m.fibers[m.waits[w].fiber]) && m.fibers[m.waits[w].fiber].frames[0].scope == s
    requires m.scopes[s].fiber == m.waits[m.scopes[s].closer.value].fiber && g in m.fibers && ClosingOk(m, at, g) && FramesOk(m, g)
    ensures ClosingOk(Woken(m, s), at[m.waits[m.scopes[s].closer.value].fiber := Queued(m.scopes[s].closer.value)], g)
  {
  }

  lemma WokenScopes(m: Machine, s: nat)
    requires Scopes(m) && s in m.scopes && m.scopes[s].closer.Some? && m.scopes[s].closer.value in m.waits && m.waits[m.scopes[s].closer.value].fiber in m.fibers
    ensures Scopes(Woken(m, s)) && Keeps(m, Woken(m, s))
  {
    hide ScopeOk, FramesOk;
    var m' := Woken(m, s);
    forall t | t in m'.scopes ensures ScopeOk(m', t) {
      assert ScopeOk(m, t);
      assert ScopeOk(m, s);
      WokenScope(m, s, t);
    }
    forall g | g in m'.fibers ensures FramesOk(m', g) {
      assert FramesOk(m, g);
      WokenFrames(m, s, g);
    }
  }

  lemma WokenScope(m: Machine, s: nat, t: nat)
    requires s in m.scopes && m.scopes[s].closer.Some? && m.scopes[s].closer.value in m.waits && m.waits[m.scopes[s].closer.value].fiber in m.fibers
    requires t in m.scopes && ScopeOk(m, t) && ScopeOk(m, s)
    ensures ScopeOk(Woken(m, s), t)
  {
  }

  lemma WokenFrames(m: Machine, s: nat, g: nat)
    requires s in m.scopes && m.scopes[s].closer.Some? && m.scopes[s].closer.value in m.waits && m.waits[m.scopes[s].closer.value].fiber in m.fibers
    requires g in m.fibers && FramesOk(m, g)
    ensures FramesOk(Woken(m, s), g)
  {
  }
}
