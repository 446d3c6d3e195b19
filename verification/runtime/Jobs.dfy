/** Taking jobs from the queue, delivering interruptions, holds. */
module Jobs {
  import opened Wrappers
  import opened Fibers
  import opened Scheduler
  import opened Steps
  import opened Leaving

  /** The first job is gone from the queue. */
  function Popped(m: Machine): Machine
    requires m.queue != []
  {
    m.(queue := m.queue[1..])
  }

  lemma PoppedInv(m: Machine, at: map<nat, Where>)
    requires Inv(m, at) && m.queue != []
    ensures Inv(Popped(m), at)
    ensures forall i :: 0 <= i < |m.queue[1..]| ==>
              (Resumes(m.queue[0]).Some? ==> Resumes(m.queue[1..][i]) != Resumes(m.queue[0])) && (m.queue[0].Begin? ==> m.queue[1..][i] != m.queue[0])
  {
    var m' := Popped(m);
    forall i | 0 <= i < |m'.queue| ensures JobPlaced(m', at, m'.queue[i]) && ClosingJob(m', m'.queue[i]) {
      assert m'.queue[i] == m.queue[i + 1];
      assert JobPlaced(m, at, m.queue[i + 1]) && ClosingJob(m, m.queue[i + 1]);
    }
    PoppedPlaced(m, at);
    NestedFrame(m, m');
    ScopesFrame(m, m');
    forall g | g in m'.fibers ensures ClosingOk(m', at, g) {
      assert ClosingOk(m, at, g);
    }
  }

  lemma PoppedPlaced(m: Machine, at: map<nat, Where>)
    requires Placed(m, at) && m.queue != []
    ensures Placed(Popped(m), at)
    ensures forall i :: 0 <= i < |m.queue[1..]| ==>
              (Resumes(m.queue[0]).Some? ==> Resumes(m.queue[1..][i]) != Resumes(m.queue[0])) && (m.queue[0].Begin? ==> m.queue[1..][i] != m.queue[0])
  {
    var m' := Popped(m);
    forall f | f in m'.fibers ensures FiberPlaced(m', at, f) {
      assert FiberPlaced(m, at, f);
    }
    forall w | w in m'.waits ensures WaitPlaced(m', at, w) {
      assert WaitPlaced(m, at, w);
    }
    forall i | 0 <= i < |m'.queue| ensures JobPlaced(m', at, m'.queue[i]) {
      assert m'.queue[i] == m.queue[i + 1];
      assert JobPlaced(m, at, m.queue[i + 1]);
    }
    forall i, j {:trigger m'.queue[i], m'.queue[j]} | 0 <= i < j < |m'.queue|
      ensures (Resumes(m'.queue[i]).Some? ==> Resumes(m'.queue[i]) != Resumes(m'.queue[j])) && (m'.queue[i].Begin? ==> m'.queue[i] != m'.queue[j])
    {
      assert m'.queue[i] == m.queue[i + 1] && m'.queue[j] == m.queue[j + 1];
    }
    forall i | 0 <= i < |m.queue[1..]|
      ensures (Resumes(m.queue[0]).Some? ==> Resumes(m.queue[1..][i]) != Resumes(m.queue[0])) && (m.queue[0].Begin? ==> m.queue[1..][i] != m.queue[0])
    {
      assert m.queue[1..][i] == m.queue[i + 1];
    }
  }

  // ---------- a continuation goes on ----------

  /** The continuation runs; one that waited for children is about to end its scope. */
  function GoesOn(m: Machine, f: nat): Machine
    requires f in m.fibers
  {
    var fiber := m.fibers[f];
    m.(current := Some(f),
       fibers := m.fibers[f := if IsClosing(fiber) then Retop(fiber, Frame.Leaving(fiber.frames[0].scope)).(holds := if fiber.holds > 0 then fiber.holds - 1 else 0) else fiber])
  }

  /** Nothing else would continue fiber `f`. */
  ghost predicate Idle(m: Machine, f: nat) {
    && m.current.None?
    && (forall w :: w in m.waits && m.waits[w].fiber == f ==> !m.waits[w].live)
    && (forall job :: job in m.queue ==> JobOther(m, job, f))
  }

  lemma GoesOnPlaced(m: Machine, at: map<nat, Where>, f: nat)
    requires Placed(m, at) && f in m.fibers && Idle(m, f) && !m.fibers[f].ended && m.fibers[f].wait.None?
    ensures Placed(GoesOn(m, f), at[f := Current])
  {
    PlacedApart(m, at);
    forall job | job in m.queue ensures JobOther(m, job, f) {
    }
    MovedPlaced(m, GoesOn(m, f), at, f, Current);
  }

  lemma GoesOnScopes(m: Machine, f: nat)
    requires Scopes(m) && f in m.fibers && (IsClosing(m.fibers[f]) ==> m.fibers[f].frames[0].scope in m.scopes && m.scopes[m.fibers[f].frames[0].scope].closer.None?)
    ensures Scopes(GoesOn(m, f))
  {
    assert FramesOk(m, f);
    hide ScopeOk, FramesOk;
    var m' := GoesOn(m, f);
    forall t | t in m'.scopes ensures ScopeOk(m', t) {
      assert ScopeOk(m, t);
      GoesOnScope(m, f, t);
    }
    forall g | g in m'.fibers ensures FramesOk(m', g) {
      assert FramesOk(m, g);
      GoesOnFrames(m, f, g);
    }
  }

  lemma GoesOnKeeps(m: Machine, f: nat)
    requires f in m.fibers
    ensures Keeps(m, GoesOn(m, f))
  {
  }

  lemma GoesOnScope(m: Machine, f: nat, t: nat)
    requires f in m.fibers && (IsClosing(m.fibers[f]) ==> m.fibers[f].frames[0].scope in m.scopes && m.scopes[m.fibers[f].frames[0].scope].closer.None?)
    requires FramesOk(m, f) && t in m.scopes && ScopeOk(m, t)
    ensures ScopeOk(GoesOn(m, f), t)
  {
  }

  lemma GoesOnFrames(m: Machine, f: nat, g: nat)
    requires f in m.fibers && FramesOk(m, f) && g in m.fibers && FramesOk(m, g)
    ensures FramesOk(GoesOn(m, f), g)
  {
    if g == f && IsClosing(m.fibers[f]) {
      RetopSame(m.fibers[f], Frame.Leaving(m.fibers[f].frames[0].scope));
    }
  }

  lemma GoesOnNested(m: Machine, f: nat)
    requires Nested(m) && f in m.fibers
    ensures Nested(GoesOn(m, f))
  {
    hide Nested, OnFrames;
    var m' := GoesOn(m, f);
    forall t | t in m.scopes && ScopeOpen(m, t) ensures ScopeOpen(m', t) {
      if IsClosing(m.fibers[f]) && m.scopes[t].fiber == f && OnFrames(m.fibers[f].frames, t) {
        RetopOnFrames(m.fibers[f], Frame.Leaving(m.fibers[f].frames[0].scope), t);
      }
    }
    NestedMoved(m, m');
  }

  lemma GoesOnClosings(m: Machine, at: map<nat, Where>, f: nat)
    requires at.Keys == m.fibers.Keys && Closings(m, at) && f in m.fibers
    ensures Closings(GoesOn(m, f), at[f := Current])
  {
    var m', at' := GoesOn(m, f), at[f := Current];
    forall g | g in m'.fibers ensures ClosingOk(m', at', g) {
      assert ClosingOk(m, at, g);
    }
    forall i | 0 <= i < |m'.queue| ensures ClosingJob(m', m'.queue[i]) {
      assert ClosingJob(m, m.queue[i]);
    }
  }

  /** A queued continuation is taken. */
  lemma TakenInv(m: Machine, at: map<nat, Where>, w: nat)
    requires Inv(m, at) && m.queue != [] && Resumes(m.queue[0]) == Some(w) && m.current.None?
    ensures w in m.waits && m.waits[w].fiber in m.fibers
    ensures var f := m.waits[w].fiber;
            && at[f] == Queued(w) && Inv(GoesOn(Popped(m), f), at[f := Current]) && Keeps(m, GoesOn(Popped(m), f))
            && (IsClosing(m.fibers[f]) ==>
                  var s := m.fibers[f].frames[0].scope;
                  Leaves(GoesOn(Popped(m), f), at[f := Current], f, s) && m.scopes[s].children == [])
            && (!IsClosing(m.fibers[f]) ==> Runs(GoesOn(Popped(m), f), at[f := Current], f))
  {
    hide Scopes, Closings, Keeps, Nested;
    assert JobPlaced(m, at, m.queue[0]);
    var f, p := m.waits[w].fiber, Popped(m);
    PoppedInv(m, at);
    PlacedApart(p, at);
    TakenIdle(m, at, w);
    TakenTop(m, at, f);
    GoesOnPlaced(p, at, f);
    GoesOnScopes(p, f);
    GoesOnKeeps(p, f);
    GoesOnClosings(p, at, f);
    GoesOnNested(p, f);
    PoppedKeeps(m, GoesOn(p, f));
  }

  lemma PoppedKeeps(m: Machine, m': Machine)
    requires m.queue != [] && Keeps(Popped(m), m')
    ensures Keeps(m, m')
  {
    KeepsSame(m, Popped(m));
    KeepsTransitive(m, Popped(m), m');
  }

  lemma TakenIdle(m: Machine, at: map<nat, Where>, w: nat)
    requires Placed(m, at) && m.queue != [] && Resumes(m.queue[0]) == Some(w) && m.current.None?
    ensures w in m.waits && m.waits[w].fiber in m.fibers && Idle(Popped(m), m.waits[w].fiber)
    ensures !m.fibers[m.waits[w].fiber].ended && m.fibers[m.waits[w].fiber].wait.None?
  {
    assert JobPlaced(m, at, m.queue[0]);
    var f := m.waits[w].fiber;
    assert FiberPlaced(m, at, f);
    assert forall v: nat :: m.fibers[f].wait == Some(v) ==> at[f] == Waiting(v);
    forall v | v in m.waits && m.waits[v].fiber == f ensures !m.waits[v].live {
      assert WaitPlaced(m, at, v);
    }
    PoppedPlaced(m, at);
    forall job | job in m.queue[1..] ensures JobOther(Popped(m), job, f) {
      var i :| 0 <= i < |m.queue[1..]| && m.queue[1..][i] == job;
      assert m.queue[i + 1] == job;
      assert JobPlaced(m, at, m.queue[i + 1]);
    }
  }

  /** What the top frame of a queued fiber is. */
  lemma TakenTop(m: Machine, at: map<nat, Where>, f: nat)
    requires at.Keys == m.fibers.Keys && Scopes(m) && Closings(m, at) && f in m.fibers && (at[f].Queued? || at[f].Waiting? || at[f].NotBegun?)
    ensures m.fibers[f].frames != [] ==> !m.fibers[f].frames[0].Leaving? && m.fibers[f].frames[0].scope in m.scopes
    ensures IsClosing(m.fibers[f]) && at[f].Queued? ==>
              m.scopes[m.fibers[f].frames[0].scope].closer.None? && m.scopes[m.fibers[f].frames[0].scope].children == []
    ensures IsClosing(m.fibers[f]) ==> !at[f].NotBegun?
    ensures IsClosing(m.fibers[f]) ==> m.fibers[f].holds > 0
    ensures IsClosing(m.fibers[f]) && at[f].Waiting? ==> at[f].wait in m.waits && m.waits[at[f].wait].closing
  {
    assert FramesOk(m, f) && ClosingOk(m, at, f);
  }

  /** A forked fiber begins. */
  lemma BegunInv(m: Machine, at: map<nat, Where>, f: nat)
    requires Inv(m, at) && m.queue != [] && m.queue[0] == Begin(f) && m.current.None?
    ensures f in m.fibers && at[f] == NotBegun && !m.fibers[f].ended
    ensures forall i :: 0 <= i < |Popped(m).queue| ==> Popped(m).queue[i] != Begin(f)
    ensures Inv(Popped(m), at) && Inv(GoesOn(Popped(m), f), at[f := Current]) && Keeps(m, GoesOn(Popped(m), f)) && Runs(GoesOn(Popped(m), f), at[f := Current], f)
  {
    hide Scopes, Closings, Keeps, Nested;
    assert JobPlaced(m, at, m.queue[0]);
    var p := Popped(m);
    PoppedInv(m, at);
    PlacedApart(p, at);
    BegunIdle(m, at, f);
    TakenTop(m, at, f);
    GoesOnPlaced(p, at, f);
    GoesOnScopes(p, f);
    GoesOnKeeps(p, f);
    GoesOnClosings(p, at, f);
    GoesOnNested(p, f);
    PoppedKeeps(m, GoesOn(p, f));
  }

  lemma BegunIdle(m: Machine, at: map<nat, Where>, f: nat)
    requires Placed(m, at) && m.queue != [] && m.queue[0] == Begin(f) && m.current.None?
    ensures f in m.fibers && Idle(Popped(m), f) && !m.fibers[f].ended && m.fibers[f].wait.None?
  {
    assert JobPlaced(m, at, m.queue[0]);
    assert FiberPlaced(m, at, f);
    assert forall v: nat :: m.fibers[f].wait == Some(v) ==> at[f] == Waiting(v);
    forall v | v in m.waits && m.waits[v].fiber == f ensures !m.waits[v].live {
      assert WaitPlaced(m, at, v);
    }
    PoppedPlaced(m, at);
    forall job | job in m.queue[1..] ensures JobOther(Popped(m), job, f) {
      var i :| 0 <= i < |m.queue[1..]| && m.queue[1..][i] == job;
      assert m.queue[i + 1] == job;
      assert JobPlaced(m, at, m.queue[i + 1]);
    }
  }

  // ---------- a continuation is resumed once ----------

  /** The continuation of wait `w` has been taken. */
  function Unchained(m: Machine, w: nat): Machine
    requires w in m.waits
  {
    m.(waits := m.waits[w := m.waits[w].(chain := false)])
  }

  lemma UnchainedInv(m: Machine, at: map<nat, Where>, w: nat)
    requires Inv(m, at) && w in m.waits && m.waits[w].fiber in m.fibers && at[m.waits[w].fiber] == Current
    ensures Inv(Unchained(m, w), at) && Keeps(m, Unchained(m, w))
  {
    hide Scopes, Closings, Keeps, Nested;
    var m' := Unchained(m, w);
    PlacedApart(m, at);
    UnchainedPlaced(m, at, w);
    ScopesFrame(m, m');
    NestedFrame(m, m');
    UnchainedClosings(m, at, w);
    KeepsSame(m, m');
  }

  lemma UnchainedPlaced(m: Machine, at: map<nat, Where>, w: nat)
    requires Placed(m, at) && w in m.waits && m.waits[w].fiber in m.fibers && at[m.waits[w].fiber] == Current
    ensures Placed(Unchained(m, w), at)
  {
    var m' := Unchained(m, w);
    forall f | f in m'.fibers ensures FiberPlaced(m', at, f) {
      assert FiberPlaced(m, at, f);
    }
    forall v | v in m'.waits ensures WaitPlaced(m', at, v) {
      assert WaitPlaced(m, at, v);
    }
    forall i | 0 <= i < |m'.queue| ensures JobPlaced(m', at, m'.queue[i]) {
      assert JobPlaced(m, at, m.queue[i]);
    }
  }

  lemma UnchainedClosings(m: Machine, at: map<nat, Where>, w: nat)
    requires at.Keys == m.fibers.Keys && Closings(m, at) && w in m.waits
    ensures Closings(Unchained(m, w), at)
  {
    var m' := Unchained(m, w);
    forall g | g in m'.fibers ensures ClosingOk(m', at, g) {
      assert ClosingOk(m, at, g);
    }
    forall i | 0 <= i < |m'.queue| ensures ClosingJob(m', m'.queue[i]) {
      assert ClosingJob(m, m.queue[i]);
    }
  }

  /** The continuation of wait `w` goes on. */
  function Resumed(m: Machine, w: nat): Machine
    requires w in m.waits && m.waits[w].fiber in m.fibers
  {
    Unchained(GoesOn(m, m.waits[w].fiber), w)
  }

  // ---------- a fairness yield comes back ----------

  function Unlisted(m: Machine, w: nat): Machine
    requires w in m.waits && m.waits[w].fiber in m.fibers
  {
    m.(waits := m.waits[w := m.waits[w].(live := false)], fibers := m.fibers[m.waits[w].fiber := m.fibers[m.waits[w].fiber].(wait := None)])
  }

  /** Taking a live wait that is not a scope's. */
  lemma UnlistedInv(m: Machine, at: map<nat, Where>, w: nat)
    requires Inv(m, at) && w in m.waits && m.waits[w].live && !m.waits[w].closing && m.current.None?
    ensures m.waits[w].fiber in m.fibers
    ensures var f := m.waits[w].fiber;
            Inv(GoesOn(Unlisted(m, w), f), at[f := Current]) && Keeps(m, GoesOn(Unlisted(m, w), f)) && Runs(GoesOn(Unlisted(m, w), f), at[f := Current], f)
  {
    hide Scopes, Closings, Keeps, Nested;
    PlacedApart(m, at);
    assert WaitPlaced(m, at, w);
    var f := m.waits[w].fiber;
    TakenTop(m, at, f);
    NotClosingTop(m, at, f, w);
    UnlistedPlaced(m, at, w);
    UnlistedScopes(m, w);
    UnlistedClosings(m, at, w);
    NestedFrame(m, GoesOn(Unlisted(m, w), f));
  }

  lemma NotClosingTop(m: Machine, at: map<nat, Where>, f: nat, w: nat)
    requires at.Keys == m.fibers.Keys && Closings(m, at) && f in m.fibers && at[f] == Waiting(w) && w in m.waits && !m.waits[w].closing
    requires IsClosing(m.fibers[f]) ==> m.fibers[f].frames[0].scope in m.scopes
    ensures !IsClosing(m.fibers[f])
  {
    assert ClosingOk(m, at, f);
  }

  lemma UnlistedPlaced(m: Machine, at: map<nat, Where>, w: nat)
    requires Placed(m, at) && w in m.waits && m.waits[w].live && m.current.None?
    ensures m.waits[w].fiber in m.fibers && !m.fibers[m.waits[w].fiber].ended && Placed(GoesOn(Unlisted(m, w), m.waits[w].fiber), at[m.waits[w].fiber := Current])
  {
    assert WaitPlaced(m, at, w);
    var f := m.waits[w].fiber;
    assert FiberPlaced(m, at, f);
    forall v | v in m.waits && m.waits[v].fiber == f && v != w ensures !m.waits[v].live {
      assert WaitPlaced(m, at, v);
    }
    forall job | job in m.queue ensures JobOther(m, job, f) {
      JobAt(m, at, job);
    }
    PlacedApart(m, at);
    MovedPlaced(m, GoesOn(Unlisted(m, w), f), at, f, Current);
  }

  lemma UnlistedScopes(m: Machine, w: nat)
    requires Scopes(m) && w in m.waits && m.waits[w].fiber in m.fibers && !IsClosing(m.fibers[m.waits[w].fiber])
    ensures Scopes(GoesOn(Unlisted(m, w), m.waits[w].fiber)) && Keeps(m, GoesOn(Unlisted(m, w), m.waits[w].fiber))
  {
    hide Scopes, Keeps;
    ScopesFrame(m, GoesOn(Unlisted(m, w), m.waits[w].fiber));
    KeepsSame(m, GoesOn(Unlisted(m, w), m.waits[w].fiber));
  }

  lemma UnlistedClosings(m: Machine, at: map<nat, Where>, w: nat)
    requires at.Keys == m.fibers.Keys && Closings(m, at) && w in m.waits && m.waits[w].fiber in m.fibers && !IsClosing(m.fibers[m.waits[w].fiber])
    ensures Closings(GoesOn(Unlisted(m, w), m.waits[w].fiber), at[m.waits[w].fiber := Current])
  {
    var f := m.waits[w].fiber;
    var m', at' := GoesOn(Unlisted(m, w), f), at[f := Current];
    forall g | g in m'.fibers ensures ClosingOk(m', at', g) {
      assert ClosingOk(m, at, g);
    }
    forall i | 0 <= i < |m'.queue| ensures ClosingJob(m', m'.queue[i]) {
      assert ClosingJob(m, m.queue[i]);
    }
  }

  // ---------- interruptions and holds of a fiber ----------

  /** A fiber's interruptions or holds change, nothing else. */
  lemma FiberOnly(m: Machine, at: map<nat, Where>, f: nat, fiber: Fiber)
    requires Inv(m, at) && f in m.fibers && InterruptionsOk(m.scopes, f, fiber) && (IsClosing(fiber) ==> fiber.holds > 0) && (WillUnwind(m.fibers[f]) ==> WillUnwind(fiber))
    requires fiber == m.fibers[f].(pending := fiber.pending, unwinds := fiber.unwinds, unwinding := fiber.unwinding, holds := fiber.holds, watchers := fiber.watchers)
    ensures Inv(m.(fibers := m.fibers[f := fiber]), at) && Keeps(m, m.(fibers := m.fibers[f := fiber]))
  {
    hide Scopes, Closings, Keeps, Placed, Nested;
    var m' := m.(fibers := m.fibers[f := fiber]);
    PlacedApart(m, at);
    PlacedFrame(m, m', at);
    ScopesFrame(m, m');
    NestedFrame(m, m');
    KeepsSame(m, m');
    FiberOnlyClosings(m, at, f, fiber);
  }

  lemma FiberOnlyClosings(m: Machine, at: map<nat, Where>, f: nat, fiber: Fiber)
    requires at.Keys == m.fibers.Keys && Closings(m, at) && f in m.fibers && fiber.frames == m.fibers[f].frames && (IsClosing(fiber) ==> fiber.holds > 0)
    ensures Closings(m.(fibers := m.fibers[f := fiber]), at)
  {
    var m' := m.(fibers := m.fibers[f := fiber]);
    forall g | g in m'.fibers ensures ClosingOk(m', at, g) {
      assert ClosingOk(m, at, g);
    }
    forall i | 0 <= i < |m'.queue| ensures ClosingJob(m', m'.queue[i]) {
      assert ClosingJob(m, m.queue[i]);
    }
  }
}
