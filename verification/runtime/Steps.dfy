/** The single steps of the scheduler, each with what it keeps. */
module Steps {
  import opened Wrappers
  import opened Fibers
  import opened Scheduler

  /** Fiber `f` runs its own code: no scope of its is just over. */
  ghost predicate Runs(m: Machine, at: map<nat, Where>, f: nat) {
    f in m.fibers && f in at && at[f] == Current && !m.fibers[f].ended && (m.fibers[f].frames == [] || m.fibers[f].frames[0].Body?)
  }

  /** Only fiber `f` moved, and no wait or job of another changed. */
  lemma MovedPlaced(m: Machine, m': Machine, at: map<nat, Where>, f: nat, place: Where)
    requires Placed(m, at) && f in m'.fibers && m.fibers.Keys + {f} == m'.fibers.Keys
    requires forall g :: g in m.fibers && g != f ==> m'.fibers[g].ended == m.fibers[g].ended && m'.fibers[g].wait == m.fibers[g].wait
    requires forall g :: g in m.fibers && g != f ==> (m'.current == Some(g) <==> m.current == Some(g))
    requires forall w :: w in m.waits ==> w in m'.waits && m'.waits[w].fiber == m.waits[w].fiber && (m.waits[w].fiber != f ==> m'.waits[w] == m.waits[w])
    requires forall w :: w in m'.waits ==> (w in m.waits || m'.waits[w].fiber == f) && (m'.waits[w].fiber == f && m'.waits[w].live ==> place == Waiting(w))
    requires m'.current.Some? ==> m'.current.value in m'.fibers
    requires FiberPlaced(m', at[f := place], f)
    requires forall i :: 0 <= i < |m'.queue| ==> m'.queue[i] in m.queue || JobPlaced(m', at[f := place], m'.queue[i])
    requires forall job :: job in m'.queue && JobPlaced(m, at, job) ==> JobOther(m, job, f) || JobPlaced(m', at[f := place], job)
    requires JobsApart(m'.queue)
    ensures Placed(m', at[f := place])
  {
    var at' := at[f := place];
    forall g | g in m'.fibers ensures FiberPlaced(m', at', g) {
      if g != f {
        assert FiberPlaced(m, at, g);
      }
    }
    forall w | w in m'.waits ensures WaitPlaced(m', at', w) {
      if w in m.waits {
        assert WaitPlaced(m, at, w);
      }
    }
    forall i | 0 <= i < |m'.queue| ensures JobPlaced(m', at', m'.queue[i]) {
      var job := m'.queue[i];
      if job in m.queue {
        JobAt(m, at, job);
        if JobOther(m, job, f) {
          MovedJob(m, m', at, f, place, job);
        }
      }
    }
  }

  lemma MovedJob(m: Machine, m': Machine, at: map<nat, Where>, f: nat, place: Where, job: Job)
    requires JobPlaced(m, at, job) && JobOther(m, job, f)
    requires forall w :: w in m.waits ==> w in m'.waits && m'.waits[w].fiber == m.waits[w].fiber
    ensures JobPlaced(m', at[f := place], job)
  {
  }

  /** A job that has nothing to do with fiber `f`. */
  ghost predicate JobOther(m: Machine, job: Job, f: nat) {
    match job
    case Begin(g) => g != f
    case Go(w) => true
    case _ => job.wait in m.waits && m.waits[job.wait].fiber != f
  }

  ghost predicate JobsApart(queue: seq<Job>) {
    forall i, j {:trigger queue[i], queue[j]} :: 0 <= i < j < |queue| ==>
      (Resumes(queue[i]).Some? ==> Resumes(queue[i]) != Resumes(queue[j])) && (queue[i].Begin? ==> queue[i] != queue[j])
  }

  lemma ApartAppend(queue: seq<Job>, job: Job)
    requires JobsApart(queue)
    requires forall i {:trigger queue[i]} :: 0 <= i < |queue| ==> (Resumes(job).Some? ==> Resumes(queue[i]) != Resumes(job)) && (job.Begin? ==> queue[i] != job)
    ensures JobsApart(queue + [job])
  {
  }

  lemma PlacedApart(m: Machine, at: map<nat, Where>)
    requires Placed(m, at)
    ensures JobsApart(m.queue) && at.Keys == m.fibers.Keys
  {
  }

  lemma JobAt(m: Machine, at: map<nat, Where>, job: Job)
    requires Placed(m, at) && job in m.queue
    ensures JobPlaced(m, at, job)
  {
    var i :| 0 <= i < |m.queue| && m.queue[i] == job;
    assert JobPlaced(m, at, m.queue[i]);
  }

  lemma RunningPlaced(m: Machine, at: map<nat, Where>, f: nat)
    requires Placed(m, at) && f in m.fibers && f in at && at[f] == Current
    ensures FiberPlaced(m, at, f) && m.current == Some(f)
  {
    assert FiberPlaced(m, at, f);
  }

  // ---------- opening a scope ----------

  function Opened(m: Machine, f: nat, s: nat): Machine
    requires f in m.fibers
  {
    var fiber := m.fibers[f];
    m.(scopes := m.scopes[s := Scope(f, fiber.scopes, [], None, false, None, false, None)],
       fibers := m.fibers[f := fiber.(frames := [Body(s)] + fiber.frames, scopes := fiber.scopes + 1)])
  }

  lemma OpenedInv(m: Machine, at: map<nat, Where>, f: nat, s: nat)
    requires Inv(m, at) && Runs(m, at, f) && s !in m.scopes
    ensures Inv(Opened(m, f, s), at) && Keeps(m, Opened(m, f, s))
  {
    hide Placed, Scopes, Closings, Keeps, Nested;
    PlacedApart(m, at);
    OpenedNested(m, f, s);
    PlacedFrame(m, Opened(m, f, s), at);
    OpenedScopes(m, at, f, s);
    OpenedKeeps(m, f, s);
    OpenedClosings(m, at, f, s);
  }

  lemma OpenedNested(m: Machine, f: nat, s: nat)
    requires Nested(m) && f in m.fibers && s !in m.scopes
    ensures Nested(Opened(m, f, s))
  {
    var m' := Opened(m, f, s);
    assert m'.fibers[f].frames[0].scope == s;
    forall t | t in m'.scopes ensures ScopeOpen(m', t) {
      if t != s {
        assert ScopeOpen(m, t);
        if m.scopes[t].fiber == f && !m.scopes[t].ended {
          var i :| 0 <= i < |m.fibers[f].frames| && m.fibers[f].frames[i].scope == t;
          assert m'.fibers[f].frames[i + 1].scope == t;
        }
      }
    }
    forall g | g in m'.fibers ensures FiberNested(m', g) {
      assert FiberNested(m, g);
    }
  }

  lemma OpenedScopes(m: Machine, at: map<nat, Where>, f: nat, s: nat)
    requires Scopes(m) && Runs(m, at, f) && s !in m.scopes
    ensures Scopes(Opened(m, f, s))
  {
    NoChildrenYet(m, s);
    hide ScopeOk, FramesOk;
    var m' := Opened(m, f, s);
    forall t | t in m'.scopes ensures ScopeOk(m', t) {
      if t != s {
        assert ScopeOk(m, t);
      }
      OpenedScope(m, at, f, s, t);
    }
    forall g | g in m'.fibers ensures FramesOk(m', g) {
      assert FramesOk(m, g);
      OpenedFrames(m, at, f, s, g);
    }
  }

  lemma OpenedScope(m: Machine, at: map<nat, Where>, f: nat, s: nat, t: nat)
    requires Runs(m, at, f) && s !in m.scopes && forall c :: c in m.fibers ==> m.fibers[c].scope != Some(s)
    requires t == s || (t in m.scopes && ScopeOk(m, t))
    ensures ScopeOk(Opened(m, f, s), t)
  {
  }

  lemma OpenedFrames(m: Machine, at: map<nat, Where>, f: nat, s: nat, g: nat)
    requires Runs(m, at, f) && s !in m.scopes && g in m.fibers && FramesOk(m, g)
    ensures FramesOk(Opened(m, f, s), g)
  {
  }

  lemma OpenedKeeps(m: Machine, f: nat, s: nat)
    requires f in m.fibers && s !in m.scopes
    ensures Keeps(m, Opened(m, f, s))
  {
  }

  lemma NoChildrenYet(m: Machine, s: nat)
    requires Scopes(m) && s !in m.scopes
    ensures forall c :: c in m.fibers ==> m.fibers[c].scope != Some(s)
  {
    forall c | c in m.fibers ensures m.fibers[c].scope != Some(s) {
      assert FramesOk(m, c);
    }
  }

  lemma OpenedClosings(m: Machine, at: map<nat, Where>, f: nat, s: nat)
    requires at.Keys == m.fibers.Keys && Closings(m, at) && Scopes(m) && Runs(m, at, f) && s !in m.scopes
    ensures Closings(Opened(m, f, s), at)
  {
    var m' := Opened(m, f, s);
    forall g | g in m'.fibers ensures ClosingOk(m', at, g) {
      assert ClosingOk(m, at, g) && FramesOk(m, g);
    }
    forall i | 0 <= i < |m'.queue| ensures ClosingJob(m', m'.queue[i]) {
      assert ClosingJob(m, m.queue[i]);
    }
  }

  // ---------- forking ----------

  const FRESH := Fiber(None, false, None, UNIT, 0, 0, [], [], false, None, [], [])

  function Forked(m: Machine, s: nat, c: nat): Machine
    requires s in m.scopes
  {
    m.(fibers := m.fibers[c := FRESH.(scope := Some(s))], scopes := m.scopes[s := m.scopes[s].(children := m.scopes[s].children + [c])],
       queue := m.queue + [Begin(c)])
  }

  lemma ForkedInv(m: Machine, at: map<nat, Where>, s: nat, c: nat)
    requires Inv(m, at) && s in m.scopes && !m.scopes[s].closed && c !in m.fibers && m.scopes[s].fiber < c
    ensures Inv(Forked(m, s, c), at[c := NotBegun]) && Keeps(m, Forked(m, s, c))
  {
    hide Scopes, Closings, Keeps, Nested;
    PlacedApart(m, at);
    ForkedNested(m, s, c);
    ForkedPlaced(m, at, s, c);
    ForkedScopes(m, s, c);
    ForkedKeeps(m, s, c);
    ForkedClosings(m, at, s, c);
  }

  lemma ForkedPlaced(m: Machine, at: map<nat, Where>, s: nat, c: nat)
    requires Placed(m, at) && s in m.scopes && c !in m.fibers
    ensures Placed(Forked(m, s, c), at[c := NotBegun])
  {
    var m', at' := Forked(m, s, c), at[c := NotBegun];
    forall w | w in m.waits ensures m.waits[w].fiber != c {
      assert WaitPlaced(m, at, w);
    }
    forall job | job in m.queue ensures JobOther(m, job, c) {
      JobAt(m, at, job);
    }
    PlacedApart(m, at);
    forall i | 0 <= i < |m.queue| ensures m.queue[i] != Begin(c) {
      assert JobOther(m, m.queue[i], c);
    }
    ApartAppend(m.queue, Begin(c));
    MovedPlaced(m, m', at, c, NotBegun);
  }

  lemma ForkedNested(m: Machine, s: nat, c: nat)
    requires Nested(m) && s in m.scopes && c !in m.fibers && m.scopes[s].fiber < c
    ensures Nested(Forked(m, s, c))
  {
    hide OnFrames;
    var m' := Forked(m, s, c);
    forall t | t in m'.scopes ensures ScopeOpen(m', t) {
      assert ScopeOpen(m, t);
    }
    forall g | g in m'.fibers ensures FiberNested(m', g) {
      if g != c {
        assert FiberNested(m, g);
      }
    }
  }

  lemma ForkedScopes(m: Machine, s: nat, c: nat)
    requires Scopes(m) && s in m.scopes && !m.scopes[s].closed && c !in m.fibers
    ensures Scopes(Forked(m, s, c))
  {
    hide ScopeOk, FramesOk;
    var m' := Forked(m, s, c);
    forall t | t in m'.scopes ensures ScopeOk(m', t) {
      assert ScopeOk(m, t);
      ForkedScope(m, s, c, t);
    }
    forall g | g in m'.fibers ensures FramesOk(m', g) {
      if g != c {
        assert FramesOk(m, g);
      }
      ForkedFrames(m, s, c, g);
    }
  }

  lemma ForkedScope(m: Machine, s: nat, c: nat, t: nat)
    requires s in m.scopes && !m.scopes[s].closed && c !in m.fibers && t in m.scopes && ScopeOk(m, t)
    ensures ScopeOk(Forked(m, s, c), t)
  {
    assert c !in m.scopes[t].children;
  }

  lemma ForkedFrames(m: Machine, s: nat, c: nat, g: nat)
    requires s in m.scopes && c !in m.fibers && (g == c || (g in m.fibers && FramesOk(m, g)))
    ensures FramesOk(Forked(m, s, c), g)
  {
  }

  lemma ForkedKeeps(m: Machine, s: nat, c: nat)
    requires s in m.scopes && !m.scopes[s].closed && c !in m.fibers
    ensures Keeps(m, Forked(m, s, c))
  {
  }

  lemma ForkedClosings(m: Machine, at: map<nat, Where>, s: nat, c: nat)
    requires at.Keys == m.fibers.Keys && Closings(m, at) && Scopes(m) && s in m.scopes && !m.scopes[s].closed && c !in m.fibers
    ensures Closings(Forked(m, s, c), at[c := NotBegun])
  {
    var m', at' := Forked(m, s, c), at[c := NotBegun];
    forall g | g in m'.fibers ensures ClosingOk(m', at', g) {
      if g != c {
        assert ClosingOk(m, at, g) && FramesOk(m, g);
        ClosingElsewhere(m, g, s);
      }
    }
    forall i | 0 <= i < |m'.queue| ensures ClosingJob(m', m'.queue[i]) {
      if i < |m.queue| {
        assert ClosingJob(m, m.queue[i]);
      }
    }
  }

  /** A fiber that waits for the children of a scope waits at a closed one. */
  lemma ClosingElsewhere(m: Machine, g: nat, s: nat)
    requires Scopes(m) && g in m.fibers && FramesOk(m, g) && s in m.scopes && !m.scopes[s].closed
    ensures IsClosing(m.fibers[g]) ==> m.fibers[g].frames[0].scope != s
  {
    assert ScopeOk(m, s);
  }

  // ---------- suspending ----------

  function SuspendedOn(m: Machine, f: nat, w: nat): Machine
    requires f in m.fibers
  {
    m.(waits := m.waits[w := Wait(f, true, false, true)], fibers := m.fibers[f := m.fibers[f].(wait := Some(w))], current := None)
  }

  lemma SuspendedInv(m: Machine, at: map<nat, Where>, f: nat, w: nat)
    requires Inv(m, at) && Runs(m, at, f) && w !in m.waits
    ensures Inv(SuspendedOn(m, f, w), at[f := Waiting(w)]) && Keeps(m, SuspendedOn(m, f, w))
  {
    hide Scopes, Closings, Keeps, Nested;
    PlacedApart(m, at);
    NestedFrame(m, SuspendedOn(m, f, w));
    SuspendedPlaced(m, at, f, w);
    SuspendedScopes(m, f, w);
    SuspendedClosings(m, at, f, w);
  }

  lemma SuspendedPlaced(m: Machine, at: map<nat, Where>, f: nat, w: nat)
    requires Placed(m, at) && f in m.fibers && f in at && at[f] == Current && w !in m.waits
    ensures Placed(SuspendedOn(m, f, w), at[f := Waiting(w)])
  {
    RunningPlaced(m, at, f);
    forall v | v in m.waits && m.waits[v].live ensures m.waits[v].fiber != f {
      assert WaitPlaced(m, at, v);
    }
    forall job | job in m.queue ensures JobOther(m, job, f) {
      JobAt(m, at, job);
    }
    PlacedApart(m, at);
    MovedPlaced(m, SuspendedOn(m, f, w), at, f, Waiting(w));
  }

  lemma SuspendedScopes(m: Machine, f: nat, w: nat)
    requires Scopes(m) && f in m.fibers && w !in m.waits
    ensures Scopes(SuspendedOn(m, f, w)) && Keeps(m, SuspendedOn(m, f, w))
  {
    hide Scopes, Keeps;
    ScopesFrame(m, SuspendedOn(m, f, w));
    KeepsSame(m, SuspendedOn(m, f, w));
  }

  lemma SuspendedClosings(m: Machine, at: map<nat, Where>, f: nat, w: nat)
    requires at.Keys == m.fibers.Keys && Closings(m, at) && Placed(m, at) && Runs(m, at, f) && w !in m.waits
    ensures Closings(SuspendedOn(m, f, w), at[f := Waiting(w)])
  {
    var m', at' := SuspendedOn(m, f, w), at[f := Waiting(w)];
    forall g | g in m'.fibers ensures ClosingOk(m', at', g) {
      assert ClosingOk(m, at, g) && FiberPlaced(m, at, g);
    }
    forall i | 0 <= i < |m'.queue| ensures ClosingJob(m', m'.queue[i]) {
      assert ClosingJob(m, m.queue[i]) && JobPlaced(m, at, m.queue[i]);
    }
  }
}
