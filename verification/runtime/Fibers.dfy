/** The records of the structured-concurrency scheduler: fibers, scopes, waits, jobs. */
module Fibers {
  import opened Wrappers
  import opened Sequences

  /** Values, as far as the scheduler makes them: `Exit` is what awaiting a fiber gives. */
  datatype Val = Plain(n: int) | Exit(cause: Option<Cause>, result: Val)

  const UNIT: Val := Plain(0)

  /** What a continuation goes on with; a thrown interruption is told from other defects. */
  datatype Input = Value(value: Val) | Failure(error: int) | Defect(defect: int) | Interruption

  /** The defect "fiber was interrupted". */
  const FIBER_WAS_INTERRUPTED: int := -1

  /** How a fiber ended when not with a value. */
  datatype Cause = Fail(error: int) | Die(defect: int) | Interrupted

  /** What is interrupted: the whole fiber, or the body of one of the scopes on it. */
  datatype Target = Whole | Inside(scope: nat)

  /** The scopes open on a fiber: one whose body is running, one whose body is over and that is about to
      end or wait, or one waiting for its children. */
  datatype Frame = Body(scope: nat) | Leaving(scope: nat) | Closing(scope: nat, input: Input)

  /** What a fiber that waits for another's end wants of it. */
  datatype Verb = Joins | Awaits | Interrupts
  datatype Watch = Watch(wait: nat, verb: Verb)

  datatype Fiber = Fiber(scope: Option<nat>, ended: bool, cause: Option<Cause>, result: Val, holds: nat, scopes: nat,
                         pending: seq<Target>, unwinds: seq<nat>, unwinding: bool,
                         wait: Option<nat>, watchers: seq<Watch>, frames: seq<Frame>)

  /** `body` is how its body ended, once it has. */
  datatype Scope = Scope(fiber: nat, depth: nat, children: seq<nat>, first: Option<Cause>, closed: bool, body: Option<Input>,
                         ended: bool, closer: Option<nat>)

  /** A suspended continuation: `live` while on the run's list, `chain` until it is resumed, `closing` when
      a scope waits with it for its children. */
  datatype Wait = Wait(fiber: nat, live: bool, closing: bool, chain: bool)

  datatype Job = Begin(fiber: nat) | Resume(wait: nat, input: Input) | Go(wait: nat) | Interrupt(wait: nat) | RootThrow(wait: nat)

  /** Where a fiber's main continuation is. */
  datatype Where = NotBegun | Current | Waiting(wait: nat) | Queued(wait: nat) | Over

  datatype Machine = Machine(fibers: map<nat, Fiber>, scopes: map<nat, Scope>, waits: map<nat, Wait>, queue: seq<Job>,
                             current: Option<nat>, over: bool)

  function CauseOf(input: Input): Option<Cause> {
    match input
    case Value(_) => None
    case Failure(e) => Some(Fail(e))
    case Defect(d) => Some(Die(d))
    case Interruption => Some(Interrupted)
  }

  function ResultOf(input: Input): Val {
    if input.Value? then input.value else UNIT
  }

  /** `em_watch_settle`: what a fiber that ended so gives to one that watched it.  Joining gives its result;
      an interrupted one is a defect to the joining fiber, and a failed one interrupts it. */
  function Settle(verb: Verb, cause: Option<Cause>, result: Val): Input {
    match verb
    case Joins => if cause.None? then Value(result) else if cause.value == Interrupted then Defect(FIBER_WAS_INTERRUPTED) else Interruption
    case Awaits => Value(Exit(cause, if cause.None? then result else UNIT))
    case Interrupts => Value(UNIT)
  }

  /** Whether the cause counts as a failure of the scope. */
  predicate Counts(cause: Option<Cause>) {
    cause.Some? && cause.value != Interrupted
  }

  predicate IsClosing(f: Fiber) {
    f.frames != [] && f.frames[0].Closing?
  }

  /** `em_interrupting`: an interruption would be delivered now. */
  predicate Interrupting(f: Fiber) {
    f.holds == 0 && (f.pending != [] || f.unwinding || f.unwinds != [])
  }

  /** `target` is already being interrupted, or asked to be. */
  predicate AskedTo(f: Fiber, target: Target) {
    f.unwinding || target in f.pending || (target.Inside? && target.scope in f.unwinds)
  }

  /** The whole fiber is asked to unwind, or does so already. */
  predicate WillUnwind(f: Fiber) {
    f.unwinding || Whole in f.pending
  }

  predicate Thrown(input: Input) {
    input.Defect? || input.Interruption?
  }

  // ---------- invariants ----------

  /** The wait a job resumes for good (a fairness job only tries). */
  function Resumes(job: Job): Option<nat> {
    match job
    case Resume(w, _) => Some(w)
    case Interrupt(w) => Some(w)
    case RootThrow(w) => Some(w)
    case _ => None
  }

  /** Fiber `f` is where `at` says, and nowhere else. */
  ghost predicate FiberPlaced(m: Machine, at: map<nat, Where>, f: nat)
    requires f in m.fibers && f in at
  {
    && (m.fibers[f].ended <==> at[f] == Over)
    && (m.current == Some(f) <==> at[f] == Current)
    && (forall w: nat :: m.fibers[f].wait == Some(w) <==> at[f] == Waiting(w))
    && (at[f].Waiting? ==> at[f].wait in m.waits && m.waits[at[f].wait].fiber == f && m.waits[at[f].wait].live && m.waits[at[f].wait].chain)
    && (at[f].Queued? ==> at[f].wait in m.waits && m.waits[at[f].wait].fiber == f && !m.waits[at[f].wait].live && m.waits[at[f].wait].chain)
  }

  /** A live wait is the one its fiber waits on. */
  ghost predicate WaitPlaced(m: Machine, at: map<nat, Where>, w: nat)
    requires w in m.waits
  {
    m.waits[w].fiber in at && (m.waits[w].live ==> at[m.waits[w].fiber] == Waiting(w))
  }

  /** A job is for a fiber that is waiting for it. */
  ghost predicate JobPlaced(m: Machine, at: map<nat, Where>, job: Job) {
    match job
    case Begin(f) => f in at && at[f] == NotBegun
    case Go(w) => w in m.waits
    case _ => job.wait in m.waits && m.waits[job.wait].fiber in at && at[m.waits[job.wait].fiber] == Queued(job.wait)
  }

  /** Every continuation is in one place: running, on the wait list, in the queue, or over; and no two
      jobs resume the same one. */
  ghost predicate Placed(m: Machine, at: map<nat, Where>) {
    && at.Keys == m.fibers.Keys
    && (m.current.Some? ==> m.current.value in m.fibers)
    && (forall f {:trigger FiberPlaced(m, at, f)} :: f in m.fibers ==> FiberPlaced(m, at, f))
    && (forall w {:trigger WaitPlaced(m, at, w)} :: w in m.waits ==> WaitPlaced(m, at, w))
    && (forall i {:trigger JobPlaced(m, at, m.queue[i])} :: 0 <= i < |m.queue| ==> JobPlaced(m, at, m.queue[i]))
    && (forall i, j {:trigger m.queue[i], m.queue[j]} :: 0 <= i < j < |m.queue| ==>
          (Resumes(m.queue[i]).Some? ==> Resumes(m.queue[i]) != Resumes(m.queue[j])) &&
          (m.queue[i].Begin? ==> m.queue[i] != m.queue[j]))
  }

  /** Interruptions of a fiber: each once, pending or unwinding. */
  ghost predicate InterruptionsOk(scopes: map<nat, Scope>, f: nat, fiber: Fiber) {
    && Distinct(fiber.pending) && Distinct(fiber.unwinds)
    && (forall s :: s in fiber.unwinds ==> Inside(s) !in fiber.pending && BodyRuns(scopes, f, s))
    && (forall t :: t in fiber.pending && t.Inside? ==> BodyRuns(scopes, f, t.scope))
  }

  /** The body of scope `s` is not over; it is fiber `f`'s. */
  predicate BodyRuns(scopes: map<nat, Scope>, f: nat, s: nat) {
    s in scopes && scopes[s].fiber == f && scopes[s].body.None?
  }

  /** The frames of a fiber: only the innermost may have its body over; each scope once and on this
      fiber, as deep as it says. */
  ghost predicate FramesOk(m: Machine, f: nat)
    requires f in m.fibers
  {
    var frames := m.fibers[f].frames;
    && InterruptionsOk(m.scopes, f, m.fibers[f]) && (m.fibers[f].scope.Some? ==> m.fibers[f].scope.value in m.scopes)
    && (m.fibers[f].ended ==> frames == []) && m.fibers[f].scopes == |frames| - (if frames == [] || frames[0].Body? then 0 else 1)
    && (forall i {:trigger frames[i]} :: 0 <= i < |frames| ==>
          frames[i].scope in m.scopes && m.scopes[frames[i].scope].fiber == f && !m.scopes[frames[i].scope].ended &&
          m.scopes[frames[i].scope].depth == |frames| - 1 - i &&
          (i > 0 ==> frames[i].Body?) && (frames[i].Body? <==> m.scopes[frames[i].scope].body.None?) &&
          (frames[i].Closing? ==> m.scopes[frames[i].scope].body == Some(frames[i].input)))
    && (forall i, j {:trigger frames[i], frames[j]} :: 0 <= i < j < |frames| ==> frames[i].scope != frames[j].scope)
  }

  /** A body that is just over is running; a fiber that has not begun has no scopes. */
  ghost predicate LeavingOk(f: Fiber, place: Where) {
    (f.frames != [] && f.frames[0].Leaving? ==> place == Current) && (place == NotBegun ==> f.frames == [])
  }

  /** A fiber that waits for the children of a scope is held, so that nothing but the end of the last
      child resumes it. */
  ghost predicate ClosingOk(m: Machine, at: map<nat, Where>, f: nat)
    requires f in m.fibers && f in at
  {
    && LeavingOk(m.fibers[f], at[f])
    && ((at[f].Waiting? || at[f].Queued?) && at[f].wait in m.waits && m.waits[at[f].wait].closing ==> IsClosing(m.fibers[f]))
    && (IsClosing(m.fibers[f]) && m.fibers[f].frames[0].scope in m.scopes ==>
      var s := m.scopes[m.fibers[f].frames[0].scope];
      && m.fibers[f].holds > 0
      && ((at[f].Waiting? && s.closer == Some(at[f].wait)) || (at[f].Queued? && s.closer == None && s.children == []))
      && at[f].wait in m.waits && m.waits[at[f].wait].closing)
  }

  /** The children of a scope are exactly the fibers forked in it that have not ended. */
  ghost predicate ScopeOk(m: Machine, s: nat)
    requires s in m.scopes
  {
    var scope := m.scopes[s];
    && scope.fiber in m.fibers && Distinct(scope.children)
    && (forall c {:trigger c in scope.children} :: c in scope.children <==> c in m.fibers && m.fibers[c].scope == Some(s) && !m.fibers[c].ended)
    && (scope.body.Some? ==> scope.closed) && (scope.first.Some? ==> scope.closed && scope.first.value != Interrupted)
    && (scope.ended ==> scope.body.Some? && scope.children == [] && scope.closer == None)
    && (scope.closer.Some? ==> scope.closer.value in m.waits && m.waits[scope.closer.value].fiber == scope.fiber)
    && (scope.closer.Some? || (scope.body.Some? && !scope.ended) ==>
          m.fibers[scope.fiber].frames != [] && !m.fibers[scope.fiber].frames[0].Body? && m.fibers[scope.fiber].frames[0].scope == s)
    && (scope.closer.Some? ==> IsClosing(m.fibers[scope.fiber]))
  }

  /** Scope `s` is one of the frames. */
  ghost predicate OnFrames(frames: seq<Frame>, s: nat) {
    exists i :: 0 <= i < |frames| && frames[i].scope == s
  }

  /** A scope is open on its fiber until it has ended. */
  ghost predicate ScopeOpen(m: Machine, s: nat)
    requires s in m.scopes
  {
    m.scopes[s].fiber in m.fibers && (m.scopes[s].ended || OnFrames(m.fibers[m.scopes[s].fiber].frames, s))
  }

  /** Fiber 0 is the root; any other was forked in a scope of an older one. */
  ghost predicate FiberNested(m: Machine, f: nat)
    requires f in m.fibers
  {
    if m.fibers[f].scope.None? then f == 0 else m.fibers[f].scope.value in m.scopes && m.scopes[m.fibers[f].scope.value].fiber < f
  }

  /** Fibers and their scopes are a tree. */
  ghost predicate Nested(m: Machine) {
    && (forall s {:trigger ScopeOpen(m, s)} :: s in m.scopes ==> ScopeOpen(m, s))
    && (forall f {:trigger FiberNested(m, f)} :: f in m.fibers ==> FiberNested(m, f))
  }

  ghost predicate Scopes(m: Machine) {
    && (forall s {:trigger ScopeOk(m, s)} :: s in m.scopes ==> ScopeOk(m, s))
    && (forall f {:trigger FramesOk(m, f)} :: f in m.fibers ==> FramesOk(m, f))
  }

  ghost predicate Closings(m: Machine, at: map<nat, Where>)
    requires at.Keys == m.fibers.Keys
  {
    && (forall f {:trigger ClosingOk(m, at, f)} :: f in m.fibers ==> ClosingOk(m, at, f))
    && (forall i {:trigger m.queue[i]} :: 0 <= i < |m.queue| ==> ClosingJob(m, m.queue[i]))
  }

  /** A wait for children is only resumed by the end of the last one. */
  ghost predicate ClosingJob(m: Machine, job: Job) {
    !job.Begin? && job.wait in m.waits && m.waits[job.wait].closing ==> job.Resume?
  }

  /** Nobody waits for children that are all gone. */
  ghost predicate NoLostWakeup(m: Machine) {
    forall s {:trigger m.scopes[s]} :: s in m.scopes && m.scopes[s].closer.Some? ==> m.scopes[s].children != []
  }

  // ---------- what every step keeps ----------

  ghost predicate FiberKept(m: Machine, m': Machine, f: nat)
    requires f in m.fibers
  {
    && f in m'.fibers && m'.fibers[f].scope == m.fibers[f].scope && (m.fibers[f].ended ==> m'.fibers[f].ended && m'.fibers[f].cause == m.fibers[f].cause && m'.fibers[f].result == m.fibers[f].result)
    && (WillUnwind(m.fibers[f]) ==> WillUnwind(m'.fibers[f]))
  }

  ghost predicate ScopeKept(m: Machine, m': Machine, s: nat)
    requires s in m.scopes
  {
    && s in m'.scopes && m'.scopes[s].fiber == m.scopes[s].fiber && (m.scopes[s].closed ==> m'.scopes[s].closed)
    && (m.scopes[s].first.Some? ==> m'.scopes[s].first == m.scopes[s].first) && (m.scopes[s].body.Some? ==> m'.scopes[s].body == m.scopes[s].body)
    && (m.scopes[s].ended ==> m'.scopes[s].ended && m'.scopes[s].first == m.scopes[s].first)
  }

  /** A wait that has left the list does not come back, nor does a continuation that was resumed. */
  ghost predicate WaitKept(m: Machine, m': Machine, w: nat)
    requires w in m.waits
  {
    && w in m'.waits && m'.waits[w].fiber == m.waits[w].fiber && m'.waits[w].closing == m.waits[w].closing
    && (m'.waits[w].live ==> m.waits[w].live) && (m'.waits[w].chain ==> m.waits[w].chain)
  }

  ghost predicate FiberNew(m: Machine, m': Machine, f: nat)
    requires f in m'.fibers
  {
    f !in m.fibers && m'.fibers[f].scope.Some? && m'.fibers[f].scope.value in m.scopes ==> !m.scopes[m'.fibers[f].scope.value].closed
  }

  /** Fibers stay in their scope, and stay ended and interrupted; scopes stay closed and ended, a closed scope gains no
      child, and how its body ended and its first failure stay. */
  ghost predicate Keeps(m: Machine, m': Machine) {
    && (forall f {:trigger FiberKept(m, m', f)} :: f in m.fibers ==> FiberKept(m, m', f))
    && (forall s {:trigger ScopeKept(m, m', s)} :: s in m.scopes ==> ScopeKept(m, m', s))
    && (forall f {:trigger FiberNew(m, m', f)} :: f in m'.fibers ==> FiberNew(m, m', f))
    && (forall w {:trigger WaitKept(m, m', w)} :: w in m.waits ==> WaitKept(m, m', w))
  }

  lemma KeepsTransitive(a: Machine, b: Machine, c: Machine)
    requires Keeps(a, b) && Keeps(b, c)
    ensures Keeps(a, c)
  {
    forall f | f in a.fibers ensures FiberKept(a, c, f) {
      assert FiberKept(a, b, f) && FiberKept(b, c, f);
    }
    forall s | s in a.scopes ensures ScopeKept(a, c, s) {
      assert ScopeKept(a, b, s) && ScopeKept(b, c, s);
    }
    forall w | w in a.waits ensures WaitKept(a, c, w) {
      assert WaitKept(a, b, w) && WaitKept(b, c, w);
    }
    forall f | f in c.fibers ensures FiberNew(a, c, f) {
      assert FiberNew(b, c, f);
      if f in b.fibers {
        assert FiberNew(a, b, f) && FiberKept(b, c, f);
      } else if c.fibers[f].scope.Some? && c.fibers[f].scope.value in a.scopes {
        assert ScopeKept(a, b, c.fibers[f].scope.value);
      }
    }
  }

  lemma KeepsSame(m: Machine, m': Machine)
    requires m'.scopes == m.scopes && m'.fibers.Keys == m.fibers.Keys && forall w :: w in m.waits ==> WaitKept(m, m', w)
    requires forall f :: f in m.fibers ==> m'.fibers[f].scope == m.fibers[f].scope && m'.fibers[f].ended == m.fibers[f].ended && m'.fibers[f].cause == m.fibers[f].cause && m'.fibers[f].result == m.fibers[f].result && (WillUnwind(m.fibers[f]) ==> WillUnwind(m'.fibers[f]))
    ensures Keeps(m, m')
  {
  }
}
