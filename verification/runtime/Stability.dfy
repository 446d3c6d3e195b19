/** What every step of a run keeps, beside where continuations and scopes are: failures in order,
    wakeups, numbers of new records. */
module Stability {
  import opened Wrappers
  import opened Sequences
  import opened Fibers
  import opened Scheduler
  import opened Steps
  import opened Leaving
  import opened Jobs

  /** The first of the failures a scope has seen. */
  function FirstOf(failures: seq<Cause>): Option<Cause> {
    if failures == [] then None else Some(failures[0])
  }

  ghost function FailuresOf(failures: map<nat, seq<Cause>>, s: nat): seq<Cause> {
    if s in failures then failures[s] else []
  }

  /** The outcome of a scope whose body is done: its first failure, or how the body ended. */
  function Outcome(scope: Scope): Input
    requires scope.body.Some?
  {
    if scope.first.None? then scope.body.value
    else
      match scope.first.value
      case Fail(e) => Failure(e)
      case Die(d) => Defect(d)
      case Interrupted => Interruption
  }

  lemma OutcomeIs(m: Machine, failures: map<nat, seq<Cause>>, s: nat)
    requires Logged(m, failures) && s in m.scopes && m.scopes[s].body.Some?
    ensures Outcome(m.scopes[s]) == Result(FailuresOf(failures, s), m.scopes[s].body.value)
  {
    assert LoggedAt(m, failures, s);
  }

  ghost predicate LoggedAt(m: Machine, failures: map<nat, seq<Cause>>, s: nat)
    requires s in m.scopes
  {
    m.scopes[s].first == FirstOf(FailuresOf(failures, s))
  }

  ghost predicate Logged(m: Machine, failures: map<nat, seq<Cause>>) {
    forall s {:trigger LoggedAt(m, failures, s)} :: s in m.scopes ==> LoggedAt(m, failures, s)
  }

  lemma LoggedSame(m: Machine, m': Machine, failures: map<nat, seq<Cause>>)
    requires Logged(m, failures) && forall s :: s in m'.scopes ==> s in m.scopes && m'.scopes[s].first == m.scopes[s].first
    ensures Logged(m', failures)
  {
    forall s | s in m'.scopes ensures LoggedAt(m', failures, s) {
      assert LoggedAt(m, failures, s);
    }
  }

  /** A failure more: the first stays, unless it is this one. */
  lemma LoggedMore(m: Machine, m': Machine, failures: map<nat, seq<Cause>>, s: nat, cause: Cause)
    requires Logged(m, failures) && s in m.scopes && m'.scopes.Keys == m.scopes.Keys
    requires forall t :: t in m.scopes && t != s ==> m'.scopes[t].first == m.scopes[t].first
    requires m'.scopes[s].first == if m.scopes[s].first.Some? then m.scopes[s].first else Some(cause)
    ensures Logged(m', failures[s := FailuresOf(failures, s) + [cause]])
  {
    var after := failures[s := FailuresOf(failures, s) + [cause]];
    forall t | t in m'.scopes ensures LoggedAt(m', after, t) {
      assert LoggedAt(m, failures, t);
    }
  }

  /** What comes out of a scope: its first failure, or how its body ended. */
  function Result(failures: seq<Cause>, body: Input): Input {
    if failures == [] then body
    else
      match failures[0]
      case Fail(e) => Failure(e)
      case Die(d) => Defect(d)
      case Interrupted => Interruption
  }

  // ---------- nothing is forgotten ----------

  /** What is to go on from the queue is in the queue. */
  ghost predicate HasJob(queue: seq<Job>, place: Where, f: nat) {
    match place
    case NotBegun => Begin(f) in queue
    case Queued(w) => exists job :: job in queue && Resumes(job) == Some(w)
    case _ => true
  }

  ghost predicate Scheduled(m: Machine, at: map<nat, Where>) {
    forall f {:trigger HasJob(m.queue, at[f], f)} :: f in at ==> HasJob(m.queue, at[f], f)
  }

  /** Only fiber `c` may be missing from the queue. */
  ghost predicate ScheduledBut(m: Machine, at: map<nat, Where>, c: nat) {
    forall f {:trigger HasJob(m.queue, at[f], f)} :: f in at && f != c ==> HasJob(m.queue, at[f], f)
  }

  lemma ScheduledKept(m: Machine, at: map<nat, Where>, m': Machine, at': map<nat, Where>)
    requires Scheduled(m, at) && forall job :: job in m.queue ==> job in m'.queue
    requires forall f :: f in at' ==> (f in at && at'[f] == at[f]) || HasJob(m'.queue, at'[f], f)
    ensures Scheduled(m', at')
  {
    forall f | f in at' ensures HasJob(m'.queue, at'[f], f) {
      if f in at && at'[f] == at[f] {
        assert HasJob(m.queue, at[f], f);
      }
    }
  }

  lemma ScheduledSpare(m: Machine, at: map<nat, Where>, c: nat)
    requires Scheduled(m, at)
    ensures ScheduledBut(m, at, c)
  {
  }

  /** The first job is taken by fiber `f`. */
  lemma ScheduledTaken(m: Machine, at: map<nat, Where>, f: nat)
    requires Inv(m, at) && Scheduled(m, at) && m.queue != []
    requires m.queue[0] == Begin(f) || m.queue[0].Go? || (!m.queue[0].Begin? && m.queue[0].wait in m.waits && m.waits[m.queue[0].wait].fiber == f)
    ensures ScheduledBut(Popped(m), at, f)
    ensures m.queue[0].Go? ==> Scheduled(Popped(m), at)
  {
    forall g | g in at && (g != f || m.queue[0].Go?) ensures HasJob(m.queue[1..], at[g], g) {
      assert HasJob(m.queue, at[g], g) && FiberPlaced(m, at, g);
      assert m.queue == [m.queue[0]] + m.queue[1..];
    }
  }

  lemma ScheduledOn(m: Machine, at: map<nat, Where>, m': Machine, f: nat, place: Where)
    requires ScheduledBut(m, at, f) && m'.queue == m.queue && HasJob(m.queue, place, f)
    ensures Scheduled(m', at[f := place])
  {
    var at' := at[f := place];
    forall g | g in at' ensures HasJob(m'.queue, at'[g], g) {
      assert g != f ==> HasJob(m.queue, at[g], g);
    }
  }

  /** Interrupting or waking others leaves scopes and running code alone: some waiting continuations
      move to the queue, some fibers have a new interruption. */
  ghost predicate Quiet(m: Machine, at: map<nat, Where>, m': Machine, at': map<nat, Where>) {
    && m'.scopes == m.scopes && m'.current == m.current && m'.over == m.over && m'.fibers.Keys == m.fibers.Keys && m'.waits.Keys == m.waits.Keys
    && at.Keys == m.fibers.Keys && at'.Keys == m.fibers.Keys
    && (forall f {:trigger QuietFiber(m, at, m', at', f)} :: f in m.fibers ==> QuietFiber(m, at, m', at', f))
    && (forall job :: job in m.queue ==> job in m'.queue)
    && Keeps(m, m')
  }

  ghost predicate QuietFiber(m: Machine, at: map<nat, Where>, m': Machine, at': map<nat, Where>, f: nat) {
    && f in m.fibers && f in m'.fibers && f in at && f in at'
    && m'.fibers[f] == m.fibers[f].(pending := m'.fibers[f].pending, wait := m'.fibers[f].wait)
    && (forall t :: t in m.fibers[f].pending ==> t in m'.fibers[f].pending)
    && (at[f].Waiting? || at'[f] == at[f]) && (at[f].Waiting? ==> at'[f] == at[f] || at'[f] == Queued(at[f].wait))
    && (at'[f] == at[f] || HasJob(m'.queue, at'[f], f))
  }

  lemma QuietTransitive(a: Machine, at: map<nat, Where>, b: Machine, bt: map<nat, Where>, c: Machine, ct: map<nat, Where>)
    requires Quiet(a, at, b, bt) && Quiet(b, bt, c, ct)
    ensures Quiet(a, at, c, ct)
  {
    KeepsTransitive(a, b, c);
    forall f | f in a.fibers ensures QuietFiber(a, at, c, ct, f) {
      assert QuietFiber(a, at, b, bt, f) && QuietFiber(b, bt, c, ct, f);
    }
  }

  lemma QuietSelf(m: Machine, at: map<nat, Where>)
    requires at.Keys == m.fibers.Keys
    ensures Quiet(m, at, m, at)
  {
  }

  lemma AskedQuiet(m: Machine, at: map<nat, Where>, f: nat, target: Target)
    requires f in m.fibers && at.Keys == m.fibers.Keys
    ensures Quiet(m, at, Asked(m, f, target), at)
  {
    KeepsSame(m, Asked(m, f, target));
  }

  lemma RequeuedQuiet(m: Machine, at: map<nat, Where>, w: nat, job: Job)
    requires at.Keys == m.fibers.Keys && w in m.waits && m.waits[w].fiber in m.fibers && at[m.waits[w].fiber] == Waiting(w) && Resumes(job) == Some(w)
    ensures Quiet(m, at, Requeued(m, w, job), at[m.waits[w].fiber := Queued(w)])
  {
    KeepsSame(m, Requeued(m, w, job));
    assert job in Requeued(m, w, job).queue;
  }

  /** The failures after a fiber of scope `s` ended. */
  ghost function LoggedFailures(failures: map<nat, seq<Cause>>, s: nat, cause: Option<Cause>): map<nat, seq<Cause>> {
    if Counts(cause) then failures[s := FailuresOf(failures, s) + [cause.value]] else failures
  }

  /** Who ran still runs, but for one. */
  ghost predicate StillRuns(m: Machine, at: map<nat, Where>, m': Machine, at': map<nat, Where>, but: nat) {
    forall g {:trigger Runs(m, at, g)} :: g != but && Runs(m, at, g) ==> Runs(m', at', g)
  }

  ghost predicate AllStillRun(m: Machine, at: map<nat, Where>, m': Machine, at': map<nat, Where>) {
    forall g {:trigger Runs(m, at, g)} :: Runs(m, at, g) ==> Runs(m', at', g)
  }

  ghost predicate StillEnded(m: Machine, m': Machine) {
    forall f :: f in m.fibers && m.fibers[f].ended ==> f in m'.fibers && m'.fibers[f].ended
  }

  lemma KeepsSelf(m: Machine)
    ensures Keeps(m, m)
  {
  }

  lemma WaitsKept(m: Machine, m': Machine, watchers: seq<Watch>)
    requires Keeps(m, m') && forall x :: x in watchers ==> x.wait in m.waits && !m.waits[x.wait].closing
    ensures forall x :: x in watchers ==> x.wait in m'.waits && !m'.waits[x.wait].closing
  {
    forall x | x in watchers ensures x.wait in m'.waits && !m'.waits[x.wait].closing {
      assert WaitKept(m, m', x.wait);
    }
  }

  lemma InvKeys(m: Machine, at: map<nat, Where>)
    requires Inv(m, at)
    ensures at.Keys == m.fibers.Keys
  {
  }

  lemma QuietKeys(m: Machine, at: map<nat, Where>, m': Machine, at': map<nat, Where>)
    requires Quiet(m, at, m', at')
    ensures m'.scopes == m.scopes && m'.fibers.Keys == m.fibers.Keys
  {
  }

  /** A fiber that is not held does not wait for children. */
  lemma HeldByNone(m: Machine, at: map<nat, Where>, f: nat, w: nat)
    requires Inv(m, at) && f in m.fibers && m.fibers[f].holds == 0 && m.fibers[f].wait == Some(w)
    ensures w in m.waits && m.waits[w].live && m.waits[w].fiber == f && !m.waits[w].closing && at[f] == Waiting(w)
  {
    assert FiberPlaced(m, at, f) && ClosingOk(m, at, f) && FramesOk(m, f);
  }

  lemma WaitKnown(m: Machine, at: map<nat, Where>, f: nat)
    requires Inv(m, at) && f in m.fibers
    ensures m.fibers[f].wait.Some? ==> m.fibers[f].wait.value in m.waits
  {
    assert FiberPlaced(m, at, f);
  }

  lemma WaitFiber(m: Machine, at: map<nat, Where>, w: nat)
    requires Inv(m, at)
    ensures w in m.waits ==> m.waits[w].fiber in m.fibers
  {
    assert w in m.waits ==> WaitPlaced(m, at, w);
  }

  lemma WaitFibers(m: Machine, at: map<nat, Where>)
    requires Inv(m, at)
    ensures forall w {:trigger m.waits[w]} :: w in m.waits ==> m.waits[w].fiber in m.fibers
  {
    forall w | w in m.waits ensures m.waits[w].fiber in m.fibers {
      assert WaitPlaced(m, at, w);
    }
  }

  lemma ChildKnown(m: Machine, at: map<nat, Where>, s: nat, c: nat)
    requires Inv(m, at) && s in m.scopes && c in m.scopes[s].children
    ensures c in m.fibers && m.fibers[c].scope == Some(s) && !m.fibers[c].ended
  {
    assert ScopeOk(m, s);
  }

  lemma ScopeFiber(m: Machine, at: map<nat, Where>, s: nat)
    requires Inv(m, at) && s in m.scopes
    ensures m.scopes[s].fiber in m.fibers
  {
    assert ScopeOk(m, s);
  }

  lemma QuietEnded(m: Machine, at: map<nat, Where>, m': Machine, at': map<nat, Where>, f: nat)
    requires Quiet(m, at, m', at') && f in m.fibers
    ensures f in m'.fibers && m'.fibers[f].ended == m.fibers[f].ended
  {
    assert QuietFiber(m, at, m', at', f);
  }

  lemma QuietHolds(m: Machine, at: map<nat, Where>, m': Machine, at': map<nat, Where>, f: nat)
    requires Quiet(m, at, m', at') && f in m.fibers
    ensures f in m'.fibers && m'.fibers[f].holds == m.fibers[f].holds && m'.fibers[f].unwinding == m.fibers[f].unwinding
  {
    assert QuietFiber(m, at, m', at', f);
  }

  lemma QuietUnwinds(m: Machine, at: map<nat, Where>, m': Machine, at': map<nat, Where>)
    requires Quiet(m, at, m', at')
    ensures forall f :: f in m.fibers && WillUnwind(m.fibers[f]) ==> f in m'.fibers && WillUnwind(m'.fibers[f])
  {
    forall f | f in m.fibers && WillUnwind(m.fibers[f]) ensures f in m'.fibers && WillUnwind(m'.fibers[f]) {
      assert QuietFiber(m, at, m', at', f);
    }
  }

  lemma QuietChildren(m: Machine, at: map<nat, Where>, m': Machine, at': map<nat, Where>, s: nat)
    requires Quiet(m, at, m', at') && s in m.scopes && ChildrenAsked(m, s)
    ensures s in m'.scopes && ChildrenAsked(m', s)
  {
    QuietUnwinds(m, at, m', at');
  }

  // ---------- changes around one scope ----------

  /** Like `Quiet`, but scope `s` may have failed. */
  ghost predicate Spread(m: Machine, at: map<nat, Where>, m': Machine, at': map<nat, Where>, s: nat) {
    && s in m.scopes && m'.scopes.Keys == m.scopes.Keys && (forall t :: t in m.scopes && t != s ==> m'.scopes[t] == m.scopes[t])
    && m'.scopes[s] == m.scopes[s].(first := m'.scopes[s].first, closed := m'.scopes[s].closed)
    && m'.current == m.current && m'.over == m.over && m'.fibers.Keys == m.fibers.Keys && m'.waits.Keys == m.waits.Keys
    && at.Keys == m.fibers.Keys && at'.Keys == m.fibers.Keys
    && (forall f {:trigger QuietFiber(m, at, m', at', f)} :: f in m.fibers ==> QuietFiber(m, at, m', at', f))
    && (forall job :: job in m.queue ==> job in m'.queue)
    && Keeps(m, m')
  }

  lemma SpreadSelf(m: Machine, at: map<nat, Where>, s: nat)
    requires at.Keys == m.fibers.Keys && s in m.scopes
    ensures Spread(m, at, m, at, s) && Keeps(m, m)
  {
  }

  lemma QuietSpread(m: Machine, at: map<nat, Where>, m': Machine, at': map<nat, Where>, s: nat)
    requires Quiet(m, at, m', at') && s in m.scopes
    ensures Spread(m, at, m', at', s)
  {
  }

  lemma BlamedSpread(m: Machine, at: map<nat, Where>, s: nat, cause: Cause)
    requires at.Keys == m.fibers.Keys && s in m.scopes && m.scopes[s].first.None? && !m.scopes[s].ended
    ensures Spread(m, at, Blamed(m, s, cause), at, s)
  {
  }

  lemma SpreadTransitive(a: Machine, at: map<nat, Where>, b: Machine, bt: map<nat, Where>, c: Machine, ct: map<nat, Where>, s: nat)
    requires Spread(a, at, b, bt, s) && Spread(b, bt, c, ct, s)
    ensures Spread(a, at, c, ct, s) && Keeps(a, c)
  {
    KeepsTransitive(a, b, c);
    forall f | f in a.fibers ensures QuietFiber(a, at, c, ct, f) {
      assert QuietFiber(a, at, b, bt, f) && QuietFiber(b, bt, c, ct, f);
    }
  }

  lemma SpreadKeeps(m: Machine, at: map<nat, Where>, m': Machine, at': map<nat, Where>, s: nat)
    requires Spread(m, at, m', at', s)
    ensures Keeps(m, m') && s in m'.scopes
  {
  }

  // ---------- watchers, identities, wakeups ----------

  ghost predicate WatchersKnown(m: Machine, f: nat)
    requires f in m.fibers
  {
    forall x :: x in m.fibers[f].watchers ==> x.wait in m.waits && !m.waits[x.wait].closing
  }

  /** Fibers are watched by ordinary waits. */
  ghost predicate Watched(m: Machine) {
    forall f {:trigger WatchersKnown(m, f)} :: f in m.fibers ==> WatchersKnown(m, f)
  }

  /** The children of scope `s` are all asked to unwind. */
  ghost predicate ChildrenAsked(m: Machine, s: nat)
    requires s in m.scopes
  {
    forall c :: c in m.scopes[s].children ==> c in m.fibers && WillUnwind(m.fibers[c])
  }

  /** The children left in a closed scope unwind. */
  ghost predicate Asking(m: Machine) {
    forall s {:trigger ChildrenAsked(m, s)} :: s in m.scopes && m.scopes[s].closed ==> ChildrenAsked(m, s)
  }

  /** Only the children of `s` may still have to be asked. */
  ghost predicate AskingBut(m: Machine, s: nat) {
    forall t {:trigger ChildrenAsked(m, t)} :: t in m.scopes && t != s && m.scopes[t].closed ==> ChildrenAsked(m, t)
  }

  /** Nothing is to be asked of a new child of an open scope. */
  lemma AskingKept(m: Machine, m': Machine)
    requires Asking(m) && Keeps(m, m')
    requires forall s {:trigger m'.scopes[s]} :: s in m'.scopes && m'.scopes[s].closed ==>
               s in m.scopes && m.scopes[s].closed && forall c :: c in m'.scopes[s].children ==> c in m.scopes[s].children
    ensures Asking(m')
  {
    forall s | s in m'.scopes && m'.scopes[s].closed ensures ChildrenAsked(m', s) {
      assert ChildrenAsked(m, s);
      forall c | c in m'.scopes[s].children ensures c in m'.fibers && WillUnwind(m'.fibers[c]) {
        assert FiberKept(m, m', c);
      }
    }
  }

  lemma AskingButKept(m: Machine, m': Machine, s: nat)
    requires AskingBut(m, s) && Keeps(m, m')
    requires forall t {:trigger m'.scopes[t]} :: t in m'.scopes && t != s && m'.scopes[t].closed ==>
               t in m.scopes && m.scopes[t].closed && forall c :: c in m'.scopes[t].children ==> c in m.scopes[t].children
    ensures AskingBut(m', s)
  {
    forall t | t in m'.scopes && t != s && m'.scopes[t].closed ensures ChildrenAsked(m', t) {
      assert ChildrenAsked(m, t);
      forall c | c in m'.scopes[t].children ensures c in m'.fibers && WillUnwind(m'.fibers[c]) {
        assert FiberKept(m, m', c);
      }
    }
  }

  lemma AskingAgain(m: Machine, s: nat)
    requires AskingBut(m, s) && s in m.scopes && ChildrenAsked(m, s)
    ensures Asking(m)
  {
  }

  lemma ClosedAsked(m: Machine, s: nat)
    requires Asking(m) && s in m.scopes && m.scopes[s].closed
    ensures ChildrenAsked(m, s)
  {
  }

  lemma AskingSpare(m: Machine, s: nat)
    requires Asking(m)
    ensures AskingBut(m, s)
  {
  }

  lemma AskingAfter(m: Machine, m': Machine, s: nat)
    requires Asking(m) && AskingBut(m', s) && s in m'.scopes && (m' == m || ChildrenAsked(m', s))
    ensures Asking(m')
  {
  }

  /** New records get new numbers. */
  ghost predicate Numbered(m: Machine, fibers: nat, scopes: nat, waits: nat) {
    (forall f :: f in m.fibers ==> f < fibers) && (forall s :: s in m.scopes ==> s < scopes) && (forall w :: w in m.waits ==> w < waits)
  }

  lemma Unused(m: Machine, fibers: nat, scopes: nat, waits: nat)
    requires Numbered(m, fibers, scopes, waits)
    ensures waits !in m.waits && scopes !in m.scopes && fibers !in m.fibers
  {
  }

  lemma BelowNext(m: Machine, fibers: nat, scopes: nat, waits: nat)
    requires Numbered(m, fibers, scopes, waits)
    ensures forall w :: w in m.waits ==> w < waits
  {
  }

  lemma WatchersOf(m: Machine, f: nat)
    requires Watched(m) && f in m.fibers
    ensures forall x :: x in m.fibers[f].watchers ==> x.wait in m.waits && !m.waits[x.wait].closing
  {
    assert WatchersKnown(m, f);
  }

  lemma NumberedKept(m: Machine, m': Machine, fibers: nat, scopes: nat, waits: nat)
    requires Numbered(m, fibers, scopes, waits) && m'.fibers.Keys == m.fibers.Keys && m'.scopes.Keys == m.scopes.Keys && m'.waits.Keys == m.waits.Keys
    ensures Numbered(m', fibers, scopes, waits)
  {
  }

  lemma WatchedKept(m: Machine, m': Machine)
    requires Watched(m) && Keeps(m, m') && m'.fibers.Keys == m.fibers.Keys && forall f :: f in m.fibers ==> m'.fibers[f].watchers == m.fibers[f].watchers
    ensures Watched(m')
  {
    forall f | f in m'.fibers ensures WatchersKnown(m', f) {
      assert WatchersKnown(m, f);
      forall x | x in m'.fibers[f].watchers ensures x.wait in m'.waits && !m'.waits[x.wait].closing {
        assert WaitKept(m, m', x.wait);
      }
    }
  }

  lemma WatchedGone(m: Machine, c: nat, s: nat, input: Input)
    requires Watched(m) && c in m.fibers && s in m.scopes
    ensures Watched(Gone(m, c, s, input))
  {
    forall f | f in m.fibers ensures WatchersKnown(Gone(m, c, s, input), f) {
      assert WatchersKnown(m, f);
    }
  }

  /** Only scope `s` may have lost its last child. */
  ghost predicate NoLostBut(m: Machine, s: nat) {
    forall t {:trigger m.scopes[t]} :: t in m.scopes && t != s && m.scopes[t].closer.Some? ==> m.scopes[t].children != []
  }

  lemma NoLostGone(m: Machine, c: nat, s: nat, input: Input)
    requires NoLostWakeup(m) && c in m.fibers && s in m.scopes
    ensures NoLostBut(Gone(m, c, s, input), s)
  {
  }

  lemma NoLostAgain(m: Machine, s: nat)
    requires NoLostBut(m, s) && s in m.scopes && (m.scopes[s].closer.Some? ==> m.scopes[s].children != [])
    ensures NoLostWakeup(m)
  {
  }

  lemma GoneAll(m: Machine, at: map<nat, Where>, failures: map<nat, seq<Cause>>, c: nat, s: nat, input: Input)
    requires Inv(m, at) && Logged(m, failures) && Asking(m) && ScheduledBut(m, at, c) && CanEnd(m, at, c) && !m.fibers[c].ended && m.fibers[c].scope == Some(s)
    ensures s in m.scopes && !m.scopes[s].ended
    ensures var m', at' := Gone(m, c, s, input), at[c := Over];
            Inv(m', at') && Keeps(m, m') && Logged(m', failures) && Asking(m') && Scheduled(m', at') && StillRuns(m, at, m', at', c)
  {
    hide Scopes, Placed, Closings, Keeps, Logged, Nested, Asking;
    InvKeys(m, at);
    GoneScopes(m, c, s, input);
    var m' := Gone(m, c, s, input);
    GoneKeeps(m, c, s, input);
    GonePlaced(m, at, c, s, input);
    GoneClosings(m, at, c, s, input);
    NestedFrame(m, m');
    LoggedSame(m, m', failures);
    AskingKept(m, m');
    ScheduledOn(m, at, m', c, Over);
  }

  lemma SpreadStable(m: Machine, at: map<nat, Where>, m': Machine, at': map<nat, Where>, s: nat, fibers: nat, scopes: nat, waits: nat)
    requires Spread(m, at, m', at', s) && Watched(m) && NoLostBut(m, s) && AskingBut(m, s) && Numbered(m, fibers, scopes, waits) && Scheduled(m, at)
    ensures Watched(m') && NoLostBut(m', s) && AskingBut(m', s) && Numbered(m', fibers, scopes, waits) && Scheduled(m', at') && Keeps(m, m')
    ensures s in m'.scopes && m'.scopes[s].children == m.scopes[s].children && m'.scopes[s].closer == m.scopes[s].closer
    ensures m'.current == m.current && m'.fibers.Keys == m.fibers.Keys
    ensures forall f :: f in m.fibers ==> m'.fibers[f].ended == m.fibers[f].ended
    ensures forall w :: w in m.waits ==> w in m'.waits && m'.waits[w].closing == m.waits[w].closing
    ensures AllStillRun(m, at, m', at')
  {
    forall f | f in m.fibers ensures m'.fibers[f].watchers == m.fibers[f].watchers && m'.fibers[f].ended == m.fibers[f].ended {
      assert QuietFiber(m, at, m', at', f);
    }
    forall w | w in m.waits ensures w in m'.waits && m'.waits[w].closing == m.waits[w].closing {
      assert WaitKept(m, m', w);
    }
    forall g | Runs(m, at, g) ensures Runs(m', at', g) {
      assert QuietFiber(m, at, m', at', g);
    }
    WatchedKept(m, m');
    AskingButKept(m, m', s);
    forall f | f in at' ensures at'[f] == at[f] || HasJob(m'.queue, at'[f], f) {
      assert QuietFiber(m, at, m', at', f);
    }
    ScheduledKept(m, at, m', at');
    NumberedKept(m, m', fibers, scopes, waits);
  }

  lemma QuietStable(m: Machine, at: map<nat, Where>, m': Machine, at': map<nat, Where>, fibers: nat, scopes: nat, waits: nat)
    requires Quiet(m, at, m', at') && Watched(m) && NoLostWakeup(m) && Numbered(m, fibers, scopes, waits)
    ensures Watched(m') && NoLostWakeup(m') && Numbered(m', fibers, scopes, waits) && Keeps(m, m')
    ensures (Scheduled(m, at) ==> Scheduled(m', at')) && (Asking(m) ==> Asking(m')) && forall s {:trigger AskingBut(m', s)} :: AskingBut(m, s) ==> AskingBut(m', s)
    ensures m'.current == m.current && m'.fibers.Keys == m.fibers.Keys && m'.scopes == m.scopes
    ensures forall f :: f in m.fibers ==> m'.fibers[f].ended == m.fibers[f].ended && m'.fibers[f].frames == m.fibers[f].frames
    ensures forall w :: w in m.waits ==> w in m'.waits && m'.waits[w].closing == m.waits[w].closing
    ensures AllStillRun(m, at, m', at')
  {
    forall f | f in m.fibers ensures m'.fibers[f].watchers == m.fibers[f].watchers && m'.fibers[f].ended == m.fibers[f].ended && m'.fibers[f].frames == m.fibers[f].frames {
      assert QuietFiber(m, at, m', at', f);
    }
    forall w | w in m.waits ensures w in m'.waits && m'.waits[w].closing == m.waits[w].closing {
      assert WaitKept(m, m', w);
    }
    forall g | Runs(m, at, g) ensures Runs(m', at', g) {
      assert QuietFiber(m, at, m', at', g);
    }
    WatchedKept(m, m');
    if Scheduled(m, at) {
      forall f | f in at' ensures at'[f] == at[f] || HasJob(m'.queue, at'[f], f) {
        assert QuietFiber(m, at, m', at', f);
      }
      ScheduledKept(m, at, m', at');
    }
    if Asking(m) {
      AskingKept(m, m');
    }
    forall s {:trigger AskingBut(m', s)} | AskingBut(m, s) ensures AskingBut(m', s) {
      AskingButKept(m, m', s);
    }
    NumberedKept(m, m', fibers, scopes, waits);
  }

  lemma WokenAll(m: Machine, at: map<nat, Where>, failures: map<nat, seq<Cause>>, s: nat, fibers: nat, scopes: nat, waits: nat)
    requires Inv(m, at) && Logged(m, failures) && s in m.scopes && m.scopes[s].closer.Some? && m.scopes[s].children == []
    requires Watched(m) && NoLostBut(m, s) && Asking(m) && Scheduled(m, at) && Numbered(m, fibers, scopes, waits)
    ensures var w := m.scopes[s].closer.value;
            && w in m.waits && m.waits[w].fiber in m.fibers && at[m.waits[w].fiber] == Waiting(w) && m.waits[w].live
            && var m', at' := Woken(m, s), at[m.waits[w].fiber := Queued(w)];
               && Inv(m', at') && Logged(m', failures) && Keeps(m, m') && Watched(m') && NoLostBut(m', s) && Asking(m') && Scheduled(m', at') && Numbered(m', fibers, scopes, waits)
               && AllStillRun(m, at, m', at')
               && m'.scopes[s].closer.None? && m'.current == m.current && m'.fibers.Keys == m.fibers.Keys && m'.over == m.over
               && (forall f :: f in m.fibers ==> m'.fibers[f].ended == m.fibers[f].ended)
               && (forall v :: v in m.waits ==> v in m'.waits && m'.waits[v].closing == m.waits[v].closing)
  {
    hide Keeps, Inv;
    WokenInv(m, at, s);
    var m' := Woken(m, s);
    LoggedSame(m, m', failures);
    WatchedKept(m, m');
    assert Resume(m.scopes[s].closer.value, Value(UNIT)) in m'.queue;
    ScheduledKept(m, at, m', at[m.waits[m.scopes[s].closer.value].fiber := Queued(m.scopes[s].closer.value)]);
    AskingKept(m, m');
    NumberedKept(m, m', fibers, scopes, waits);
  }

  /** The fiber is asked to unwind the body of scope `s`, or does so already. */
  predicate AskedFor(f: Fiber, s: nat) {
    Inside(s) in f.pending || s in f.unwinds
  }

  function Nth(f: Fiber, i: nat): nat
    requires i < |f.pending| + |f.unwinds|
  {
    if i < |f.pending| then (if f.pending[i].Inside? then f.pending[i].scope else 0) else f.unwinds[i - |f.pending|]
  }

  lemma NthAsked(scopes: map<nat, Scope>, g: nat, f: Fiber, i: nat)
    requires InterruptionsOk(scopes, g, f) && Whole !in f.pending && i < |f.pending| + |f.unwinds|
    ensures AskedFor(f, Nth(f, i)) && BodyRuns(scopes, g, Nth(f, i))
  {
    if i < |f.pending| {
      assert f.pending[i] in f.pending;
    } else {
      assert f.unwinds[i - |f.pending|] in f.unwinds;
    }
  }

  lemma AskedNth(f: Fiber, s: nat) returns (i: nat)
    requires AskedFor(f, s)
    ensures i < |f.pending| + |f.unwinds| && Nth(f, i) == s
  {
    if Inside(s) in f.pending {
      i :| 0 <= i < |f.pending| && f.pending[i] == Inside(s);
    } else {
      var j :| 0 <= j < |f.unwinds| && f.unwinds[j] == s;
      i := |f.pending| + j;
    }
  }

  lemma DeliveredOk(scopes: map<nat, Scope>, g: nat, f: Fiber, target: Target)
    requires InterruptionsOk(scopes, g, f) && (target.Inside? ==> AskedFor(f, target.scope) && BodyRuns(scopes, g, target.scope))
    ensures target.Inside? ==>
              InterruptionsOk(scopes, g, f.(pending := Without(f.pending, target), unwinds := if target.scope in f.unwinds then f.unwinds else f.unwinds + [target.scope]))
    ensures InterruptionsOk(scopes, g, f.(unwinding := true, pending := [], unwinds := []))
  {
    WithoutDistinct(f.pending, target);
  }

  lemma FiberAll(m: Machine, at: map<nat, Where>, failures: map<nat, seq<Cause>>, f: nat, fiber: Fiber)
    requires Inv(m, at) && Logged(m, failures) && NoLostWakeup(m) && Watched(m) && Asking(m) && Scheduled(m, at)
    requires f in m.fibers && InterruptionsOk(m.scopes, f, fiber) && (IsClosing(fiber) ==> fiber.holds > 0) && (WillUnwind(m.fibers[f]) ==> WillUnwind(fiber))
    requires fiber == m.fibers[f].(pending := fiber.pending, unwinds := fiber.unwinds, unwinding := fiber.unwinding, holds := fiber.holds)
    ensures var m' := m.(fibers := m.fibers[f := fiber]);
            Inv(m', at) && Logged(m', failures) && NoLostWakeup(m') && Watched(m') && Asking(m') && Scheduled(m', at) && Keeps(m, m')
  {
    hide Inv, Keeps, Logged;
    var m' := m.(fibers := m.fibers[f := fiber]);
    FiberOnly(m, at, f, fiber);
    LoggedSame(m, m', failures);
    WatchedKept(m, m');
    ScheduledKept(m, at, m', at);
    AskingKept(m, m');
  }

  lemma OpenedAll(m: Machine, at: map<nat, Where>, failures: map<nat, seq<Cause>>, f: nat, s: nat)
    requires Inv(m, at) && Logged(m, failures) && NoLostWakeup(m) && Watched(m) && Asking(m) && Scheduled(m, at) && Runs(m, at, f) && s !in m.scopes
    ensures var m' := Opened(m, f, s);
            Inv(m', at) && Logged(m', failures[s := []]) && NoLostWakeup(m') && Watched(m') && Asking(m') && Scheduled(m', at) && Keeps(m, m')
  {
    hide Inv, Keeps;
    var m', after := Opened(m, f, s), failures[s := []];
    OpenedInv(m, at, f, s);
    forall t | t in m'.scopes ensures LoggedAt(m', after, t) {
      if t != s {
        assert LoggedAt(m, failures, t);
      }
    }
    WatchedKept(m, m');
    ScheduledKept(m, at, m', at);
    AskingKept(m, m');
  }

  lemma ForkedAll(m: Machine, at: map<nat, Where>, failures: map<nat, seq<Cause>>, s: nat, c: nat)
    requires Inv(m, at) && Logged(m, failures) && NoLostWakeup(m) && Watched(m) && Asking(m) && Scheduled(m, at) && s in m.scopes && !m.scopes[s].closed && c !in m.fibers && m.scopes[s].fiber < c
    ensures var m', at' := Forked(m, s, c), at[c := NotBegun];
            Inv(m', at') && Logged(m', failures) && NoLostWakeup(m') && Watched(m') && Asking(m') && Scheduled(m', at') && Keeps(m, m')
  {
    hide Inv, Keeps;
    var m' := Forked(m, s, c);
    ForkedInv(m, at, s, c);
    assert Begin(c) in m'.queue;
    ScheduledKept(m, at, m', at[c := NotBegun]);
    AskingKept(m, m');
    forall t | t in m'.scopes ensures LoggedAt(m', failures, t) {
      assert LoggedAt(m, failures, t);
    }
    forall f | f in m'.fibers ensures WatchersKnown(m', f) {
      if f != c {
        assert WatchersKnown(m, f);
      }
    }
  }

  lemma SuspendedAll(m: Machine, at: map<nat, Where>, failures: map<nat, seq<Cause>>, f: nat, w: nat)
    requires Inv(m, at) && Logged(m, failures) && NoLostWakeup(m) && Watched(m) && Asking(m) && Scheduled(m, at) && Runs(m, at, f) && w !in m.waits
    ensures var m', at' := SuspendedOn(m, f, w), at[f := Waiting(w)];
            Inv(m', at') && Logged(m', failures) && NoLostWakeup(m') && Watched(m') && Asking(m') && Scheduled(m', at') && Keeps(m, m')
  {
    hide Inv, Keeps, Logged;
    var m' := SuspendedOn(m, f, w);
    SuspendedInv(m, at, f, w);
    LoggedSame(m, m', failures);
    WatchedKept(m, m');
    ScheduledKept(m, at, m', at[f := Waiting(w)]);
    AskingKept(m, m');
  }

  lemma StaysKnown(m: Machine, m': Machine, f: nat)
    requires Keeps(m, m') && f in m.fibers
    ensures f in m'.fibers
  {
    assert FiberKept(m, m', f);
  }

  lemma WatcherAdded(m: Machine, at: map<nat, Where>, failures: map<nat, seq<Cause>>, c: nat, w: nat, verb: Verb)
    requires Inv(m, at) && Logged(m, failures) && NoLostWakeup(m) && Watched(m) && Asking(m) && Scheduled(m, at) && w in m.waits && !m.waits[w].closing
    ensures c in m.fibers ==>
              var m' := m.(fibers := m.fibers[c := m.fibers[c].(watchers := m.fibers[c].watchers + [Watch(w, verb)])]);
              Inv(m', at) && Logged(m', failures) && NoLostWakeup(m') && Watched(m') && Asking(m') && Scheduled(m', at) && Keeps(m, m')
  {
    if c in m.fibers {
      hide Inv, Keeps, Logged;
      var fiber := m.fibers[c].(watchers := m.fibers[c].watchers + [Watch(w, verb)]);
      var m' := m.(fibers := m.fibers[c := fiber]);
      FiberSelf(m, at, c);
      FiberOnly(m, at, c, fiber);
      LoggedSame(m, m', failures);
      ScheduledKept(m, at, m', at);
      AskingKept(m, m');
      forall f | f in m'.fibers ensures WatchersKnown(m', f) {
        assert WatchersKnown(m, f);
      }
    }
  }

  lemma FiberSelf(m: Machine, at: map<nat, Where>, f: nat)
    requires Inv(m, at) && f in m.fibers
    ensures InterruptionsOk(m.scopes, f, m.fibers[f]) && (IsClosing(m.fibers[f]) ==> m.fibers[f].holds > 0)
  {
    assert FramesOk(m, f) && ClosingOk(m, at, f);
  }

  /** Scope `s` is open on fiber `f`, and no body further out is asked to unwind. */
  ghost predicate Outward(m: Machine, f: nat, s: nat)
    requires f in m.fibers
  {
    var fiber := m.fibers[f];
    exists i :: 0 <= i < |fiber.frames| && fiber.frames[i].scope == s && forall j :: i < j < |fiber.frames| ==> !AskedFor(fiber, fiber.frames[j].scope)
  }

  /** The least depth is the outermost scope. */
  lemma DepthIsOutward(m: Machine, f: nat, s: nat)
    requires Scopes(m) && Nested(m) && f in m.fibers && BodyRuns(m.scopes, f, s)
    requires forall t :: AskedFor(m.fibers[f], t) && t in m.scopes ==> m.scopes[s].depth <= m.scopes[t].depth
    ensures Outward(m, f, s)
  {
    assert ScopeOpen(m, s) && ScopeOk(m, s) && FramesOk(m, f);
    var frames := m.fibers[f].frames;
    var i :| 0 <= i < |frames| && frames[i].scope == s;
    forall j | i < j < |frames| ensures !AskedFor(m.fibers[f], frames[j].scope) {
      assert m.scopes[frames[j].scope].depth < m.scopes[frames[i].scope].depth;
    }
  }

  lemma FirstLogged(m: Machine, failures: map<nat, seq<Cause>>, s: nat)
    requires Logged(m, failures) && s in m.scopes
    ensures m.scopes[s].first == FirstOf(FailuresOf(failures, s))
  {
    assert LoggedAt(m, failures, s);
  }

  lemma RunningIs(m: Machine, at: map<nat, Where>, f: nat)
    requires Inv(m, at) && Runs(m, at, f)
    ensures m.current == Some(f) && (m.fibers[f].frames == [] ==> CanEnd(m, at, f))
  {
    RunningPlaced(m, at, f);
  }

  lemma LeftAll(m: Machine, at: map<nat, Where>, failures: map<nat, seq<Cause>>, f: nat, s: nat, input: Input)
    requires Inv(m, at) && Logged(m, failures) && NoLostWakeup(m) && Watched(m) && Asking(m) && Scheduled(m, at) && Runs(m, at, f) && m.fibers[f].frames != [] && m.fibers[f].frames[0] == Body(s)
    ensures s in m.scopes && m.scopes[s].closer.None? && !m.scopes[s].ended && m.fibers[f].scopes > 0
    ensures var m' := Left(m, f, s, input);
            && Inv(m', at) && Logged(m', failures) && NoLostWakeup(m') && Watched(m') && AskingBut(m', s) && Scheduled(m', at) && Keeps(m, m') && Leaves(m', at, f, s)
            && m'.scopes[s].closed && m'.scopes[s].body == Some(input) && !m'.scopes[s].ended
  {
    hide Inv, Keeps, Logged;
    BodyCounted(m, at, f);
    LeftInv(m, at, f, s, input);
    LoggedSame(m, Left(m, f, s, input), failures);
    WatchedKept(m, Left(m, f, s, input));
    ScheduledKept(m, at, Left(m, f, s, input), at);
    AskingButKept(m, Left(m, f, s, input), s);
  }

  lemma BodyCounted(m: Machine, at: map<nat, Where>, f: nat)
    requires Inv(m, at) && f in m.fibers && m.fibers[f].frames != [] && m.fibers[f].frames[0].Body?
    ensures m.fibers[f].scopes > 0
  {
    assert FramesOk(m, f);
  }

  lemma FinishedAll(m: Machine, at: map<nat, Where>, failures: map<nat, seq<Cause>>, f: nat, s: nat)
    requires Inv(m, at) && Logged(m, failures) && NoLostWakeup(m) && Watched(m) && Asking(m) && Scheduled(m, at) && Leaves(m, at, f, s) && m.scopes[s].children == []
    ensures var m' := Finished(m, f, s);
            Inv(m', at) && Logged(m', failures) && NoLostWakeup(m') && Watched(m') && Asking(m') && Scheduled(m', at) && Keeps(m, m') && Runs(m', at, f)
  {
    hide Inv, Keeps, Logged;
    FinishedInv(m, at, f, s);
    LoggedSame(m, Finished(m, f, s), failures);
    WatchedKept(m, Finished(m, f, s));
    ScheduledKept(m, at, Finished(m, f, s), at);
    AskingKept(m, Finished(m, f, s));
  }

  lemma ClosingAll(m: Machine, at: map<nat, Where>, failures: map<nat, seq<Cause>>, f: nat, s: nat, w: nat, input: Input, fibers: nat, scopes: nat)
    requires Inv(m, at) && Logged(m, failures) && NoLostWakeup(m) && Watched(m) && Asking(m) && Scheduled(m, at) && Numbered(m, fibers, scopes, w) && Leaves(m, at, f, s) && m.scopes[s].children != [] && m.scopes[s].body == Some(input)
    ensures var m', at' := ClosingOn(m, f, s, w, input), at[f := Waiting(w)];
            Inv(m', at') && Logged(m', failures) && NoLostWakeup(m') && Watched(m') && Asking(m') && Scheduled(m', at') && Numbered(m', fibers, scopes, w + 1) && Keeps(m, m')
  {
    hide Inv, Keeps, Logged;
    assert w !in m.waits;
    ClosingInv(m, at, f, s, w, input);
    LoggedSame(m, ClosingOn(m, f, s, w, input), failures);
    WatchedKept(m, ClosingOn(m, f, s, w, input));
    ScheduledKept(m, at, ClosingOn(m, f, s, w, input), at[f := Waiting(w)]);
    AskingKept(m, ClosingOn(m, f, s, w, input));
  }

  lemma QuietLeaving(m: Machine, at: map<nat, Where>, m': Machine, at': map<nat, Where>, f: nat, s: nat)
    requires Quiet(m, at, m', at') && Leaves(m, at, f, s)
    ensures Leaves(m', at', f, s) && m'.scopes == m.scopes && m'.fibers[f].frames == m.fibers[f].frames
  {
    assert QuietFiber(m, at, m', at', f);
  }

  lemma SpreadStays(m: Machine, at: map<nat, Where>, m': Machine, at': map<nat, Where>, f: nat, s: nat, fibers: nat, scopes: nat, waits: nat)
    requires Spread(m, at, m', at', s) && Scheduled(m, at) && Watched(m) && NoLostWakeup(m) && AskingBut(m, s) && Numbered(m, fibers, scopes, waits) && Leaves(m, at, f, s)
    requires m.scopes[s].closed
    ensures Scheduled(m', at') && Watched(m') && NoLostWakeup(m') && AskingBut(m', s) && Numbered(m', fibers, scopes, waits) && Leaves(m', at', f, s) && Keeps(m, m')
    ensures m'.scopes[s].closed && m'.scopes[s].ended == m.scopes[s].ended && m'.scopes[s].body == m.scopes[s].body
    ensures m'.fibers[f].frames == m.fibers[f].frames && m'.current == m.current
  {
    SpreadStable(m, at, m', at', s, fibers, scopes, waits);
    assert QuietFiber(m, at, m', at', f);
    assert ScopeKept(m, m', s);
    NoLostAgain(m', s);
  }

  lemma StableScopes(m: Machine, at: map<nat, Where>)
    requires Inv(m, at)
    ensures Scopes(m)
  {
  }

  /** The scope the fiber was forked in has ended. */
  predicate ScopeEnded(m: Machine, c: nat)
    requires c in m.fibers
  {
    m.fibers[c].scope.Some? && m.fibers[c].scope.value in m.scopes && m.scopes[m.fibers[c].scope.value].ended
  }

  lemma FiberScope(m: Machine, at: map<nat, Where>, c: nat)
    requires Inv(m, at) && c in m.fibers && m.fibers[c].scope.Some?
    ensures var s := m.fibers[c].scope.value; s in m.scopes && (m.scopes[s].ended ==> m.fibers[c].ended)
  {
    assert FramesOk(m, c);
    assert m.scopes[m.fibers[c].scope.value].ended ==> AllEnded(m, m.fibers[c].scope.value) by {
      if m.scopes[m.fibers[c].scope.value].ended {
        EndedScope(m, m.fibers[c].scope.value);
      }
    }
  }

  lemma StaysEnded(m: Machine, m': Machine, f: nat)
    requires Keeps(m, m') && f in m.fibers && m.fibers[f].ended
    ensures f in m'.fibers && m'.fibers[f].ended && m'.fibers[f].cause == m.fibers[f].cause && m'.fibers[f].result == m.fibers[f].result
  {
    assert FiberKept(m, m', f);
  }

  lemma ScopeStays(m: Machine, m': Machine, f: nat)
    requires Keeps(m, m') && f in m.fibers
    ensures f in m'.fibers && m'.fibers[f].scope == m.fibers[f].scope
  {
    assert FiberKept(m, m', f);
  }

  lemma RootGone(m: Machine, at: map<nat, Where>, f: nat, input: Input)
    requires Inv(m, at) && f in m.fibers && m.fibers[f].frames == [] && m.fibers[f].scope.None? && !m.fibers[f].ended
    ensures Keeps(m, RootOver(m, f, input)) && Scopes(RootOver(m, f, input)) && AllOver(RootOver(m, f, input))
  {
    var m' := RootOver(m, f, input);
    RootScopes(m, f, input);
    hide Scopes, Placed, Closings, Keeps;
    assert FiberNested(m, f);
    NestedFrame(m, m');
    forall c | c in m'.fibers ensures m'.fibers[c].ended {
      FromRoot(m', c);
      TreeEnded(m', 0, c);
    }
  }

  /** The root fiber has ended, and with it the run. */
  function RootOver(m: Machine, f: nat, input: Input): Machine
    requires f in m.fibers
  {
    m.(fibers := m.fibers[f := m.fibers[f].(ended := true, cause := CauseOf(input), result := ResultOf(input), wait := None)], current := None, over := true)
  }

  lemma RootScopes(m: Machine, f: nat, input: Input)
    requires Scopes(m) && f in m.fibers && m.fibers[f].frames == [] && m.fibers[f].scope.None? && !m.fibers[f].ended
    ensures Scopes(RootOver(m, f, input)) && Keeps(m, RootOver(m, f, input))
  {
    var m' := RootOver(m, f, input);
    forall s | s in m'.scopes ensures ScopeOk(m', s) {
      assert ScopeOk(m, s);
    }
    forall g | g in m'.fibers ensures FramesOk(m', g) {
      assert FramesOk(m, g);
    }
  }

  /** A run is stuck only at a wait for something else than children: if nothing is left to go on and only
      scopes wait, every fiber has ended. */
  lemma StuckIsOver(m: Machine, at: map<nat, Where>)
    requires Inv(m, at) && Scheduled(m, at) && NoLostWakeup(m) && m.current.None? && m.queue == []
    requires forall w :: w in m.waits && m.waits[w].live ==> m.waits[w].closing
    ensures AllOver(m)
  {
    hide Inv, Scheduled, NoLostWakeup;
    var bound := FibersBelow(m.fibers.Keys);
    forall f | f in m.fibers ensures m.fibers[f].ended {
      StuckFiber(m, at, f, bound);
    }
  }

  lemma FibersBelow(fibers: set<nat>) returns (bound: nat)
    ensures forall f :: f in fibers ==> f < bound
  {
    if fibers == {} {
      bound := 0;
    } else {
      var f :| f in fibers;
      var rest := fibers - {f};
      bound := FibersBelow(rest);
      bound := if f < bound then bound else f + 1;
      assert forall g :: g in fibers ==> g == f || g in rest;
    }
  }

  /** The children a fiber waits for are younger. */
  lemma {:induction false} StuckFiber(m: Machine, at: map<nat, Where>, f: nat, bound: nat)
    requires Inv(m, at) && Scheduled(m, at) && NoLostWakeup(m) && m.current.None? && m.queue == []
    requires forall w :: w in m.waits && m.waits[w].live ==> m.waits[w].closing
    requires f in m.fibers && forall g :: g in m.fibers ==> g < bound
    ensures m.fibers[f].ended
    decreases bound - f
  {
    if !m.fibers[f].ended {
      var c := WaitsForChild(m, at, f);
      StuckFiber(m, at, c, bound);
    }
  }

  lemma WaitsForChild(m: Machine, at: map<nat, Where>, f: nat) returns (c: nat)
    requires Inv(m, at) && Scheduled(m, at) && NoLostWakeup(m) && m.current.None? && m.queue == []
    requires forall w :: w in m.waits && m.waits[w].live ==> m.waits[w].closing
    requires f in m.fibers && !m.fibers[f].ended
    ensures c in m.fibers && f < c && !m.fibers[c].ended
  {
    InvKeys(m, at);
    assert FiberPlaced(m, at, f) && HasJob(m.queue, at[f], f) && ClosingOk(m, at, f) && FramesOk(m, f);
    var s := m.fibers[f].frames[0].scope;
    assert ScopeOk(m, s);
    c := m.scopes[s].children[0];
    assert c in m.scopes[s].children;
    assert FiberNested(m, c);
  }

  // ---------- what a step reports ----------

  /** The current fiber runs its own code. */
  ghost predicate Settled(m: Machine, at: map<nat, Where>) {
    m.current.Some? ==> Runs(m, at, m.current.value)
  }

  lemma SettledKept(m: Machine, at: map<nat, Where>, m': Machine, at': map<nat, Where>)
    requires Settled(m, at) && m'.current == m.current && AllStillRun(m, at, m', at')
    ensures Settled(m', at')
  {
  }

  lemma SettledFibers(m: Machine, m': Machine, at: map<nat, Where>)
    requires Settled(m, at) && m'.current == m.current && m'.fibers == m.fibers
    ensures Settled(m', at)
  {
  }

  lemma RunsKnown(m: Machine, at: map<nat, Where>, f: nat)
    requires Runs(m, at, f)
    ensures f in m.fibers && (m.fibers[f].frames == [] || m.fibers[f].frames[0].Body?)
  {
  }

  /** The continuation of wait `w` was there, and is taken. */
  ghost predicate ResumedOnce(m: Machine, m': Machine, w: nat) {
    w in m.waits && m.waits[w].chain && w in m'.waits && !m'.waits[w].chain
  }

  /** Scope `s` ends, all its fibers have ended, and `out` is its outcome. */
  ghost predicate EndedAs(m: Machine, m': Machine, s: nat, out: Input) {
    && s in m.scopes && !m.scopes[s].ended && s in m'.scopes && m'.scopes[s].ended && AllEnded(m', s)
    && m'.scopes[s].body.Some? && out == Outcome(m'.scopes[s])
  }

  // ---------- the tree of fibers ----------

  /** Fiber `c` is `f`, or was forked in a scope of a fiber below `f`. */
  ghost predicate Below(m: Machine, f: nat, c: nat)
    requires Nested(m) && c in m.fibers
    decreases c
  {
    c == f || (m.fibers[c].scope.Some? && (assert FiberNested(m, c); assert ScopeOpen(m, m.fibers[c].scope.value); Below(m, f, m.scopes[m.fibers[c].scope.value].fiber)))
  }

  lemma {:induction false} FromRoot(m: Machine, c: nat)
    requires Nested(m) && c in m.fibers
    ensures Below(m, 0, c)
    decreases c
  {
    assert FiberNested(m, c);
    if m.fibers[c].scope.Some? {
      assert ScopeOpen(m, m.fibers[c].scope.value);
      FromRoot(m, m.scopes[m.fibers[c].scope.value].fiber);
    }
  }

  /** Structured concurrency: no fiber outlives one it descends from. */
  lemma {:induction false} TreeEnded(m: Machine, f: nat, c: nat)
    requires Scopes(m) && Nested(m) && f in m.fibers && m.fibers[f].ended && c in m.fibers && Below(m, f, c)
    ensures m.fibers[c].ended
    decreases c
  {
    if c != f {
      assert FiberNested(m, c);
      var s := m.fibers[c].scope.value;
      assert ScopeOpen(m, s);
      TreeEnded(m, f, m.scopes[s].fiber);
      EndedFiber(m, s);
      EndedScope(m, s);
    }
  }

  /** A scope on a fiber that has ended has ended. */
  lemma EndedFiber(m: Machine, s: nat)
    requires Scopes(m) && s in m.scopes && ScopeOpen(m, s) && m.fibers[m.scopes[s].fiber].ended
    ensures m.scopes[s].ended
  {
    assert FramesOk(m, m.scopes[s].fiber);
  }

  /** Every fiber ever forked in the scope has ended. */
  ghost predicate AllEnded(m: Machine, s: nat) {
    forall c :: c in m.fibers && m.fibers[c].scope == Some(s) ==> m.fibers[c].ended
  }

  /** Every fiber of the run has ended. */
  ghost predicate AllOver(m: Machine) {
    forall c :: c in m.fibers ==> m.fibers[c].ended
  }

  /** The safety of scopes: an ended scope has no child that has not ended. */
  lemma EndedScope(m: Machine, s: nat)
    requires Scopes(m) && s in m.scopes && m.scopes[s].ended
    ensures AllEnded(m, s) && m.scopes[s].closed
  {
    assert ScopeOk(m, s);
    forall c | c in m.fibers && m.fibers[c].scope == Some(s) ensures m.fibers[c].ended {
      assert c !in m.scopes[s].children;
    }
  }

  lemma BegunAll(m: Machine, at: map<nat, Where>, failures: map<nat, seq<Cause>>, f: nat)
    requires Inv(m, at) && Logged(m, failures) && NoLostWakeup(m) && Watched(m) && Asking(m) && Scheduled(m, at) && m.queue != [] && m.queue[0] == Begin(f) && m.current.None?
    ensures f in m.fibers && !m.fibers[f].ended
    ensures Inv(Popped(m), at) && Logged(Popped(m), failures) && NoLostWakeup(Popped(m)) && Watched(Popped(m)) && Asking(Popped(m)) && ScheduledBut(Popped(m), at, f) && CanEnd(Popped(m), at, f)
    ensures var m', at' := GoesOn(Popped(m), f), at[f := Current];
            Inv(m', at') && Logged(m', failures) && NoLostWakeup(m') && Watched(m') && Asking(m') && Scheduled(m', at') && Keeps(m, m') && Runs(m', at', f)
  {
    hide Inv, Keeps, Logged;
    BegunInv(m, at, f);
    InvKeys(m, at);
    NoFramesYet(m, at, f);
    LoggedSame(m, Popped(m), failures);
    LoggedSame(m, GoesOn(Popped(m), f), failures);
    WatchedKept(m, GoesOn(Popped(m), f));
    ScheduledTaken(m, at, f);
    ScheduledOn(Popped(m), at, GoesOn(Popped(m), f), f, Current);
    AskingKept(m, GoesOn(Popped(m), f));
    KeepsSame(m, Popped(m));
    WatchedKept(m, Popped(m));
    AskingKept(m, Popped(m));
  }

  lemma NoFramesYet(m: Machine, at: map<nat, Where>, f: nat)
    requires Inv(m, at) && f in m.fibers && at[f] == NotBegun
    ensures m.fibers[f].frames == []
  {
    assert ClosingOk(m, at, f);
  }

  lemma TakenAll(m: Machine, at: map<nat, Where>, failures: map<nat, seq<Cause>>, w: nat, fibers: nat, scopes: nat, waits: nat)
    requires Inv(m, at) && Logged(m, failures) && NoLostWakeup(m) && Watched(m) && Asking(m) && Scheduled(m, at) && Numbered(m, fibers, scopes, waits)
    requires m.queue != [] && Resumes(m.queue[0]) == Some(w) && m.current.None?
    ensures w in m.waits && m.waits[w].fiber in m.fibers && m.waits[w].chain
    ensures var f := m.waits[w].fiber;
            var m', at' := Resumed(Popped(m), w), at[f := Current];
            && Inv(m', at') && Logged(m', failures) && NoLostWakeup(m') && Watched(m') && Asking(m') && Scheduled(m', at') && Numbered(m', fibers, scopes, waits) && Keeps(m, m')
            && !m'.waits[w].chain && (IsClosing(m.fibers[f]) ==> m.fibers[f].holds > 0)
            && (IsClosing(m.fibers[f]) ==> ClosingEnds(m, at', m', f, m.fibers[f].frames[0]))
            && (!IsClosing(m.fibers[f]) ==> Runs(m', at', f))
  {
    hide Inv, Keeps, Logged;
    TakenInv(m, at, w);
    TakenChain(m, at, w);
    var f := m.waits[w].fiber;
    var m1, m', at' := GoesOn(Popped(m), f), Resumed(Popped(m), w), at[f := Current];
    UnchainedInv(m1, at', w);
    KeepsTransitive(m, m1, m');
    LoggedSame(m, m', failures);
    WatchedKept(m, m');
    ScheduledTaken(m, at, f);
    ScheduledOn(Popped(m), at, m', f, Current);
    AskingKept(m, m');
    NumberedKept(m, m', fibers, scopes, waits);
  }

  /** The children that fiber `f` waited for with this frame are gone; its scope is about to end. */
  ghost predicate ClosingEnds(m: Machine, at': map<nat, Where>, m': Machine, f: nat, frame: Frame)
    requires frame.Closing?
  {
    var s := frame.scope;
    && s in m.scopes && !m.scopes[s].ended && m.scopes[s].body == Some(frame.input)
    && Leaves(m', at', f, s) && m'.scopes[s] == m.scopes[s] && m'.scopes[s].children == []
  }

  lemma TakenChain(m: Machine, at: map<nat, Where>, w: nat)
    requires Inv(m, at) && w in m.waits && m.waits[w].fiber in m.fibers && at[m.waits[w].fiber] == Queued(w)
    ensures m.waits[w].chain && (IsClosing(m.fibers[m.waits[w].fiber]) ==> m.fibers[m.waits[w].fiber].holds > 0)
    ensures var f := m.waits[w].fiber;
            IsClosing(m.fibers[f]) ==>
              var s := m.fibers[f].frames[0].scope;
              s in m.scopes && !m.scopes[s].ended && m.scopes[s].body == Some(m.fibers[f].frames[0].input)
  {
    assert FiberPlaced(m, at, m.waits[w].fiber) && FramesOk(m, m.waits[w].fiber) && ClosingOk(m, at, m.waits[w].fiber);
  }

  /** A continuation resumed with an interruption does not wait for children. */
  lemma TakenOrdinary(m: Machine, at: map<nat, Where>, w: nat)
    requires Inv(m, at) && m.queue != [] && (m.queue[0] == Interrupt(w) || m.queue[0] == RootThrow(w))
    ensures w in m.waits && m.waits[w].fiber in m.fibers && !IsClosing(m.fibers[m.waits[w].fiber])
  {
    assert JobPlaced(m, at, m.queue[0]) && ClosingJob(m, m.queue[0]);
    var f := m.waits[w].fiber;
    assert FiberPlaced(m, at, f) && ClosingOk(m, at, f) && FramesOk(m, f);
  }

  lemma GoOrdinary(m: Machine, at: map<nat, Where>, w: nat)
    requires Inv(m, at) && m.queue != [] && m.queue[0] == Go(w)
    ensures w in m.waits && !m.waits[w].closing
  {
    assert JobPlaced(m, at, m.queue[0]) && ClosingJob(m, m.queue[0]);
  }

  lemma LiveOrdinary(m: Machine, at: map<nat, Where>, w: nat)
    requires Inv(m, at) && w in m.waits && m.waits[w].live && !m.waits[w].closing
    ensures m.waits[w].fiber in m.fibers && !IsClosing(m.fibers[m.waits[w].fiber])
  {
    assert WaitPlaced(m, at, w);
    var f := m.waits[w].fiber;
    assert FiberPlaced(m, at, f) && ClosingOk(m, at, f) && FramesOk(m, f);
  }

  lemma WaitStays(m: Machine, m': Machine, w: nat)
    requires Keeps(m, m') && w in m.waits
    ensures w in m'.waits && m'.waits[w].fiber == m.waits[w].fiber && (m'.waits[w].chain ==> m.waits[w].chain)
  {
    assert WaitKept(m, m', w);
  }

  lemma PoppedAll(m: Machine, at: map<nat, Where>, failures: map<nat, seq<Cause>>, fibers: nat, scopes: nat, waits: nat)
    requires Inv(m, at) && Logged(m, failures) && NoLostWakeup(m) && Watched(m) && Asking(m) && Scheduled(m, at) && Numbered(m, fibers, scopes, waits) && m.queue != [] && m.queue[0].Go?
    ensures var m' := Popped(m);
            Inv(m', at) && Logged(m', failures) && NoLostWakeup(m') && Watched(m') && Asking(m') && Scheduled(m', at) && Numbered(m', fibers, scopes, waits) && Keeps(m, m')
  {
    hide Inv, Keeps, Logged;
    PoppedInv(m, at);
    KeepsSame(m, Popped(m));
    LoggedSame(m, Popped(m), failures);
    WatchedKept(m, Popped(m));
    ScheduledTaken(m, at, 0);
    AskingKept(m, Popped(m));
  }

  lemma UnlistedAll(m: Machine, at: map<nat, Where>, failures: map<nat, seq<Cause>>, w: nat, fibers: nat, scopes: nat, waits: nat)
    requires Inv(m, at) && Logged(m, failures) && NoLostWakeup(m) && Watched(m) && Asking(m) && Scheduled(m, at) && Numbered(m, fibers, scopes, waits)
    requires w in m.waits && m.waits[w].live && !m.waits[w].closing && m.current.None?
    ensures m.waits[w].fiber in m.fibers && m.waits[w].chain
    ensures var f := m.waits[w].fiber;
            var m', at' := Resumed(Unlisted(m, w), w), at[f := Current];
            && Inv(m', at') && Logged(m', failures) && NoLostWakeup(m') && Watched(m') && Asking(m') && Scheduled(m', at') && Numbered(m', fibers, scopes, waits) && Keeps(m, m')
            && Runs(m', at', f) && !m'.waits[w].chain
  {
    hide Inv, Keeps, Logged;
    LiveChain(m, at, w);
    UnlistedInv(m, at, w);
    var f := m.waits[w].fiber;
    var m1, m', at' := GoesOn(Unlisted(m, w), f), Resumed(Unlisted(m, w), w), at[f := Current];
    UnchainedInv(m1, at', w);
    KeepsTransitive(m, m1, m');
    LoggedSame(m, m', failures);
    WatchedKept(m, m');
    ScheduledKept(m, at, m', at');
    AskingKept(m, m');
    NumberedKept(m, m', fibers, scopes, waits);
  }

  lemma LiveChain(m: Machine, at: map<nat, Where>, w: nat)
    requires Inv(m, at) && w in m.waits && m.waits[w].live
    ensures m.waits[w].chain
  {
    assert WaitPlaced(m, at, w);
    assert FiberPlaced(m, at, m.waits[w].fiber);
  }

  lemma TickAll(m: Machine, at: map<nat, Where>, failures: map<nat, seq<Cause>>, w: nat)
    requires Inv(m, at) && Logged(m, failures) && NoLostWakeup(m) && Watched(m) && Asking(m) && Scheduled(m, at) && w in m.waits && !m.waits[w].closing
    ensures var m' := m.(queue := m.queue + [Go(w)]);
            Inv(m', at) && Logged(m', failures) && NoLostWakeup(m') && Watched(m') && Asking(m') && Scheduled(m', at)
  {
    var m' := m.(queue := m.queue + [Go(w)]);
    TickInv(m, at, w);
    hide Inv, Keeps, Logged;
    KeepsSame(m, m');
    LoggedSame(m, m', failures);
    WatchedKept(m, m');
    ScheduledKept(m, at, m', at);
    AskingKept(m, m');
  }

  lemma TickInv(m: Machine, at: map<nat, Where>, w: nat)
    requires Inv(m, at) && w in m.waits && !m.waits[w].closing
    ensures Inv(m.(queue := m.queue + [Go(w)]), at)
  {
    TickPlaced(m, at, w);
    TickClosings(m, at, w);
    hide Scopes, Placed, Closings, Nested;
    NestedFrame(m, m.(queue := m.queue + [Go(w)]));
    ScopesFrame(m, m.(queue := m.queue + [Go(w)]));
  }

  lemma TickPlaced(m: Machine, at: map<nat, Where>, w: nat)
    requires Placed(m, at) && w in m.waits
    ensures Placed(m.(queue := m.queue + [Go(w)]), at)
  {
    var m' := m.(queue := m.queue + [Go(w)]);
    forall f | f in m'.fibers ensures FiberPlaced(m', at, f) {
      assert FiberPlaced(m, at, f);
    }
    forall v | v in m'.waits ensures WaitPlaced(m', at, v) {
      assert WaitPlaced(m, at, v);
    }
    forall i | 0 <= i < |m'.queue| ensures JobPlaced(m', at, m'.queue[i]) {
      if i < |m.queue| {
        assert JobPlaced(m, at, m.queue[i]);
      }
    }
  }

  lemma TickClosings(m: Machine, at: map<nat, Where>, w: nat)
    requires at.Keys == m.fibers.Keys && Closings(m, at) && w in m.waits && !m.waits[w].closing
    ensures Closings(m.(queue := m.queue + [Go(w)]), at)
  {
    var m' := m.(queue := m.queue + [Go(w)]);
    forall f | f in m'.fibers ensures ClosingOk(m', at, f) {
      assert ClosingOk(m, at, f);
    }
    forall i | 0 <= i < |m'.queue| ensures ClosingJob(m', m'.queue[i]) {
      if i < |m.queue| {
        assert ClosingJob(m, m.queue[i]);
      }
    }
  }

  lemma AskedAll(m: Machine, at: map<nat, Where>, failures: map<nat, seq<Cause>>, f: nat, fibers: nat, scopes: nat, waits: nat)
    requires Inv(m, at) && Logged(m, failures) && NoLostWakeup(m) && Watched(m) && Asking(m) && Scheduled(m, at) && Numbered(m, fibers, scopes, waits) && f in m.fibers && Whole !in m.fibers[f].pending
    ensures var m' := Asked(m, f, Whole);
            Inv(m', at) && Logged(m', failures) && NoLostWakeup(m') && Watched(m') && Asking(m') && Scheduled(m', at) && Numbered(m', fibers, scopes, waits) && Keeps(m, m')
  {
    hide Inv, Keeps, Logged;
    AskedInv(m, at, f, Whole);
    KeepsSame(m, Asked(m, f, Whole));
    LoggedSame(m, Asked(m, f, Whole), failures);
    WatchedKept(m, Asked(m, f, Whole));
    ScheduledKept(m, at, Asked(m, f, Whole), at);
    AskingKept(m, Asked(m, f, Whole));
  }

  lemma ThrownAll(m: Machine, at: map<nat, Where>, failures: map<nat, seq<Cause>>, w: nat, fibers: nat, scopes: nat, waits: nat)
    requires Inv(m, at) && Logged(m, failures) && NoLostWakeup(m) && Watched(m) && Asking(m) && Scheduled(m, at) && Numbered(m, fibers, scopes, waits)
    requires w in m.waits && m.waits[w].live && !m.waits[w].closing
    ensures m.waits[w].fiber in m.fibers
    ensures var m', at' := Requeued(m, w, RootThrow(w)), at[m.waits[w].fiber := Queued(w)];
            Inv(m', at') && Logged(m', failures) && NoLostWakeup(m') && Watched(m') && Asking(m') && Scheduled(m', at') && Numbered(m', fibers, scopes, waits) && Keeps(m, m')
  {
    hide Inv, Keeps, Logged;
    RequeuedInv(m, at, w, RootThrow(w));
    var m' := Requeued(m, w, RootThrow(w));
    KeepsSame(m, m');
    LoggedSame(m, m', failures);
    WatchedKept(m, m');
    assert RootThrow(w) in m'.queue;
    ScheduledKept(m, at, m', at[m.waits[w].fiber := Queued(w)]);
    AskingKept(m, m');
  }

}
