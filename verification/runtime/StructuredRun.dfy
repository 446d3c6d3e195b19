/** A run of structured fibers: forking, scopes, interruptions, and the job queue. */
module StructuredRun {
  import opened Wrappers
  import opened Sequences
  import opened Fibers
  import opened Scheduler
  import opened Steps
  import opened Leaving
  import opened Jobs
  import opened Stability
  import opened Actions

  class Run {
    var m: Machine
    ghost var at: map<nat, Where>
    // The failures of each scope, in the order they happened: of its children, and of its body.
    ghost var failures: map<nat, seq<Cause>>
    var nextFiber: nat
    var nextScope: nat
    var nextWait: nat

    ghost predicate Valid()
      reads this
    {
      Inv(m, at) && Logged(m, failures) && !m.over
    }

    /** What holds between any two steps, but for who is in the queue. */
    ghost predicate Steady()
      reads this
    {
      Valid() && NoLostWakeup(m) && Watched(m) && Asking(m) && Numbered(m, nextFiber, nextScope, nextWait)
    }

    ghost predicate Stable()
      reads this
    {
      Steady() && Scheduled(m, at)
    }

    /** `em_run`: the root fiber is queued. */
    constructor ()
      ensures Ready() && !m.over && m.fibers == map[0 := FRESH] && m.queue == [Begin(0)] && m.current.None? && m.scopes == map[]
    {
      m := Machine(map[0 := FRESH], map[], map[], [Begin(0)], None, false);
      at, failures := map[0 := NotBegun], map[];
      nextFiber, nextScope, nextWait := 1, 0, 0;
    }

    // ---------- interrupting ----------

    /** `em_interrupt_fiber`: asks once; takes effect at once where the fiber waits, unless it is held. */
    method InterruptFiber(f: nat, target: Target)
      requires Valid() && f in m.fibers && (target.Inside? ==> BodyRuns(m.scopes, f, target.scope))
      modifies this`m, this`at
      ensures Valid() && Quiet(old(m), old(at), m, at)
      ensures f in m.fibers && (!m.fibers[f].ended ==> AskedTo(m.fibers[f], target))
      ensures m == InterruptedAs(old(m), f, target)
    {
      hide Inv, Quiet, Logged;
      InvKeys(m, at);
      QuietSelf(m, at);
      var fiber := m.fibers[f];
      WaitKnown(m, at, f);
      if fiber.ended || fiber.unwinding {
        return;
      }
      if target in fiber.pending || (target.Inside? && target.scope in fiber.unwinds) {
        return;
      }
      AskedInv(m, at, f, target);
      AskedQuiet(m, at, f, target);
      LoggedSame(m, Scheduler.Asked(m, f, target), failures);
      m := Scheduler.Asked(m, f, target);
      if fiber.holds > 0 {
        return;
      }
      if fiber.wait.None? {
        return;
      }
      var w := fiber.wait.value;
      HeldByNone(m, at, f, w);
      RequeuedInv(m, at, w, Interrupt(w));
      RequeuedQuiet(m, at, w, Interrupt(w));
      QuietTransitive(old(m), old(at), m, at, Requeued(m, w, Interrupt(w)), at[f := Queued(w)]);
      LoggedSame(m, Requeued(m, w, Interrupt(w)), failures);
      m, at := Requeued(m, w, Interrupt(w)), at[f := Queued(w)];
    }

    /** Interrupts the children of a scope, in order. */
    method InterruptChildren(s: nat)
      requires Valid() && s in m.scopes
      modifies this`m, this`at
      ensures Valid() && Quiet(old(m), old(at), m, at) && s in m.scopes && ChildrenAsked(m, s)
      ensures m == AllInterrupted(old(m), old(m).scopes[s].children)
    {
      hide Inv, Quiet, Logged, InterruptedAs;
      InvKeys(m, at);
      QuietSelf(m, at);
      var children := m.scopes[s].children;
      var i := 0;
      assert children[0..] == children;
      while i < |children|
        invariant 0 <= i <= |children| && Valid() && Quiet(old(m), old(at), m, at)
        invariant AllInterrupted(m, children[i..]) == AllInterrupted(old(m), children)
        invariant forall j :: 0 <= j < i ==> children[j] in m.fibers && WillUnwind(m.fibers[children[j]])
      {
        ChildKnown(old(m), old(at), s, children[i]);
        QuietKeys(old(m), old(at), m, at);
        ghost var m0, at0 := m, at;
        QuietEnded(old(m), old(at), m, at, children[i]);
        InterruptFiber(children[i], Whole);
        QuietTransitive(old(m), old(at), m0, at0, m, at);
        QuietEnded(m0, at0, m, at, children[i]);
        QuietUnwinds(m0, at0, m, at);
        assert children[i..][1..] == children[i + 1..];
        i := i + 1;
      }
      QuietKeys(old(m), old(at), m, at);
    }

    /** `em_scope_failed`: the first failure closes the scope and interrupts the others; later ones are
        notes of it. */
    method ScopeFailed(s: nat, cause: Cause)
      requires Valid() && s in m.scopes && !m.scopes[s].ended && cause != Interrupted
      modifies this`m, this`at, this`failures
      ensures Valid() && failures == old(failures)[s := FailuresOf(old(failures), s) + [cause]]
      ensures Keeps(old(m), m) && Spread(old(m), old(at), m, at, s)
      ensures s in m.scopes && m == BlamedFor(old(m), s, Some(cause)) && (old(m).scopes[s].first.Some? ==> m == old(m))
      ensures old(m).scopes[s].first.None? ==>
                && m.scopes[s].first == Some(cause) && m.scopes[s].closed && ChildrenAsked(m, s)
                && var f := m.scopes[s].fiber;
                   f in m.fibers && (m.scopes[s].body.None? && !m.fibers[f].ended ==> AskedTo(m.fibers[f], Inside(s)))
    {
      hide Inv, Quiet, Keeps, Logged, ChildrenAsked, Spread, AllInterrupted, InterruptedAs;
      InvKeys(m, at);
      SpreadSelf(m, at, s);
      if m.scopes[s].first.Some? {
        LoggedMore(m, m, failures, s, cause);
        failures := failures[s := FailuresOf(failures, s) + [cause]];
        return;
      }
      LoggedMore(m, Blamed(m, s, cause), failures, s, cause);
      failures := failures[s := FailuresOf(failures, s) + [cause]];
      BlamedInv(m, at, s, cause);
      ghost var m1 := Blamed(m, s, cause);
      BlamedSpread(m, at, s, cause);
      m := Blamed(m, s, cause);
      InvKeys(m, at);
      InterruptChildren(s);
      QuietKeys(m1, old(at), m, at);
      QuietSpread(m1, old(at), m, at, s);
      SpreadTransitive(old(m), old(at), m1, old(at), m, at, s);
      ScopeFiber(m, at, s);
      if m.scopes[s].body.None? {
        ghost var m2, at2 := m, at;
        InterruptFiber(m.scopes[s].fiber, Inside(s));
        QuietKeys(m2, at2, m, at);
        QuietChildren(m2, at2, m, at, s);
        QuietSpread(m2, at2, m, at, s);
        SpreadTransitive(old(m), old(at), m2, at2, m, at, s);
      }
      SpreadKeeps(old(m), old(at), m, at, s);
    }

    // ---------- waking ----------

    /** `em_cont`: the wait goes to the queue, unless it has left the list. */
    method Cont(w: nat, input: Input)
      requires Valid() && w in m.waits && !m.waits[w].closing
      modifies this`m, this`at
      ensures Valid() && Quiet(old(m), old(at), m, at) && w in m.waits && !m.waits[w].live
      ensures m == Roused(old(m), w, input)
    {
      hide Inv, Quiet, Logged;
      InvKeys(m, at);
      QuietSelf(m, at);
      WaitFiber(m, at, w);
      if !m.waits[w].live {
        return;
      }
      var job := Resume(w, input);
      RequeuedInv(m, at, w, job);
      RequeuedQuiet(m, at, w, job);
      LoggedSame(m, Requeued(m, w, job), failures);
      m, at := Requeued(m, w, job), at[m.waits[w].fiber := Queued(w)];
    }

    // ---------- ends ----------

    /** `em_scope_child_ended`: the scope loses a child, blames it for a failure, and wakes its body when
        it was the last. */
    method LoseChild(c: nat, input: Input)
      requires Steady() && ScheduledBut(m, at, c) && CanEnd(m, at, c) && c in m.fibers && !m.fibers[c].ended && m.fibers[c].scope.Some?
      modifies this`m, this`at, this`failures
      ensures Stable() && Keeps(old(m), m) && c in m.fibers && m.fibers[c].ended && m.fibers[c].cause == CauseOf(input) && m.fibers[c].result == ResultOf(input)
      ensures failures == LoggedFailures(old(failures), old(m).fibers[c].scope.value, CauseOf(input))
      ensures m.current == if old(m).current == Some(c) then None else old(m).current
      ensures old(m).fibers[c].scope.value in old(m).scopes && m == Lost(EndedWith(old(m), c, input), c, old(m).fibers[c].scope.value, CauseOf(input))
      ensures StillRuns(old(m), old(at), m, at, c)
    {
      hide BlamedFor, Awoken, Inv, Keeps, Logged, NoLostWakeup, Watched, Asking, Scheduled, AskingBut, ChildrenAsked, Numbered, CanEnd, Spread, Runs;
      var s, cause := m.fibers[c].scope.value, CauseOf(input);
      GoneAll(m, at, failures, c, s, input);
      ghost var m1, at1 := Gone(m, c, s, input), at[c := Over];
      NumberedKept(m, m1, nextFiber, nextScope, nextWait);
      WatchedGone(m, c, s, input);
      NoLostGone(m, c, s, input);
      m, at := Gone(m, c, s, input), at[c := Over];
      KeepsSelf(m1);
      if Counts(cause) {
        AskingSpare(m, s);
        ScopeFailed(s, cause.value);
        SpreadStable(m1, at1, m, at, s, nextFiber, nextScope, nextWait);
        AskingAfter(m1, m, s);
        KeepsTransitive(old(m), m1, m);
      } else {
        NotBlamed(m1, s, cause);
      }
      assert m == BlamedFor(m1, s, cause);
      ghost var m2 := m;
      WakeCloser(s);
      KeepsTransitive(old(m), m2, m);
      KeepsTransitive(m1, m2, m);
      StaysEnded(m1, m, c);
    }

    /** Wakes the body that waits for the children of `s`, if none is left. */
    method WakeCloser(s: nat)
      requires Valid() && s in m.scopes && NoLostBut(m, s) && Watched(m) && Asking(m) && Scheduled(m, at) && Numbered(m, nextFiber, nextScope, nextWait)
      modifies this`m, this`at
      ensures Stable() && Keeps(old(m), m) && m.current == old(m).current && StillEnded(old(m), m) && AllStillRun(old(m), old(at), m, at)
      ensures m == Awoken(old(m), s)
    {
      hide Inv, Keeps, Logged, NoLostWakeup, Watched, Asking, Scheduled, Numbered, Runs;
      KeepsSelf(m);
      if m.scopes[s].children == [] && m.scopes[s].closer.Some? {
        WokenAll(m, at, failures, s, nextFiber, nextScope, nextWait);
        m, at := Woken(m, s), at[m.waits[m.scopes[s].closer.value].fiber := Queued(m.scopes[s].closer.value)];
      }
      NoLostAgain(m, s);
    }

    /** Tells the watchers, in order. */
    method WakeAll(watchers: seq<Watch>, cause: Option<Cause>, result: Val)
      requires Stable() && forall x :: x in watchers ==> x.wait in m.waits && !m.waits[x.wait].closing
      modifies this`m, this`at
      ensures Stable() && Keeps(old(m), m) && m.current == old(m).current && m.scopes == old(m).scopes && AllStillRun(old(m), old(at), m, at)
      ensures m == AllTold(old(m), watchers, cause, result)
      ensures forall x :: x in watchers ==> x.wait in m.waits && !m.waits[x.wait].live
    {
      hide Roused, Settle, Inv, Keeps, Logged, NoLostWakeup, Watched, Asking, Scheduled, Numbered, Quiet, Runs;
      KeepsSelf(m);
      forall x | x in watchers ensures x.wait in AllTold(m, watchers, cause, result).waits && !AllTold(m, watchers, cause, result).waits[x.wait].live {
        WaitFibers(m, at);
        EveryoneTold(m, watchers, cause, result, x);
      }
      var i := 0;
      assert watchers[0..] == watchers;
      while i < |watchers|
        invariant 0 <= i <= |watchers| && Stable() && Keeps(old(m), m) && m.current == old(m).current && m.scopes == old(m).scopes
        invariant forall x :: x in watchers ==> x.wait in m.waits && !m.waits[x.wait].closing
        invariant AllStillRun(old(m), old(at), m, at)
        invariant AllTold(m, watchers[i..], cause, result) == AllTold(old(m), watchers, cause, result)
      {
        ghost var m0, at0 := m, at;
        var x := watchers[i];
        Cont(x.wait, Settle(x.verb, cause, result));
        QuietStable(m0, at0, m, at, nextFiber, nextScope, nextWait);
        assert watchers[i..][1..] == watchers[i + 1..];
        KeepsTransitive(old(m), m0, m);
        i := i + 1;
      }
    }

    /** `em_fiber_finish` of a forked fiber: its scope loses it, then its watchers wake. */
    method Finish(c: nat, input: Input)
      requires Steady() && ScheduledBut(m, at, c) && CanEnd(m, at, c) && c in m.fibers && !m.fibers[c].ended && m.fibers[c].scope.Some?
      modifies this`m, this`at, this`failures
      ensures Stable() && Keeps(old(m), m) && c in m.fibers && m.fibers[c].ended && m.fibers[c].cause == CauseOf(input)
      ensures m == FiberOver(old(m), c, input)
      ensures forall x :: x in old(m).fibers[c].watchers ==> x.wait in m.waits && !m.waits[x.wait].live
      ensures failures == LoggedFailures(old(failures), old(m).fibers[c].scope.value, CauseOf(input))
      ensures StillRuns(old(m), old(at), m, at, c)
    {
      hide Lost, AllTold, Inv, Keeps, Logged, NoLostWakeup, Watched, Asking, Scheduled, Numbered, CanEnd, Runs;
      var watchers := m.fibers[c].watchers;
      WatchersOf(m, c);
      LoseChild(c, input);
      ghost var m1 := m;
      WaitsKept(old(m), m, watchers);
      WakeAll(watchers, CauseOf(input), ResultOf(input));
      StaysEnded(m1, m, c);
      KeepsTransitive(old(m), m1, m);
    }

    // ---------- what running code asks for ----------

    /** `em_fiber_scope`: a new scope whose body runs on this fiber. */
    method OpenScope(f: nat) returns (s: nat)
      requires Stable() && Runs(m, at, f)
      modifies this`m, this`nextScope, this`failures
      ensures Stable() && Keeps(old(m), m) && Runs(m, at, f) && m.current == old(m).current
      ensures s !in old(m).scopes && s in m.scopes && m.scopes[s].fiber == f && !m.scopes[s].closed && FailuresOf(failures, s) == []
      ensures m.fibers[f].frames == [Body(s)] + old(m).fibers[f].frames
      ensures var fiber := old(m).fibers[f];
              m == old(m).(scopes := old(m).scopes[s := Scope(f, fiber.scopes, [], None, false, None, false, None)],
                           fibers := old(m).fibers[f := fiber.(frames := [Body(s)] + fiber.frames, scopes := fiber.scopes + 1)])
      ensures forall t :: t in old(m).scopes ==> FailuresOf(failures, t) == FailuresOf(old(failures), t)
    {
      hide Inv, Keeps, Logged, NoLostWakeup, Watched, Asking, Scheduled;
      s := nextScope;
      OpenedAll(m, at, failures, f, s);
      nextScope := nextScope + 1;
      failures := failures[s := []];
      m := Opened(m, f, s);
    }

    /** `em_fiber_fork`: a child for an open scope, queued; a closed scope gets none. */
    method Fork(s: nat) returns (forked: bool, c: nat)
      requires Stable() && s in m.scopes
      modifies this`m, this`at, this`nextFiber
      ensures Stable() && Keeps(old(m), m) && AllStillRun(old(m), old(at), m, at) && m.current == old(m).current
      ensures forked <==> !old(m).scopes[s].closed
      ensures !forked ==> m == old(m)
      ensures forked ==> s in m.scopes && c !in old(m).fibers && c in m.fibers && m.fibers[c].scope == Some(s) && !m.fibers[c].ended
      ensures forked ==>
                m == old(m).(fibers := old(m).fibers[c := Fiber(Some(s), false, None, UNIT, 0, 0, [], [], false, None, [], [])],
                             scopes := old(m).scopes[s := old(m).scopes[s].(children := old(m).scopes[s].children + [c])], queue := old(m).queue + [Begin(c)])
    {
      hide Inv, Keeps, Logged, NoLostWakeup, Watched, Asking, Scheduled;
      KeepsSelf(m);
      c := nextFiber;
      if m.scopes[s].closed {
        return false, c;
      }
      InvKeys(m, at);
      ScopeFiber(m, at, s);
      ForkedAll(m, at, failures, s, c);
      nextFiber := nextFiber + 1;
      m, at := Forked(m, s, c), at[c := NotBegun];
      forked := true;
    }

    /** Suspending on a request of its own: a host function, a fairness yield, a deferred value. */
    method Suspend(f: nat) returns (w: nat)
      requires Stable() && Runs(m, at, f)
      modifies this`m, this`at, this`nextWait
      ensures Stable() && Keeps(old(m), m) && w !in old(m).waits && w in m.waits && m.waits[w] == Wait(f, true, false, true)
      ensures m == SuspendedAs(old(m), f, w)
      ensures m.current.None? && at == old(at)[f := Waiting(w)]
    {
      hide Inv, Keeps, Logged, NoLostWakeup, Watched, Asking, Scheduled;
      w := nextWait;
      SuspendedAll(m, at, failures, f, w);
      nextWait := nextWait + 1;
      m, at := SuspendedOn(m, f, w), at[f := Waiting(w)];
    }

    /** The other fiber's end will wake the wait. */
    method Watch(f: nat, c: nat, verb: Verb) returns (w: nat)
      requires Stable() && Runs(m, at, f) && c in m.fibers
      modifies this`m, this`at, this`nextWait
      ensures Stable() && Keeps(old(m), m) && w !in old(m).waits && w in m.waits && m.waits[w].fiber == f && m.waits[w].live
      ensures c in m.fibers && Watches(old(m), m, f, c, w, verb) && m.current.None?
    {
      hide Inv, Keeps, Logged, NoLostWakeup, Watched, Asking, Scheduled;
      ghost var m0 := m;
      w := Suspend(f);
      ghost var m1 := m;
      StaysKnown(m0, m1, c);
      WatcherAdded(m, at, failures, c, w, verb);
      m := m.(fibers := m.fibers[c := m.fibers[c].(watchers := m.fibers[c].watchers + [Fibers.Watch(w, verb)])]);
      KeepsTransitive(m0, m1, m);
    }

    /** `em_fiber_join` and `em_fiber_await`: suspends until the other fiber has ended. */
    method Join(f: nat, c: nat, verb: Verb) returns (answer: Answer)
      requires Stable() && Runs(m, at, f) && Child(m, c)
      modifies this`m, this`at, this`nextWait
      ensures Stable() && Keeps(old(m), m) && (answer.Waits? || Runs(m, at, f)) && f in m.fibers && c in m.fibers
      ensures m.current == if answer.Waits? then None else old(m).current
      ensures Interrupting(old(m).fibers[f]) ==> answer.Delivered? && Took(old(m), m, f, answer.target)
      ensures !Interrupting(old(m).fibers[f]) ==>
                if ScopeEnded(old(m), c) then answer == ScopeOver && m == old(m) && m.fibers[c].ended
                else if old(m).fibers[c].ended then answer == AtOnce(Settle(verb, m.fibers[c].cause, m.fibers[c].result)) && m == old(m)
                else answer.Waits? && Watches(old(m), m, f, c, answer.wait, verb)
    {
      hide Inv, Keeps, Logged, NoLostWakeup, Watched, Asking, Scheduled, Numbered;
      KeepsSelf(m);
      ghost var m0 := m;
      RunningIs(m, at, f);
      var over := ChildScopeOver(c);
      if Interrupting(m.fibers[f]) {
        var target := Deliver(f);
        StaysKnown(m0, m, c);
        answer := Delivered(target);
      } else if over {
        answer := ScopeOver;
      } else if m.fibers[c].ended {
        answer := AtOnce(Settle(verb, m.fibers[c].cause, m.fibers[c].result));
      } else {
        var w := Watch(f, c, verb);
        StaysKnown(m0, m, f);
        answer := Waits(w);
      }
    }

    /** Whether the scope of a forked fiber has ended; then so has the fiber. */
    method ChildScopeOver(c: nat) returns (over: bool)
      requires Valid() && c in m.fibers && m.fibers[c].scope.Some?
      ensures m.fibers[c].scope.value in m.scopes && over == ScopeEnded(m, c)
      ensures over ==> m.fibers[c].ended
    {
      FiberScope(m, at, c);
      over := m.scopes[m.fibers[c].scope.value].ended;
    }

    /** `em_fiber_interrupt`: asks the other fiber to unwind and waits for its end; itself, it unwinds. */
    method Ask(f: nat, c: nat) returns (answer: Answer)
      requires Stable() && Runs(m, at, f) && Child(m, c)
      modifies this`m, this`at, this`nextWait
      ensures Stable() && Keeps(old(m), m) && (answer.Waits? || Runs(m, at, f)) && f in m.fibers && c in m.fibers
      ensures m.current == if answer.Waits? then None else old(m).current
      ensures var n := InterruptedAs(old(m), c, Whole);
              if Interrupting(old(m).fibers[f]) then answer.Delivered? && Took(old(m), m, f, answer.target)
              else if ScopeEnded(old(m), c) then answer == ScopeOver && m == old(m)
              else if c == f && old(m).fibers[f].holds == 0 then answer.Delivered? && Took(n, m, f, answer.target)
              else if c == f || old(m).fibers[c].ended then answer == AtOnce(Value(UNIT)) && m == n
              else answer.Waits? && Watches(n, m, f, c, answer.wait, Interrupts)
    {
      hide Inv, Keeps, Logged, NoLostWakeup, Watched, Asking, Scheduled, Numbered, Quiet, Runs, Took;
      KeepsSelf(m);
      ghost var m0, at0 := m, at;
      RunningIs(m, at, f);
      RunsKnown(m, at, f);
      var over := ChildScopeOver(c);
      if Interrupting(m.fibers[f]) {
        var target := Deliver(f);
        StaysKnown(m0, m, c);
        return Delivered(target);
      }
      if over {
        return ScopeOver;
      }
      InterruptFiber(c, Whole);
      QuietStable(m0, at0, m, at, nextFiber, nextScope, nextWait);
      QuietHolds(m0, at0, m, at, f);
      QuietEnded(m0, at0, m, at, c);
      ghost var m1 := m;
      if c == f {
        if m.fibers[c].holds == 0 {
          var target := Deliver(c);
          KeepsTransitive(m0, m1, m);
          return Delivered(target);
        }
        return AtOnce(Value(UNIT));
      }
      if m.fibers[c].ended {
        return AtOnce(Value(UNIT));
      }
      var w := Watch(f, c, Interrupts);
      KeepsTransitive(m0, m1, m);
      StaysKnown(m0, m, f);
      answer := Waits(w);
    }

    /** `em_interrupt_here`: a request of the main continuation, where a pending interruption is delivered. */
    method Point(f: nat) returns (target: Option<Target>)
      requires Stable() && Runs(m, at, f)
      modifies this`m
      ensures Stable() && Keeps(old(m), m) && Runs(m, at, f) && m.current == old(m).current
      ensures if Interrupting(old(m).fibers[f]) then target.Some? && Took(old(m), m, f, target.value) else target.None? && m == old(m)
    {
      hide Inv, Keeps, Logged, NoLostWakeup, Watched, Asking, Scheduled, Numbered;
      KeepsSelf(m);
      target := None;
      if Interrupting(m.fibers[f]) {
        var t := Deliver(f);
        target := Some(t);
      }
    }

    /** `em_deliver`: the outermost interruption, pending or unwinding, is taken. */
    method Deliver(f: nat) returns (target: Target)
      requires Stable() && f in m.fibers
      modifies this`m
      ensures Stable() && Keeps(old(m), m) && m.current == old(m).current && m.scopes == old(m).scopes
      ensures f in m.fibers && m.fibers[f].frames == old(m).fibers[f].frames && m.fibers[f].ended == old(m).fibers[f].ended
      ensures AllStillRun(old(m), at, m, at)
      ensures Took(old(m), m, f, target) && (target.Inside? ==> Outward(old(m), f, target.scope))
    {
      hide Keeps, Logged, NoLostWakeup, Watched, Asking, Scheduled, Numbered, Placed, Closings;
      var fiber := m.fibers[f];
      FiberInterruptions(m, f);
      target := Whole;
      if !fiber.unwinding && Whole !in fiber.pending && (fiber.pending != [] || fiber.unwinds != []) {
        var s := Outermost(f);
        target := Inside(s);
        DepthIsOutward(m, f, s);
      }
      var after := if target == Whole then fiber.(unwinding := true, pending := [], unwinds := [])
                   else fiber.(pending := Without(fiber.pending, target), unwinds := if target.scope in fiber.unwinds then fiber.unwinds else fiber.unwinds + [target.scope]);
      DeliveredOk(m.scopes, f, fiber, target);
      FiberSelf(m, at, f);
      FiberAll(m, at, failures, f, after);
      NumberedKept(m, m.(fibers := m.fibers[f := after]), nextFiber, nextScope, nextWait);
      m := m.(fibers := m.fibers[f := after]);
    }

    /** The scope of least depth among those asked for. */
    method Outermost(f: nat) returns (s: nat)
      requires f in m.fibers && InterruptionsOk(m.scopes, f, m.fibers[f]) && Whole !in m.fibers[f].pending && (m.fibers[f].pending != [] || m.fibers[f].unwinds != [])
      ensures AskedFor(m.fibers[f], s) && s in m.scopes
      ensures forall t :: AskedFor(m.fibers[f], t) && t in m.scopes ==> m.scopes[s].depth <= m.scopes[t].depth
    {
      var fiber := m.fibers[f];
      var found := None;
      var i := 0;
      while i < |fiber.pending| + |fiber.unwinds|
        invariant 0 <= i <= |fiber.pending| + |fiber.unwinds| && (i > 0 ==> found.Some?)
        invariant found.Some? ==> AskedFor(fiber, found.value) && found.value in m.scopes
        invariant found.Some? ==> forall j :: 0 <= j < i && Nth(fiber, j) in m.scopes ==> m.scopes[found.value].depth <= m.scopes[Nth(fiber, j)].depth
      {
        var t := Nth(fiber, i);
        NthAsked(m.scopes, f, fiber, i);
        if found.None? || m.scopes[t].depth < m.scopes[found.value].depth {
          found := Some(t);
        }
        i := i + 1;
      }
      s := found.value;
      forall t | AskedFor(fiber, t) && t in m.scopes ensures m.scopes[s].depth <= m.scopes[t].depth {
        var j := AskedNth(fiber, t);
      }
    }

    method Hold(f: nat)
      requires Stable() && Runs(m, at, f)
      modifies this`m
      ensures Stable() && Keeps(old(m), m) && Runs(m, at, f) && m.current == old(m).current && m == old(m).(fibers := old(m).fibers[f := old(m).fibers[f].(holds := old(m).fibers[f].holds + 1)])
    {
      SetHolds(f, m.fibers[f].holds + 1);
    }

    method Unhold(f: nat)
      requires Stable() && Runs(m, at, f) && m.fibers[f].holds > 0
      modifies this`m
      ensures Stable() && Keeps(old(m), m) && Runs(m, at, f) && m.current == old(m).current && m == old(m).(fibers := old(m).fibers[f := old(m).fibers[f].(holds := old(m).fibers[f].holds - 1)])
    {
      SetHolds(f, m.fibers[f].holds - 1);
    }

    method SetHolds(f: nat, holds: nat)
      requires Stable() && Runs(m, at, f)
      modifies this`m
      ensures Stable() && Keeps(old(m), m) && Runs(m, at, f) && m.current == old(m).current && m == old(m).(fibers := old(m).fibers[f := old(m).fibers[f].(holds := holds)])
    {
      hide Inv, Keeps, Logged, NoLostWakeup, Watched, Asking, Scheduled, Numbered;
      FiberSelf(m, at, f);
      FiberAll(m, at, failures, f, m.fibers[f].(holds := holds));
      NumberedKept(m, m.(fibers := m.fibers[f := m.fibers[f].(holds := holds)]), nextFiber, nextScope, nextWait);
      m := m.(fibers := m.fibers[f := m.fibers[f].(holds := holds)]);
    }

    // ---------- the end of a scope ----------

    /** `em_scope_body_done`: the scope closes, blames a failure of its body, interrupts the children left,
        and ends if there are none; otherwise the fiber waits for them, held. */
    method BodyDone(f: nat, input: Input) returns (taken: Taken)
      requires Stable() && Runs(m, at, f) && m.fibers[f].frames != []
      modifies this`m, this`at, this`failures, this`nextWait
      ensures Stable() && Keeps(old(m), m) && BodyOver(old(m), m, f, input, taken)
      ensures failures == LoggedFailures(old(failures), old(m).fibers[f].frames[0].scope, CauseOf(input))
      ensures var s := old(m).fibers[f].frames[0].scope;
              && s in old(m).scopes && !old(m).scopes[s].ended && s in m.scopes && m.scopes[s].closed && m.scopes[s].body == Some(input)
              && f in m.fibers && !AskedFor(m.fibers[f], s) && taken.resumed.None? && (taken.ended.Some? ==> taken.ended.value == s)
              && (taken.ended.Some? ==> EndedAs(old(m), m, s, taken.out) && taken.out == Result(FailuresOf(failures, s), input) && Runs(m, at, f))
              && (taken.ended.Some? ==> m.current == old(m).current)
              && (taken.ended.None? ==> !m.scopes[s].ended && m.scopes[s].children != [] && ChildrenAsked(m, s) && m.current.None?)
    {
      hide Inv, Keeps, Logged, NoLostWakeup, Watched, Asking, Scheduled, ChildrenAsked, Numbered, BodyClosed;
      var s := m.fibers[f].frames[0].scope;
      CloseBody(f, s, input);
      BodyClosedMeans(old(m), f, s, input);
      ghost var m1 := m;
      if m.scopes[s].children == [] {
        var out := EndScope(f, s, input);
        KeepsTransitive(old(m), m1, m);
        OutcomeIs(m, failures, s);
        taken := Taken(None, Some(s), out);
      } else {
        var w := nextWait;
        Unused(m, nextFiber, nextScope, nextWait);
        ClosingAll(m, at, failures, f, s, w, input, nextFiber, nextScope);
        nextWait := nextWait + 1;
        m, at := ClosingOn(m, f, s, w, input), at[f := Waiting(w)];
        KeepsTransitive(old(m), m1, m);
        ClosedAsked(m, s);
        assert m == WaitingForChildren(m1, f, s, w, m1.fibers[f].(frames := old(m).fibers[f].frames[1..]), input);
        taken := NOTHING;
      }
    }

    /** The body is over: its scope closes, a failure is blamed, and the children left are interrupted. */
    method CloseBody(f: nat, s: nat, input: Input)
      requires Stable() && Runs(m, at, f) && m.fibers[f].frames != [] && m.fibers[f].frames[0] == Body(s)
      modifies this`m, this`at, this`failures
      ensures Stable() && Keeps(old(m), m) && Leaves(m, at, f, s) && m.current == old(m).current
      ensures s in old(m).scopes && !old(m).scopes[s].ended && m.scopes[s].closed && !m.scopes[s].ended && m.scopes[s].body == Some(input)
      ensures old(m).fibers[f].scopes > 0 && m == BodyClosed(old(m), f, s, input)
      ensures failures == LoggedFailures(old(failures), s, CauseOf(input))
    {
      hide Inv, Keeps, Logged, NoLostWakeup, Watched, Asking, Scheduled, AskingBut, ChildrenAsked, Numbered, Spread, Quiet, BlamedFor, AllInterrupted;
      LeftAll(m, at, failures, f, s, input);
      NumberedKept(m, Left(m, f, s, input), nextFiber, nextScope, nextWait);
      ghost var m1 := Left(m, f, s, input);
      m := Left(m, f, s, input);
      var cause := CauseOf(input);
      BlamedSpares(m1, s, cause, f);
      if Counts(cause) {
        ScopeFailed(s, cause.value);
        SpreadStays(m1, old(at), m, at, f, s, nextFiber, nextScope, nextWait);
        KeepsTransitive(old(m), m1, m);
      } else {
        NotBlamed(m1, s, cause);
      }
      ghost var m2, at2 := m, at;
      InterruptChildren(s);
      QuietLeaving(m2, at2, m, at, f, s);
      QuietStable(m2, at2, m, at, nextFiber, nextScope, nextWait);
      AskingAgain(m, s);
      KeepsTransitive(old(m), m2, m);
    }

    /** `em_scope_finish`: with no child left the scope has ended; its first failure, or how the body
        ended, comes out of it. */
    method EndScope(f: nat, s: nat, body: Input) returns (out: Input)
      requires Stable() && Leaves(m, at, f, s) && m.scopes[s].children == [] && m.scopes[s].body == Some(body)
      modifies this`m
      ensures Stable() && Keeps(old(m), m) && Runs(m, at, f) && m.current == old(m).current
      ensures s in m.scopes && m.scopes[s].ended && m.scopes[s].closed && AllEnded(m, s) && m.scopes[s].body == Some(body)
      ensures m == old(m).(fibers := old(m).fibers[f := old(m).fibers[f].(frames := old(m).fibers[f].frames[1..])], scopes := old(m).scopes[s := old(m).scopes[s].(ended := true)])
      ensures out == Result(FailuresOf(failures, s), body)
    {
      hide Inv, Keeps, Logged, NoLostWakeup, Watched, Asking, Scheduled, Numbered;
      FinishedAll(m, at, failures, f, s);
      FirstLogged(m, failures, s);
      NumberedKept(m, Finished(m, f, s), nextFiber, nextScope, nextWait);
      var first := m.scopes[s].first;
      m := Finished(m, f, s);
      StableScopes(m, at);
      EndedScope(m, s);
      if first.Some? {
        match first.value
        case Fail(e) => out := Failure(e);
        case Die(d) => out := Defect(d);
        case Interrupted => out := Interruption;
      } else {
        out := body;
      }
    }

    /** A fiber's main continuation ends.  The root's ends the run, and then no fiber is left. */
    method End(f: nat, input: Input)
      requires Stable() && Runs(m, at, f) && m.fibers[f].frames == []
      modifies this`m, this`at, this`failures
      ensures Keeps(old(m), m) && Scopes(m) && m.current.None? && m == FiberOver(old(m), f, input)
      ensures f in m.fibers && m.fibers[f].ended && m.fibers[f].cause == CauseOf(input)
      ensures old(m).fibers[f].scope.Some? ==> Stable() && failures == LoggedFailures(old(failures), old(m).fibers[f].scope.value, CauseOf(input))
      ensures old(m).fibers[f].scope.None? ==> m.over && AllOver(m) && m.scopes == old(m).scopes && failures == old(failures)
    {
      hide Inv, Keeps, Logged, NoLostWakeup, Watched, Asking, Scheduled, Numbered, Scopes, Lost, AllTold;
      RunningIs(m, at, f);
      if m.fibers[f].scope.Some? {
        ScheduledSpare(m, at, f);
        FiberScope(m, at, f);
        FiberOverMeans(m, f, input, m.fibers[f].scope.value);
        Finish(f, input);
        StableScopes(m, at);
      } else {
        RootGone(m, at, f, input);
        m := RootOver(m, f, input);
      }
    }

    // ---------- the queue ----------

    /** `em_run_job`: the next job, when nothing runs.  A scope that ends with it gives its first failure, or
        how its body ended. */
    method RunJob() returns (taken: Taken)
      requires Stable() && m.current.None? && m.queue != []
      modifies this`m, this`at, this`failures
      ensures Keeps(old(m), m) && Scopes(m) && if m.over then AllOver(m) else Stable() && Settled(m, at)
      ensures JobDone(old(m), m, taken) && failures == old(failures) && SameFirsts(old(m), m)
      ensures taken.resumed.Some? ==> ResumedOnce(old(m), m, taken.resumed.value)
      ensures taken.ended.Some? ==> EndedAs(old(m), m, taken.ended.value, taken.out) && taken.out == Result(FailuresOf(failures, taken.ended.value), m.scopes[taken.ended.value].body.value)
    {
      hide Inv, Keeps, Logged, NoLostWakeup, Watched, Asking, Scheduled, Numbered, Scopes, FiberOver, ClosedAs, GoesOnWith, TookOne, ResumedOnce, EndedAs, Settled, SameFirsts;
      var job := m.queue[0];
      match job {
        case Begin(f) =>
          StartFiber(f);
          taken := NOTHING;
        case Go(w) =>
          taken := ComeBack(w);
        case Resume(w, input) =>
          taken := GoOn(w, input);
        case Interrupt(w) =>
          Unwind(w);
          taken := Taken(Some(w), None, Interruption);
        case RootThrow(w) =>
          Unwind(w);
          taken := Taken(Some(w), None, Interruption);
      }
      if !m.over {
        StableScopes(m, at);
      }
    }

    /** `em_fiber_begin`: a fiber interrupted before it began ends at once, as interrupted, which is not a
        failure of its scope. */
    method StartFiber(f: nat)
      requires Stable() && m.current.None? && m.queue != [] && m.queue[0] == Begin(f)
      modifies this`m, this`at, this`failures
      ensures Keeps(old(m), m) && f in m.fibers && f in old(m).fibers && failures == old(failures) && SameFirsts(old(m), m)
      ensures if old(m).fibers[f].pending == [] then m == old(m).(queue := old(m).queue[1..], current := Some(f))
              else m == FiberOver(old(m).(queue := old(m).queue[1..]), f, Interruption)
      ensures m.fibers[f].ended <==> old(m).fibers[f].pending != []
      ensures m.fibers[f].ended ==> m.fibers[f].cause == Some(Interrupted)
      ensures m.over ==> Scopes(m) && AllOver(m)
      ensures !m.over ==> Stable() && Settled(m, at) && (m.fibers[f].ended || m.current == Some(f))
    {
      hide Inv, Keeps, Logged, NoLostWakeup, Watched, Asking, Scheduled, Numbered, Scopes, Lost, AllTold;
      BegunAll(m, at, failures, f);
      if m.fibers[f].pending != [] {
        NumberedKept(m, Popped(m), nextFiber, nextScope, nextWait);
        KeepsSame(m, Popped(m));
        ghost var m1 := Popped(m);
        m := Popped(m);
        if m.fibers[f].scope.Some? {
          FiberScope(m, at, f);
          FiberOverMeans(m, f, Interruption, m.fibers[f].scope.value);
          Finish(f, Interruption);
          ScopeStays(m1, m, f);
        } else {
          RootGone(m, at, f, Interruption);
          m := RootOver(m, f, Interruption);
        }
        KeepsTransitive(old(m), m1, m);
      } else {
        NumberedKept(m, GoesOn(Popped(m), f), nextFiber, nextScope, nextWait);
        GoesOnPlain(Popped(m), f);
        m, at := GoesOn(Popped(m), f), at[f := Current];
        RunningIs(m, at, f);
      }
    }

    /** A resumed continuation goes on.  Waiting for children, it ends its scope; otherwise a pending
        interruption is delivered in place of a value. */
    method GoOn(w: nat, input: Input) returns (taken: Taken)
      requires Stable() && m.current.None? && m.queue != [] && m.queue[0] == Resume(w, input)
      modifies this`m, this`at
      ensures Stable() && Keeps(old(m), m) && Settled(m, at) && SameFirsts(old(m), m)
      ensures JobDone(old(m), m, taken) && taken.resumed == Some(w) && ResumedOnce(old(m), m, w)
      ensures taken.ended.Some? ==> EndedAs(old(m), m, taken.ended.value, taken.out) && taken.out == Result(FailuresOf(failures, taken.ended.value), m.scopes[taken.ended.value].body.value)
    {
      hide Inv, Keeps, Logged, NoLostWakeup, Watched, Asking, Scheduled, Numbered, Took, AllEnded, Quiet, Interrupting, Result, Leaves, Without;
      TakenAll(m, at, failures, w, nextFiber, nextScope, nextWait);
      var f := m.waits[w].fiber;
      var fiber := m.fibers[f];
      ghost var m1 := Resumed(Popped(m), w);
      m, at := Resumed(Popped(m), w), at[f := Current];
      KeepsSelf(m);
      if IsClosing(fiber) {
        var s, body := fiber.frames[0].scope, fiber.frames[0].input;
        var out := EndScope(f, s, body);
        OutcomeIs(m, failures, s);
        KeepsTransitive(old(m), m1, m);
        taken := Taken(Some(w), Some(s), out);
        ClosedWith(old(m), f, w, m);
      } else {
        GoesOnPlain(Popped(old(m)), f);
        assert m == GoneOn(old(m), w);
        taken := Taken(Some(w), None, input);
        if !Thrown(input) && Interrupting(fiber) {
          var target := Deliver(f);
          KeepsTransitive(old(m), m1, m);
          taken := Taken(Some(w), None, Interruption);
        }
      }
      WaitStays(m1, m, w);
      RunningIs(m, at, f);
    }

    /** A continuation dropped for an interruption goes on with it. */
    method Unwind(w: nat)
      requires Stable() && m.current.None? && m.queue != [] && (m.queue[0] == Interrupt(w) || m.queue[0] == RootThrow(w))
      modifies this`m, this`at
      ensures Stable() && Keeps(old(m), m) && Settled(m, at) && ResumedOnce(old(m), m, w) && SameFirsts(old(m), m)
      ensures w in old(m).waits && TookOne(GoneOn(old(m), w), m, old(m).waits[w].fiber)
    {
      hide Inv, Keeps, Logged, NoLostWakeup, Watched, Asking, Scheduled, Numbered, Took;
      TakenAll(m, at, failures, w, nextFiber, nextScope, nextWait);
      TakenOrdinary(m, at, w);
      var f := m.waits[w].fiber;
      ghost var m1 := Resumed(Popped(m), w);
      GoesOnPlain(Popped(m), f);
      m, at := Resumed(Popped(m), w), at[f := Current];
      assert m == GoneOn(old(m), w);
      var target := Deliver(f);
      KeepsTransitive(old(m), m1, m);
      WaitStays(m1, m, w);
      RunningIs(m, at, f);
    }

    /** A fairness yield comes back, unless it was unwound meanwhile. */
    method ComeBack(w: nat) returns (taken: Taken)
      requires Stable() && m.current.None? && m.queue != [] && m.queue[0] == Go(w)
      modifies this`m, this`at
      ensures Stable() && Keeps(old(m), m) && Settled(m, at) && SameFirsts(old(m), m)
      ensures JobDone(old(m), m, taken) && taken.ended.None? && (taken.resumed.Some? ==> ResumedOnce(old(m), m, taken.resumed.value))
    {
      hide Inv, Keeps, Logged, NoLostWakeup, Watched, Asking, Scheduled, Numbered, Took;
      PoppedAll(m, at, failures, nextFiber, nextScope, nextWait);
      GoOrdinary(m, at, w);
      WaitFiber(m, at, w);
      ghost var m1 := Popped(m);
      m := Popped(m);
      taken := NOTHING;
      if m.waits[w].live {
        UnlistedAll(m, at, failures, w, nextFiber, nextScope, nextWait);
        LiveOrdinary(m, at, w);
        var f := m.waits[w].fiber;
        var fiber := m.fibers[f];
        ghost var m2 := Resumed(Unlisted(m, w), w);
        GoesOnPlain(Unlisted(m, w), f);
        m, at := Resumed(Unlisted(m, w), w), at[f := Current];
        assert m == GoneOn(Delisted(old(m), w), w);
        KeepsTransitive(old(m), m1, m);
        taken := Taken(Some(w), None, Value(UNIT));
        if Interrupting(fiber) {
          var target := Deliver(f);
          KeepsTransitive(old(m), m2, m);
          WaitStays(m2, m, w);
          taken := Taken(Some(w), None, Interruption);
        }
        RunningIs(m, at, f);
      }
    }

    /** A fairness yield is due. */
    method Tick(w: nat)
      requires Stable() && w in m.waits && !m.waits[w].closing
      modifies this`m
      ensures Stable() && Keeps(old(m), m) && m == old(m).(queue := old(m).queue + [Go(w)])
    {
      hide Inv, Keeps, Logged, NoLostWakeup, Watched, Asking, Scheduled, Numbered;
      TickAll(m, at, failures, w);
      KeepsSame(m, m.(queue := m.queue + [Go(w)]));
      NumberedKept(m, m.(queue := m.queue + [Go(w)]), nextFiber, nextScope, nextWait);
      m := m.(queue := m.queue + [Go(w)]);
    }

    /** A host function has come back, or a deferred value is there. */
    method Wake(w: nat, input: Input)
      requires Stable() && w in m.waits && !m.waits[w].closing
      modifies this`m, this`at
      ensures Stable() && Keeps(old(m), m) && AllStillRun(old(m), old(at), m, at) && m.current == old(m).current
      ensures m == Roused(old(m), w, input) && w in m.waits && !m.waits[w].live
    {
      hide Inv, Keeps, Logged, NoLostWakeup, Watched, Asking, Scheduled, Numbered, Quiet, Runs;
      ghost var m0, at0 := m, at;
      Cont(w, input);
      QuietStable(m0, at0, m, at, nextFiber, nextScope, nextWait);
    }

    // ---------- stalling ----------

    /** `em_root_interrupt`: nothing can go on, so every fiber is interrupted and every wait but those of
        scopes for their children is unwound.  Then something goes on, or all fibers have ended. */
    method Stall()
      requires Stable() && m.current.None?
      modifies this`m, this`at
      ensures Stable() && Keeps(old(m), m) && m.current.None? && Stalled(old(m), m)
      ensures forall f :: f in m.fibers && !m.fibers[f].ended ==> WillUnwind(m.fibers[f])
      ensures forall w :: w in m.waits && m.waits[w].live ==> m.waits[w].closing
      ensures m.queue == [] ==> AllOver(m)
    {
      hide Inv, Keeps, Logged, NoLostWakeup, Watched, Asking, Scheduled, Quiet;
      KeepsSelf(m);
      AskAll();
      ghost var m1 := m;
      ThrowAll();
      KeepsTransitive(old(m), m1, m);
      BelowNext(m1, nextFiber, nextScope, nextWait);
      if m.queue == [] {
        StuckIsOver(m, at);
      }
    }

    /** Every fiber left is asked to unwind. */
    method AskAll()
      requires Stable() && m.current.None?
      modifies this`m
      ensures Stable() && Keeps(old(m), m) && m.current.None? && m == old(m).(fibers := m.fibers) && m.fibers.Keys == old(m).fibers.Keys
      ensures forall f {:trigger m.fibers[f]} :: f in m.fibers ==> m.fibers[f] == AskedWhole(old(m).fibers[f])
    {
      hide Inv, Keeps, Logged, NoLostWakeup, Watched, Asking, Scheduled, Numbered, AskedBelow, AskedWhole;
      KeepsSelf(m);
      AskedNone(m);
      var f := 0;
      while f < nextFiber
        invariant 0 <= f <= nextFiber && Stable() && Keeps(old(m), m) && m.current.None? && AskedBelow(old(m), m, f)
      {
        AskedNext(old(m), m, f);
        if f in m.fibers && !m.fibers[f].ended && !m.fibers[f].unwinding && Whole !in m.fibers[f].pending {
          AskedAll(m, at, failures, f, nextFiber, nextScope, nextWait);
          KeepsTransitive(old(m), m, Asked(m, f, Whole));
          m := Asked(m, f, Whole);
        }
        f := f + 1;
      }
      AskedEvery(old(m), m, nextFiber, nextScope, nextWait);
    }

    /** The waits listed are unwound, the last first, but for those for children. */
    method ThrowAll()
      requires Stable() && m.current.None?
      modifies this`m, this`at
      ensures Stable() && Keeps(old(m), m) && m.current.None? && ThrownFrom(old(m), m, 0, nextWait) && nextWait == old(nextWait)
    {
      hide Inv, Keeps, Logged, NoLostWakeup, Watched, Asking, Scheduled, Quiet, ThrownFrom;
      KeepsSelf(m);
      ThrownNone(m, nextWait);
      var w := nextWait;
      while w > 0
        invariant 0 <= w <= nextWait && Stable() && Keeps(old(m), m) && m.current.None? && ThrownFrom(old(m), m, w, nextWait)
      {
        w := w - 1;
        WaitFiber(m, at, w);
        ThrownNext(old(m), m, w, nextWait);
        if w in m.waits && m.waits[w].live && !m.waits[w].closing {
          ThrownAll(m, at, failures, w, nextFiber, nextScope, nextWait);
          KeepsTransitive(old(m), m, Requeued(m, w, RootThrow(w)));
          m, at := Requeued(m, w, RootThrow(w)), at[m.waits[w].fiber := Queued(w)];
        }
      }
    }

    // ---------- runs ----------

    /** Between two steps; once the root fiber has ended, no fiber is left. */
    ghost predicate Ready()
      reads this
    {
      Scopes(m) && if m.over then AllOver(m) else Stable() && Settled(m, at)
    }

    /** One step of a run: the current fiber asks for something, the outside wakes a wait, or, when nothing
        runs, a job is taken or the run is found to have stalled. */
    method Act(action: Action) returns (taken: Taken)
      requires Ready()
      modifies this
      ensures Ready() && StepOk(old(m), action, m, taken) && BlamesLogged(old(m), old(failures), action, failures)
    {
      hide Inv, Keeps, Logged, NoLostWakeup, Watched, Asking, Scheduled, Numbered, Scopes, Runs, AllStillRun, JobDone, Stalled, Does, Roused, ResumedOnce, EndedAs, BlamesLogged, Blameless, Firsts, SameFirsts;
      KeepsSelf(m);
      taken := NOTHING;
      ghost var m0, at0 := m, at;
      if !OfTheCode(action) || m.over || m.current.None? {
        NoBlames(m, failures, action);
      }
      if m.over {
        FirstsSame(m, action, m);
        return;
      }
      match action {
        case Wake(w, input) =>
          if w in m.waits && !m.waits[w].closing {
            Wake(w, input);
            SettledKept(m0, at0, m, at);
          }
        case Tick(w) =>
          if w in m.waits && !m.waits[w].closing {
            Tick(w);
            SettledFibers(m0, m, at);
          }
        case Next =>
          if m.current.None? && m.queue != [] {
            taken := RunJob();
          }
        case Stall =>
          if m.current.None? {
            Stall();
          }
        case _ =>
          if m.current.Some? {
            RunsKnown(m, at, m.current.value);
            taken := Request(m.current.value, action);
          }
      }
      if !m.over {
        StableScopes(m, at);
        FirstsFollow(m0, old(failures), action, m, failures);
      } else {
        FirstsSame(m0, action, m);
      }
    }

    /** What the code of the current fiber asks for. */
    method Request(f: nat, action: Action) returns (taken: Taken)
      requires Stable() && Runs(m, at, f) && m.current == Some(f) && OfTheCode(action)
      modifies this
      ensures Ready() && f in old(m).fibers && Does(old(m), f, action, m, taken) && Safe(old(m), m, taken)
      ensures BlamesLogged(old(m), old(failures), action, failures) && (m.over ==> Blameless(old(m), action, m))
    {
      hide Inv, Keeps, Logged, NoLostWakeup, Watched, Asking, Scheduled, Numbered, Scopes, Runs, AllStillRun, Took, Watches, InterruptedAs, BodyOver, FiberOver, ResumedOnce, EndedAs, Blames;
      KeepsSelf(m);
      RunsKnown(m, at, f);
      if !action.Return? {
        NoBlames(m, failures, action);
      }
      taken := NOTHING;
      ghost var m0, at0 := m, at;
      match action {
        case OpenScope =>
          var s := OpenScope(f);
        case Fork(s) =>
          if s in m.scopes {
            var forked, c := Fork(s);
            SettledKept(m0, at0, m, at);
          }
        case Suspend =>
          var w := Suspend(f);
        case Join(c, verb) =>
          if c in m.fibers && m.fibers[c].scope.Some? {
            var answer := Join(f, c, verb);
          }
        case Ask(c) =>
          if c in m.fibers && m.fibers[c].scope.Some? {
            var answer := Ask(f, c);
          }
        case Point =>
          var target := Point(f);
        case Hold =>
          Hold(f);
        case Unhold =>
          if m.fibers[f].holds > 0 {
            Unhold(f);
          }
        case Return(input) =>
          taken := Return(f, input);
        case _ =>
      }
      if !m.over {
        StableScopes(m, at);
      }
    }

    /** The innermost body, or all of the fiber's code, ends. */
    method Return(f: nat, input: Input) returns (taken: Taken)
      requires Stable() && Runs(m, at, f) && m.current == Some(f)
      modifies this
      ensures Ready() && f in old(m).fibers && Does(old(m), f, Action.Return(input), m, taken) && Safe(old(m), m, taken)
      ensures BlamesLogged(old(m), old(failures), Action.Return(input), failures) && (m.over ==> Blameless(old(m), Action.Return(input), m))
    {
      hide Inv, Keeps, Logged, NoLostWakeup, Watched, Asking, Scheduled, Numbered, Scopes, Runs, BodyOver, FiberOver, EndedAs;
      RunsKnown(m, at, f);
      if m.fibers[f].frames != [] {
        taken := BodyDone(f, input);
        StableScopes(m, at);
      } else {
        End(f, input);
        taken := NOTHING;
      }
    }

    /** A run: every trace of it is a safe one, in which each step does what its action says. */
    method Play(actions: seq<Action>) returns (steps: seq<Taken>, ghost trace: seq<Machine>)
      requires Ready()
      modifies this
      ensures Ready() && |steps| == |actions| && IsRun(trace, actions, steps)
      ensures trace[0] == old(m) && trace[|steps|] == m
    {
      hide Ready, StepOk, Keeps, Scopes, BlamesLogged;
      steps, trace := [], [m];
      ReadyScopes();
      KeepsSelf(m);
      for k := 0 to |actions|
        invariant Ready() && |steps| == k && IsRun(trace, actions[..k], steps) && trace[0] == old(m) && trace[k] == m
      {
        var taken := Act(actions[k]);
        ReadyScopes();
        RunGrows(trace, actions[..k], steps, actions[k], m, taken);
        assert actions[..k] + [actions[k]] == actions[..k + 1];
        steps, trace := steps + [taken], trace + [m];
      }
      assert actions[..|actions|] == actions;
    }

    lemma ReadyScopes()
      requires Ready()
      ensures Scopes(m)
    {
    }
  }

  /** A step keeps what steps keep, resumes a continuation that was not resumed before, and ends a scope with
      its outcome when all its fibers have ended. */
  ghost predicate Safe(m: Machine, m': Machine, taken: Taken) {
    && Keeps(m, m')
    && (taken.resumed.Some? ==> ResumedOnce(m, m', taken.resumed.value))
    && (taken.ended.Some? ==> EndedAs(m, m', taken.ended.value, taken.out))
  }

  /** A safe step that does what its action says. */
  ghost predicate StepOk(m: Machine, action: Action, m': Machine, taken: Taken) {
    Safe(m, m', taken) && Happens(m, action, m', taken) && Firsts(m, action, m')
  }

  /** The states of a run, the actions and what the steps between the states come to. */
  ghost predicate IsRun(trace: seq<Machine>, actions: seq<Action>, steps: seq<Taken>) {
    && |trace| == |steps| + 1 && |actions| == |steps|
    && (forall i {:trigger trace[i]} :: 0 <= i < |trace| ==> Scopes(trace[i]))
    && (forall i {:trigger steps[i]} :: 0 <= i < |steps| ==> StepOk(trace[i], actions[i], trace[i + 1], steps[i]))
    && (forall i, j {:trigger trace[i], trace[j]} :: 0 <= i <= j < |trace| ==> Keeps(trace[i], trace[j]))
  }

  lemma RunGrows(trace: seq<Machine>, actions: seq<Action>, steps: seq<Taken>, action: Action, m: Machine, taken: Taken)
    requires IsRun(trace, actions, steps) && Scopes(m) && StepOk(trace[|steps|], action, m, taken)
    ensures IsRun(trace + [m], actions + [action], steps + [taken])
  {
    hide Keeps, Scopes, Happens;
    KeepsSelf(m);
    assert Keeps(trace[|steps|], m);
    var after := trace + [m];
    forall i, j {:trigger after[i], after[j]} | 0 <= i <= j < |after| ensures Keeps(after[i], after[j]) {
      if i < |trace| && j == |trace| {
        KeepsTransitive(trace[i], trace[|steps|], m);
      }
    }
  }

  /** In every run, the fibers of a scope that has ended have ended, now and for good. */
  lemma NoneOutlivesScope(trace: seq<Machine>, actions: seq<Action>, steps: seq<Taken>, i: nat, j: nat, s: nat)
    requires IsRun(trace, actions, steps) && i <= j < |trace| && s in trace[i].scopes && trace[i].scopes[s].ended
    ensures AllEnded(trace[j], s)
    ensures forall c :: c in trace[j].fibers && trace[j].fibers[c].scope == Some(s) ==> c in trace[i].fibers
  {
    EndedForGood(trace[i], trace[j], s);
  }

  /** In every run, a scope that has closed gains no fiber. */
  lemma ClosedGainsNone(trace: seq<Machine>, actions: seq<Action>, steps: seq<Taken>, i: nat, j: nat, s: nat, c: nat)
    requires IsRun(trace, actions, steps) && i <= j < |trace| && s in trace[i].scopes && trace[i].scopes[s].closed
    requires c in trace[j].fibers && trace[j].fibers[c].scope == Some(s)
    ensures c in trace[i].fibers
  {
    assert FiberNew(trace[i], trace[j], c);
  }

  /** In every run, a continuation is resumed at most once. */
  lemma ResumedAtMostOnce(trace: seq<Machine>, actions: seq<Action>, steps: seq<Taken>, i: nat, j: nat)
    requires IsRun(trace, actions, steps) && i < j < |steps| && steps[i].resumed.Some?
    ensures steps[j].resumed != steps[i].resumed
  {
    var w := steps[i].resumed.value;
    assert StepOk(trace[i], actions[i], trace[i + 1], steps[i]) && StepOk(trace[j], actions[j], trace[j + 1], steps[j]);
    assert Keeps(trace[i + 1], trace[j]);
    assert WaitKept(trace[i + 1], trace[j], w);
  }

  /** In every run, a scope ends at most once, and what came out of it is its outcome ever after. */
  lemma EndedAtMostOnce(trace: seq<Machine>, actions: seq<Action>, steps: seq<Taken>, i: nat, j: nat)
    requires IsRun(trace, actions, steps) && i < j < |trace| && steps[i].ended.Some?
    ensures j < |steps| ==> steps[j].ended != steps[i].ended
    ensures var s := steps[i].ended.value;
            s in trace[j].scopes && trace[j].scopes[s].body.Some? && steps[i].out == Outcome(trace[j].scopes[s])
  {
    var s := steps[i].ended.value;
    assert StepOk(trace[i], actions[i], trace[i + 1], steps[i]);
    assert j < |steps| ==> StepOk(trace[j], actions[j], trace[j + 1], steps[j]);
    assert Keeps(trace[i + 1], trace[j]);
    assert ScopeKept(trace[i + 1], trace[j], s);
  }

  /** The failures that the actions from `i` up to `j` add to the record of scope `s`. */
  ghost function AllBlames(trace: seq<Machine>, actions: seq<Action>, i: nat, j: nat, s: nat): seq<Cause>
    requires i <= j <= |actions| <= |trace|
  {
    if i == j then [] else AllBlames(trace, actions, i, j - 1, s) + Blames(trace[j - 1], actions[j - 1], s)
  }

  /** In every run, a scope's first failure is that of the first return with one: of its body, or of a fiber
      forked in it. */
  lemma {:induction false} FirstBlamed(trace: seq<Machine>, actions: seq<Action>, steps: seq<Taken>, i: nat, j: nat, s: nat)
    requires IsRun(trace, actions, steps) && i <= j < |trace| && s in trace[i].scopes && trace[i].scopes[s].first.None?
    ensures s in trace[j].scopes && trace[j].scopes[s].first == FirstOf(AllBlames(trace, actions, i, j, s))
  {
    hide Happens, Safe, Keeps, Scopes, Blames;
    if i < j {
      FirstBlamed(trace, actions, steps, i, j - 1, s);
      assert StepOk(trace[j - 1], actions[j - 1], trace[j], steps[j - 1]) && FirstAt(trace[j - 1], actions[j - 1], trace[j], s);
    }
  }

  /** In every run, what comes out of a scope is the first failure there was since it opened, or else how its
      body ended. */
  lemma OutcomeOfRun(trace: seq<Machine>, actions: seq<Action>, steps: seq<Taken>, i: nat, j: nat, s: nat)
    requires IsRun(trace, actions, steps) && i <= j < |steps| && s in trace[i].scopes && trace[i].scopes[s].first.None? && steps[j].ended == Some(s)
    ensures s in trace[j + 1].scopes && trace[j + 1].scopes[s].body.Some?
    ensures steps[j].out == Result(AllBlames(trace, actions, i, j + 1, s), trace[j + 1].scopes[s].body.value)
  {
    hide Happens, Keeps, Scopes, AllBlames, AllEnded;
    FirstBlamed(trace, actions, steps, i, j + 1, s);
    assert StepOk(trace[j], actions[j], trace[j + 1], steps[j]);
  }

  /** For good: whatever happens later, every fiber ever forked in an ended scope has ended. */
  lemma EndedForGood(m: Machine, m': Machine, s: nat)
    requires Scopes(m) && s in m.scopes && m.scopes[s].ended && Keeps(m, m')
    ensures AllEnded(m', s) && s in m'.scopes && m'.scopes[s].ended
    ensures forall c :: c in m'.fibers && m'.fibers[c].scope == Some(s) ==> c in m.fibers
  {
    EndedScope(m, s);
    assert ScopeKept(m, m', s);
    forall c | c in m'.fibers && m'.fibers[c].scope == Some(s) ensures c in m.fibers && m'.fibers[c].ended {
      assert FiberNew(m, m', c);
      assert c in m.fibers ==> FiberKept(m, m', c);
    }
  }

  /** A scope's first failure stays its first. */
  lemma FirstForGood(m: Machine, m': Machine, failures: map<nat, seq<Cause>>, failures': map<nat, seq<Cause>>, s: nat, body: Input)
    requires Logged(m, failures) && Logged(m', failures') && Keeps(m, m') && s in m.scopes && m.scopes[s].first.Some?
    ensures FailuresOf(failures, s) != [] && FailuresOf(failures', s) != [] && FailuresOf(failures', s)[0] == FailuresOf(failures, s)[0]
    ensures Result(FailuresOf(failures', s), body) == Result(FailuresOf(failures, s), body)
  {
    assert ScopeKept(m, m', s) && LoggedAt(m, failures, s) && LoggedAt(m', failures', s);
  }
}
