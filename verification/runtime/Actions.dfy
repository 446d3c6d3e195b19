/** What may happen in a run, and what each of these things does to the records: said on the records alone,
    not in terms of the steps that carry it out. */
module Actions {
  import opened Wrappers
  import opened Sequences
  import opened Fibers
  import opened Scheduler
  import opened Jobs
  import opened Stability

  /** The code of the current fiber asks for something or returns; the outside wakes a wait, or a fairness
      yield is due; the next job runs; or the run is found to have stalled. */
  datatype Action =
    | OpenScope | Fork(scope: nat) | Suspend | Join(fiber: nat, verb: Verb) | Ask(fiber: nat) | Point | Hold | Unhold | Return(input: Input)
    | Wake(wait: nat, input: Input) | Tick(wait: nat) | Next | Stall

  /** What a request about another fiber comes to: an interruption of the asking fiber is delivered instead,
      the other fiber's scope is over, there is nothing to wait for, or the asking fiber waits. */
  datatype Answer = Delivered(target: Target) | ScopeOver | AtOnce(input: Input) | Waits(wait: nat)

  /** What a step comes to: whose continuation goes on, the scope that ends with it, and what it goes on
      with. */
  datatype Taken = Taken(resumed: Option<nat>, ended: Option<nat>, out: Input)

  const NOTHING: Taken := Taken(None, None, Value(UNIT))

  // ---------- interruptions ----------

  /** An interruption is asked for once, and takes effect at once where the fiber waits, unless it is held:
      the wait is dropped, and its continuation queued. */
  function InterruptedAs(m: Machine, f: nat, target: Target): Machine {
    if f !in m.fibers then m else
    var fiber := m.fibers[f];
    if fiber.ended || AskedTo(fiber, target) then m
    else if fiber.holds > 0 || fiber.wait.None? || fiber.wait.value !in m.waits then
      m.(fibers := m.fibers[f := fiber.(pending := fiber.pending + [target])])
    else
      var w := fiber.wait.value;
      m.(fibers := m.fibers[f := fiber.(pending := fiber.pending + [target], wait := None)],
         waits := m.waits[w := m.waits[w].(live := false)], queue := m.queue + [Job.Interrupt(w)])
  }

  /** Each of the fibers is asked to unwind, in order. */
  function AllInterrupted(m: Machine, fibers: seq<nat>): Machine
    decreases |fibers|
  {
    if fibers == [] then m else AllInterrupted(InterruptedAs(m, fibers[0], Whole), fibers[1..])
  }

  /** The interruption of the whole fiber, or else that of the outermost scope. */
  ghost predicate Chosen(m: Machine, f: nat, target: Target)
    requires f in m.fibers
  {
    var fiber := m.fibers[f];
    && (target == Whole <==> fiber.unwinding || Whole in fiber.pending || (fiber.pending == [] && fiber.unwinds == []))
    && (target.Inside? ==>
          && AskedFor(fiber, target.scope) && target.scope in m.scopes
          && forall s :: AskedFor(fiber, s) && s in m.scopes ==> m.scopes[target.scope].depth <= m.scopes[s].depth)
  }

  /** Fiber `f` unwinds for `target` from now on. */
  ghost predicate Took(m: Machine, m': Machine, f: nat, target: Target) {
    && f in m.fibers && Chosen(m, f, target)
    && var fiber := m.fibers[f];
       m' == m.(fibers := m.fibers[f :=
         match target
         case Whole => fiber.(unwinding := true, pending := [], unwinds := [])
         case Inside(s) => fiber.(pending := Without(fiber.pending, target), unwinds := if s in fiber.unwinds then fiber.unwinds else fiber.unwinds + [s])])
  }

  ghost predicate TookOne(m: Machine, m': Machine, f: nat) {
    exists target :: Took(m, m', f, target)
  }

  // ---------- waiting ----------

  function SuspendedAs(m: Machine, f: nat, w: nat): Machine
    requires f in m.fibers
  {
    m.(waits := m.waits[w := Wait(f, true, false, true)], fibers := m.fibers[f := m.fibers[f].(wait := Some(w))], current := None)
  }

  /** Fiber `f` waits, on a new wait, for the end of `c`. */
  ghost predicate Watches(m: Machine, m': Machine, f: nat, c: nat, w: nat, verb: Verb) {
    && f in m.fibers && c in m.fibers && w !in m.waits
    && var n := SuspendedAs(m, f, w);
       m' == n.(fibers := n.fibers[c := n.fibers[c].(watchers := n.fibers[c].watchers + [Watch(w, verb)])])
  }

  // ---------- ends ----------

  /** A failure of scope `s`, if it is one: the first closes it, asks its children to unwind, and then its
      body, unless that is over. */
  function BlamedFor(m: Machine, s: nat, cause: Option<Cause>): Machine
    requires s in m.scopes
  {
    var scope := m.scopes[s];
    if !Counts(cause) || scope.first.Some? then m
    else
      var asked := AllInterrupted(m.(scopes := m.scopes[s := scope.(first := cause, closed := true)]), scope.children);
      if scope.body.None? then InterruptedAs(asked, scope.fiber, Inside(s)) else asked
  }

  /** The first failure, after one more end. */
  function FirstAfter(first: Option<Cause>, cause: Option<Cause>): Option<Cause> {
    if first.Some? then first else if Counts(cause) then cause else None
  }

  /** The body of scope `s`, which fiber `f` runs, is over: no interruption of it is left, the scope is
      closed, a failure is blamed, and the children left are asked to unwind. */
  function BodyClosed(m: Machine, f: nat, s: nat, input: Input): Machine
    requires f in m.fibers && s in m.scopes && m.fibers[f].frames != [] && m.fibers[f].scopes > 0
  {
    var fiber, scope := m.fibers[f], m.scopes[s];
    var closed := m.(fibers := m.fibers[f := fiber.(frames := [Frame.Leaving(s)] + fiber.frames[1..], scopes := fiber.scopes - 1,
                                                    pending := Without(fiber.pending, Inside(s)), unwinds := Without(fiber.unwinds, s))],
                     scopes := m.scopes[s := scope.(body := Some(input), closed := true)]);
    AllInterrupted(BlamedFor(closed, s, CauseOf(input)), scope.children)
  }

  /** A body that is over ends its scope if no child is left; what comes out is the scope's outcome.
      Otherwise the fiber waits for the children, held, and keeps how the body ended. */
  ghost predicate BodyOver(m: Machine, m': Machine, f: nat, input: Input, taken: Taken)
    requires f in m.fibers && m.fibers[f].frames != []
  {
    var s := m.fibers[f].frames[0].scope;
    && s in m.scopes && m.fibers[f].scopes > 0
    && var n := BodyClosed(m, f, s, input);
       && f in n.fibers && s in n.scopes && n.scopes[s].body.Some?
       && var fiber, scope := n.fibers[f].(frames := m.fibers[f].frames[1..]), n.scopes[s];
          if scope.children == [] then
            && m' == n.(fibers := n.fibers[f := fiber], scopes := n.scopes[s := scope.(ended := true)])
            && taken == Taken(None, Some(s), Outcome(scope))
          else
            taken == NOTHING && exists w :: w !in m.waits && m' == WaitingForChildren(n, f, s, w, fiber, input)
  }

  function WaitingForChildren(m: Machine, f: nat, s: nat, w: nat, fiber: Fiber, input: Input): Machine
    requires s in m.scopes
  {
    m.(fibers := m.fibers[f := fiber.(frames := [Closing(s, input)] + fiber.frames, holds := fiber.holds + 1, wait := Some(w))],
       scopes := m.scopes[s := m.scopes[s].(closer := Some(w))], waits := m.waits[w := Wait(f, true, true, true)], current := None)
  }

  /** A wait that is still listed is queued. */
  function Roused(m: Machine, w: nat, input: Input): Machine {
    if w in m.waits && m.waits[w].live && m.waits[w].fiber in m.fibers then Delisted(m, w).(queue := m.queue + [Job.Resume(w, input)]) else m
  }

  /** The watchers are told, in order, each what it wanted to know. */
  function AllTold(m: Machine, watchers: seq<Watch>, cause: Option<Cause>, result: Val): Machine
    decreases |watchers|
  {
    if watchers == [] then m else AllTold(Roused(m, watchers[0].wait, Settle(watchers[0].verb, cause, result)), watchers[1..], cause, result)
  }

  /** With the last child gone, what waits for the children of the scope goes on. */
  function Awoken(m: Machine, s: nat): Machine
    requires s in m.scopes
  {
    var scope := m.scopes[s];
    if scope.children == [] && scope.closer.Some? then Roused(m.(scopes := m.scopes[s := scope.(closer := None)]), scope.closer.value, Value(UNIT)) else m
  }

  /** Fiber `f` is over: its scope loses it and is told of a failure, and then its watchers are told.  The
      end of the root is the end of the run. */
  function FiberOver(m: Machine, f: nat, input: Input): Machine
    requires f in m.fibers
  {
    var fiber, cause := m.fibers[f], CauseOf(input);
    var over := EndedWith(m, f, input);
    match fiber.scope
    case None => over.(current := None, over := true)
    case Some(s) =>
      if s !in m.scopes then over
      else AllTold(Lost(over, f, s, cause), fiber.watchers, cause, ResultOf(input))
  }

  function EndedWith(m: Machine, f: nat, input: Input): Machine
    requires f in m.fibers
  {
    m.(fibers := m.fibers[f := m.fibers[f].(ended := true, cause := CauseOf(input), result := ResultOf(input), wait := None)],
       current := if m.current == Some(f) then None else m.current)
  }

  /** Scope `s` loses child `c`, which ended with this cause. */
  function Lost(m: Machine, c: nat, s: nat, cause: Option<Cause>): Machine
    requires s in m.scopes
  {
    var blamed := BlamedFor(m.(scopes := m.scopes[s := m.scopes[s].(children := Without(m.scopes[s].children, c))]), s, cause);
    if s in blamed.scopes then Awoken(blamed, s) else blamed
  }

  // ---------- what ends come to ----------

  /** Asking fibers to unwind leaves all else of them alone. */
  lemma {:induction false} AllInterruptedSpares(m: Machine, fibers: seq<nat>, f: nat)
    requires f in m.fibers
    ensures var m' := AllInterrupted(m, fibers);
            && m'.scopes == m.scopes && m'.current == m.current && m'.over == m.over && m'.waits.Keys == m.waits.Keys
            && f in m'.fibers && m'.fibers[f] == m.fibers[f].(pending := m'.fibers[f].pending, wait := m'.fibers[f].wait)
            && forall s :: AskedFor(m'.fibers[f], s) ==> AskedFor(m.fibers[f], s)
    decreases |fibers|
  {
    if fibers != [] {
      AllInterruptedSpares(InterruptedAs(m, fibers[0], Whole), fibers[1..], f);
    }
  }

  /** Only the first failure changes the scope. */
  lemma BlamedSpares(m: Machine, s: nat, cause: Option<Cause>, f: nat)
    requires s in m.scopes && f in m.fibers
    ensures var m', first := BlamedFor(m, s, cause), FirstAfter(m.scopes[s].first, cause);
            && m'.scopes == m.scopes[s := m.scopes[s].(first := first, closed := m.scopes[s].closed || first != m.scopes[s].first)]
            && m'.current == m.current && m'.over == m.over && m'.waits.Keys == m.waits.Keys
            && f in m'.fibers && m'.fibers[f] == m.fibers[f].(pending := m'.fibers[f].pending, wait := m'.fibers[f].wait)
            && (m.scopes[s].body.Some? ==> forall t :: AskedFor(m'.fibers[f], t) ==> AskedFor(m.fibers[f], t))
  {
    assert m.scopes == m.scopes[s := m.scopes[s]];
    if Counts(cause) && m.scopes[s].first.None? {
      AllInterruptedSpares(m.(scopes := m.scopes[s := m.scopes[s].(first := cause, closed := true)]), m.scopes[s].children, f);
    }
  }

  /** The scope of a body that is over is closed, keeps how the body ended and the first failure there has
      been, and nothing asks for its body any more. */
  lemma BodyClosedMeans(m: Machine, f: nat, s: nat, input: Input)
    requires f in m.fibers && s in m.scopes && m.fibers[f].frames != [] && m.fibers[f].scopes > 0
    ensures var m' := BodyClosed(m, f, s, input);
            && m'.scopes == m.scopes[s := m.scopes[s].(body := Some(input), closed := true, first := FirstAfter(m.scopes[s].first, CauseOf(input)))]
            && m'.current == m.current && m'.over == m.over && m'.waits.Keys == m.waits.Keys
            && f in m'.fibers && !AskedFor(m'.fibers[f], s)
            && m'.fibers[f].frames == [Frame.Leaving(s)] + m.fibers[f].frames[1..] && m'.fibers[f].holds == m.fibers[f].holds
  {
    var fiber, scope := m.fibers[f], m.scopes[s];
    var closed := m.(fibers := m.fibers[f := fiber.(frames := [Frame.Leaving(s)] + fiber.frames[1..], scopes := fiber.scopes - 1,
                                                    pending := Without(fiber.pending, Inside(s)), unwinds := Without(fiber.unwinds, s))],
                     scopes := m.scopes[s := scope.(body := Some(input), closed := true)]);
    hide BlamedFor, AllInterrupted;
    BlamedSpares(closed, s, CauseOf(input), f);
    AllInterruptedSpares(BlamedFor(closed, s, CauseOf(input)), scope.children, f);
  }

  /** Telling watchers leaves scopes and what ended alone. */
  lemma {:induction false} AllToldSpares(m: Machine, watchers: seq<Watch>, cause: Option<Cause>, result: Val, f: nat)
    requires f in m.fibers
    ensures var m' := AllTold(m, watchers, cause, result);
            && m'.scopes == m.scopes && m'.current == m.current && m'.over == m.over
            && f in m'.fibers && m'.fibers[f] == m.fibers[f].(wait := m'.fibers[f].wait)
    decreases |watchers|
  {
    if watchers != [] {
      AllToldSpares(Roused(m, watchers[0].wait, Settle(watchers[0].verb, cause, result)), watchers[1..], cause, result, f);
    }
  }

  lemma {:induction false} AllToldKeeps(m: Machine, watchers: seq<Watch>, cause: Option<Cause>, result: Val, w: nat, job: Job)
    requires w in m.waits
    ensures var m' := AllTold(m, watchers, cause, result);
            w in m'.waits && (m'.waits[w].live ==> m.waits[w].live) && (job in m.queue ==> job in m'.queue)
    decreases |watchers|
  {
    if watchers != [] {
      AllToldKeeps(Roused(m, watchers[0].wait, Settle(watchers[0].verb, cause, result)), watchers[1..], cause, result, w, job);
    }
  }

  /** Every watcher is told: its wait is off the list, and queued with what a watcher on it wanted to know. */
  lemma {:induction false} EveryoneTold(m: Machine, watchers: seq<Watch>, cause: Option<Cause>, result: Val, x: Watch)
    requires x in watchers && forall y :: y in watchers ==> y.wait in m.waits && m.waits[y.wait].fiber in m.fibers
    ensures var m' := AllTold(m, watchers, cause, result);
            && x.wait in m'.waits && !m'.waits[x.wait].live
            && (m.waits[x.wait].live ==> exists y :: y in watchers && y.wait == x.wait && Job.Resume(y.wait, Settle(y.verb, cause, result)) in m'.queue)
    decreases |watchers|
  {
    var y := watchers[0];
    var job := Job.Resume(y.wait, Settle(y.verb, cause, result));
    var n := Roused(m, y.wait, Settle(y.verb, cause, result));
    assert m.waits[y.wait].live ==> job in n.queue;
    AllToldKeeps(n, watchers[1..], cause, result, x.wait, job);
    if y.wait != x.wait || !m.waits[x.wait].live {
      if x in watchers[1..] {
        EveryoneTold(n, watchers[1..], cause, result, x);
      }
    }
  }

  /** A forked fiber that is over has ended with its cause, its scope has lost it and knows of its failure
      if it was the first, and no other scope has changed. */
  lemma FiberOverMeans(m: Machine, f: nat, input: Input, s: nat)
    requires f in m.fibers && m.fibers[f].scope == Some(s) && s in m.scopes
    ensures var m' := FiberOver(m, f, input);
            && f in m'.fibers && m'.fibers[f].ended && m'.fibers[f].cause == CauseOf(input) && m'.fibers[f].result == ResultOf(input)
            && m'.current == (if m.current == Some(f) then None else m.current) && m'.over == m.over
            && m'.scopes.Keys == m.scopes.Keys && (forall t :: t in m.scopes && t != s ==> m'.scopes[t] == m.scopes[t])
            && m'.scopes[s].children == Without(m.scopes[s].children, f) && m'.scopes[s].first == FirstAfter(m.scopes[s].first, CauseOf(input))
  {
    var fiber, cause := m.fibers[f], CauseOf(input);
    var over := EndedWith(m, f, input);
    hide Lost, AllTold, Without;
    LostMeans(over, f, s, cause);
    AllToldSpares(Lost(over, f, s, cause), fiber.watchers, cause, ResultOf(input), f);
  }

  lemma LostMeans(m: Machine, c: nat, s: nat, cause: Option<Cause>)
    requires c in m.fibers && s in m.scopes
    ensures var m' := Lost(m, c, s, cause);
            && c in m'.fibers && m'.fibers[c] == m.fibers[c].(pending := m'.fibers[c].pending, wait := m'.fibers[c].wait)
            && m'.current == m.current && m'.over == m.over
            && m'.scopes.Keys == m.scopes.Keys && (forall t :: t in m.scopes && t != s ==> m'.scopes[t] == m.scopes[t])
            && m'.scopes[s].children == Without(m.scopes[s].children, c) && m'.scopes[s].first == FirstAfter(m.scopes[s].first, cause)
  {
    hide BlamedFor, Without, Awoken;
    var less := m.(scopes := m.scopes[s := m.scopes[s].(children := Without(m.scopes[s].children, c))]);
    BlamedSpares(less, s, cause, c);
    AwokenMeans(BlamedFor(less, s, cause), s, c);
  }

  lemma AwokenMeans(m: Machine, s: nat, f: nat)
    requires s in m.scopes && f in m.fibers
    ensures var m' := Awoken(m, s);
            && f in m'.fibers && m'.fibers[f] == m.fibers[f].(wait := m'.fibers[f].wait) && m'.current == m.current && m'.over == m.over
            && s in m'.scopes && m'.scopes == m.scopes[s := m.scopes[s].(closer := m'.scopes[s].closer)]
  {
    assert m.scopes == m.scopes[s := m.scopes[s]];
  }

  // ---------- the queue ----------

  /** The continuation of wait `w` is off the queue and runs. */
  function GoneOn(m: Machine, w: nat): Machine
    requires m.queue != [] && w in m.waits
  {
    m.(queue := m.queue[1..], waits := m.waits[w := m.waits[w].(chain := false)], current := Some(m.waits[w].fiber))
  }

  /** The wait is taken from the list before. */
  function Delisted(m: Machine, w: nat): Machine
    requires w in m.waits && m.waits[w].fiber in m.fibers
  {
    m.(waits := m.waits[w := m.waits[w].(live := false)], fibers := m.fibers[m.waits[w].fiber := m.fibers[m.waits[w].fiber].(wait := None)])
  }

  /** An interruption that is due takes the place of what the continuation would go on with. */
  ghost predicate GoesOnWith(m: Machine, m': Machine, f: nat, input: Input, out: Input) {
    && f in m.fibers
    && if !Thrown(input) && Interrupting(m.fibers[f]) then TookOne(m, m', f) && out == Interruption else m' == m && out == input
  }

  /** The scope whose children fiber `f` waited for ends, and what it saved of the body goes on; the hold is
      given back. */
  ghost predicate ClosedAs(m: Machine, m': Machine, f: nat, w: nat, taken: Taken)
    requires m.queue != [] && w in m.waits && f in m.fibers && IsClosing(m.fibers[f])
  {
    var fiber := m.fibers[f];
    var s, n := fiber.frames[0].scope, GoneOn(m, w);
    && s in m.scopes && m.scopes[s].body == Some(fiber.frames[0].input) && fiber.holds > 0
    && m' == n.(fibers := m.fibers[f := fiber.(frames := fiber.frames[1..], holds := fiber.holds - 1)], scopes := m.scopes[s := m.scopes[s].(ended := true)])
    && taken == Taken(Some(w), Some(s), Outcome(m.scopes[s]))
  }

  ghost predicate JobDone(m: Machine, m': Machine, taken: Taken)
    requires m.queue != []
  {
    match m.queue[0]
    case Begin(f) =>
      && f in m.fibers && taken == NOTHING
      && if m.fibers[f].pending == [] then m' == m.(queue := m.queue[1..], current := Some(f)) else m' == FiberOver(m.(queue := m.queue[1..]), f, Interruption)
    case Go(w) =>
      && w in m.waits && m.waits[w].fiber in m.fibers
      && if m.waits[w].live then taken == Taken(Some(w), None, taken.out) && GoesOnWith(GoneOn(Delisted(m, w), w), m', m.waits[w].fiber, Value(UNIT), taken.out)
         else m' == m.(queue := m.queue[1..]) && taken == NOTHING
    case Resume(w, input) =>
      && w in m.waits && m.waits[w].fiber in m.fibers
      && var f := m.waits[w].fiber;
         if IsClosing(m.fibers[f]) then ClosedAs(m, m', f, w, taken)
         else taken == Taken(Some(w), None, taken.out) && GoesOnWith(GoneOn(m, w), m', f, input, taken.out)
    case Interrupt(w) => w in m.waits && TookOne(GoneOn(m, w), m', m.waits[w].fiber) && taken == Taken(Some(w), None, Interruption)
    case RootThrow(w) => w in m.waits && TookOne(GoneOn(m, w), m', m.waits[w].fiber) && taken == Taken(Some(w), None, Interruption)
  }

  function AskedWhole(fiber: Fiber): Fiber {
    if fiber.ended || WillUnwind(fiber) then fiber else fiber.(pending := fiber.pending + [Whole])
  }

  /** A wait for children stays listed. */
  function Kept(wait: Wait): Wait {
    wait.(live := wait.live && wait.closing)
  }

  /** Every fiber left is to unwind; every wait but those for children is off the list, and its continuation
      queued to be interrupted. */
  ghost predicate Stalled(m: Machine, m': Machine) {
    && m' == m.(fibers := m'.fibers, waits := m'.waits, queue := m'.queue)
    && m'.fibers.Keys == m.fibers.Keys && (forall f {:trigger m'.fibers[f]} :: f in m.fibers ==> m'.fibers[f] == AskedWhole(m.fibers[f]).(wait := m'.fibers[f].wait))
    && m'.waits.Keys == m.waits.Keys && (forall w {:trigger m'.waits[w]} :: w in m.waits ==> m'.waits[w] == Kept(m.waits[w]))
    && exists bound: nat :: (forall w :: w in m.waits ==> w < bound) && m'.queue == m.queue + ThrowJobs(m.waits, bound)
  }

  /** The listed waits below the bound, but for those for children, the last first. */
  function ThrowJobs(waits: map<nat, Wait>, bound: nat): seq<Job> {
    if bound == 0 then []
    else
      var w := bound - 1;
      (if w in waits && waits[w].live && !waits[w].closing then [RootThrow(w)] else []) + ThrowJobs(waits, w)
  }

  /** A continuation that does not wait for children goes on as it was. */
  lemma GoesOnPlain(m: Machine, f: nat)
    requires f in m.fibers && !IsClosing(m.fibers[f])
    ensures GoesOn(m, f) == m.(current := Some(f))
  {
    assert m.fibers == m.fibers[f := m.fibers[f]];
  }

  /** A job adds no failure. */
  ghost predicate SameFirsts(m: Machine, m': Machine) {
    m.scopes.Keys <= m'.scopes.Keys && forall s {:trigger m'.scopes[s]} :: s in m.scopes ==> m'.scopes[s].first == m.scopes[s].first
  }

  lemma NotBlamed(m: Machine, s: nat, cause: Option<Cause>)
    requires s in m.scopes && !Counts(cause)
    ensures BlamedFor(m, s, cause) == m
  {
  }

  /** The fibers below `f` are asked to unwind. */
  ghost predicate AskedBelow(m: Machine, m': Machine, f: nat) {
    && m' == m.(fibers := m'.fibers) && m'.fibers.Keys == m.fibers.Keys
    && forall g {:trigger m'.fibers[g]} :: g in m.fibers ==> m'.fibers[g] == if g < f then AskedWhole(m.fibers[g]) else m.fibers[g]
  }

  lemma AskedNone(m: Machine)
    ensures AskedBelow(m, m, 0)
  {
  }

  lemma AskedNext(m: Machine, m': Machine, f: nat)
    requires AskedBelow(m, m', f)
    ensures if f in m'.fibers && !m'.fibers[f].ended && !WillUnwind(m'.fibers[f]) then AskedBelow(m, Asked(m', f, Whole), f + 1) else AskedBelow(m, m', f + 1)
  {
  }

  lemma AskedEvery(m: Machine, m': Machine, fibers: nat, scopes: nat, waits: nat)
    requires AskedBelow(m, m', fibers) && Numbered(m', fibers, scopes, waits)
    ensures m' == m.(fibers := m'.fibers) && m'.fibers.Keys == m.fibers.Keys
    ensures forall f {:trigger m'.fibers[f]} :: f in m.fibers ==> m'.fibers[f] == AskedWhole(m.fibers[f])
  {
  }

  /** The waits listed in `m`, from `w` up to the bound and not for children, are unwound. */
  ghost predicate ThrownFrom(m: Machine, m': Machine, w: nat, bound: nat) {
    && m' == m.(fibers := m'.fibers, waits := m'.waits, queue := m'.queue)
    && m'.queue + ThrowJobs(m.waits, w) == m.queue + ThrowJobs(m.waits, bound)
    && m'.fibers.Keys == m.fibers.Keys && (forall f {:trigger m'.fibers[f]} :: f in m.fibers ==> m'.fibers[f] == m.fibers[f].(wait := m'.fibers[f].wait))
    && ThrownWaits(m.waits, m'.waits, w, bound)
  }

  ghost predicate ThrownWaits(waits: map<nat, Wait>, waits': map<nat, Wait>, w: nat, bound: nat) {
    waits'.Keys == waits.Keys && forall v {:trigger waits'[v]} :: v in waits ==> waits'[v] == if w <= v < bound then Kept(waits[v]) else waits[v]
  }

  lemma ThrownNone(m: Machine, bound: nat)
    ensures ThrownFrom(m, m, bound, bound)
  {
  }

  lemma ThrownNext(m: Machine, m': Machine, w: nat, bound: nat)
    requires ThrownFrom(m, m', w + 1, bound) && w < bound && (w in m'.waits ==> m'.waits[w].fiber in m'.fibers)
    ensures if w in m'.waits && m'.waits[w].live && !m'.waits[w].closing then ThrownFrom(m, Requeued(m', w, RootThrow(w)), w, bound) else ThrownFrom(m, m', w, bound)
  {
    ThrownWait(m.waits, m'.waits, w, bound);
    ThrownJob(m.waits, m'.queue, w);
    hide ThrownWaits, ThrowJobs;
  }

  lemma ThrownWait(waits: map<nat, Wait>, waits': map<nat, Wait>, w: nat, bound: nat)
    requires ThrownWaits(waits, waits', w + 1, bound) && w < bound
    ensures w in waits' <==> w in waits
    ensures w in waits ==> waits'[w] == waits[w]
    ensures if w in waits && waits[w].live && !waits[w].closing then ThrownWaits(waits, waits'[w := waits'[w].(live := false)], w, bound) else ThrownWaits(waits, waits', w, bound)
  {
  }

  lemma ThrownJob(waits: map<nat, Wait>, queue: seq<Job>, w: nat)
    ensures queue + ThrowJobs(waits, w + 1) ==
            (if w in waits && waits[w].live && !waits[w].closing then queue + [RootThrow(w)] else queue) + ThrowJobs(waits, w)
  {
  }

  /** The step that ends a scope for which its fiber waited. */
  lemma ClosedWith(m: Machine, f: nat, w: nat, m': Machine)
    requires m.queue != [] && w in m.waits && m.waits[w].fiber == f && f in m.fibers && IsClosing(m.fibers[f]) && m.fibers[f].frames[0].scope in m.scopes
    requires m.fibers[f].holds > 0
    requires var s, n := m.fibers[f].frames[0].scope, Resumed(Popped(m), w);
             m' == n.(fibers := n.fibers[f := n.fibers[f].(frames := n.fibers[f].frames[1..])], scopes := n.scopes[s := n.scopes[s].(ended := true)])
    ensures var s, n := m.fibers[f].frames[0].scope, GoneOn(m, w);
            m' == n.(fibers := m.fibers[f := m.fibers[f].(frames := m.fibers[f].frames[1..], holds := m.fibers[f].holds - 1)], scopes := m.scopes[s := m.scopes[s].(ended := true)])
  {
    var n := Resumed(Popped(m), w);
    assert n.fibers[f].frames[1..] == m.fibers[f].frames[1..];
  }

  // ---------- every action ----------

  /** A fiber that can be asked about: the root cannot. */
  predicate Child(m: Machine, c: nat) {
    c in m.fibers && m.fibers[c].scope.Some?
  }

  /** What the code of the current fiber `f` asks for. */
  ghost predicate Does(m: Machine, f: nat, action: Action, m': Machine, taken: Taken)
    requires f in m.fibers
  {
    var fiber := m.fibers[f];
    match action
    case OpenScope =>
      && taken == NOTHING
      && exists s :: s !in m.scopes &&
           m' == m.(scopes := m.scopes[s := Scope(f, fiber.scopes, [], None, false, None, false, None)],
                    fibers := m.fibers[f := fiber.(frames := [Body(s)] + fiber.frames, scopes := fiber.scopes + 1)])
    case Fork(s) =>
      && taken == NOTHING
      && if s !in m.scopes || m.scopes[s].closed then m' == m
         else
           exists c :: c !in m.fibers &&
             m' == m.(fibers := m.fibers[c := Fiber(Some(s), false, None, UNIT, 0, 0, [], [], false, None, [], [])],
                      scopes := m.scopes[s := m.scopes[s].(children := m.scopes[s].children + [c])], queue := m.queue + [Begin(c)])
    case Suspend => taken == NOTHING && exists w :: w !in m.waits && m' == SuspendedAs(m, f, w)
    case Join(c, verb) =>
      && taken == NOTHING
      && if !Child(m, c) then m' == m
         else if Interrupting(fiber) then TookOne(m, m', f)
         else if m.fibers[c].ended then m' == m
         else exists w :: Watches(m, m', f, c, w, verb)
    case Ask(c) =>
      && taken == NOTHING
      && if !Child(m, c) then m' == m
         else if Interrupting(fiber) then TookOne(m, m', f)
         else if ScopeEnded(m, c) then m' == m
         else
           var n := InterruptedAs(m, c, Whole);
           if c == f then (if fiber.holds == 0 then TookOne(n, m', f) else m' == n)
           else if m.fibers[c].ended then m' == n
           else exists w :: Watches(n, m', f, c, w, Interrupts)
    case Point => taken == NOTHING && if Interrupting(fiber) then TookOne(m, m', f) else m' == m
    case Hold => taken == NOTHING && m' == m.(fibers := m.fibers[f := fiber.(holds := fiber.holds + 1)])
    case Unhold => taken == NOTHING && m' == if fiber.holds > 0 then m.(fibers := m.fibers[f := fiber.(holds := fiber.holds - 1)]) else m
    case Return(input) => if fiber.frames != [] then BodyOver(m, m', f, input, taken) else taken == NOTHING && m' == FiberOver(m, f, input)
    case _ => taken == NOTHING && m' == m
  }

  predicate OfTheCode(action: Action) {
    !action.Wake? && !action.Tick? && !action.Next? && !action.Stall?
  }

  /** What an action does; nothing where it is not possible. */
  ghost predicate Happens(m: Machine, action: Action, m': Machine, taken: Taken) {
    if m.over then m' == m && taken == NOTHING
    else
      match action
      case Wake(w, input) =>
        && taken == NOTHING
        && m' == if w in m.waits && !m.waits[w].closing then Roused(m, w, input) else m
      case Tick(w) =>
        taken == NOTHING && m' == if w in m.waits && !m.waits[w].closing then m.(queue := m.queue + [Go(w)]) else m
      case Next => if m.current.None? && m.queue != [] then JobDone(m, m', taken) else m' == m && taken == NOTHING
      case Stall => taken == NOTHING && if m.current.None? then Stalled(m, m') else m' == m
      case _ => if m.current.Some? && m.current.value in m.fibers then Does(m, m.current.value, action, m', taken) else m' == m && taken == NOTHING
  }

  // ---------- the record of failures ----------

  /** The failure an action adds to the record of scope `s`: only code that returns does. */
  ghost function Blames(m: Machine, action: Action, s: nat): seq<Cause> {
    if !m.over && action.Return? && m.current.Some? && m.current.value in m.fibers && Counts(CauseOf(action.input)) &&
       ReturnsTo(m.fibers[m.current.value]) == Some(s)
    then [CauseOf(action.input).value] else []
  }

  /** The records of failures after an action. */
  ghost predicate BlamesLogged(m: Machine, failures: map<nat, seq<Cause>>, action: Action, failures': map<nat, seq<Cause>>) {
    forall s :: s in m.scopes ==> FailuresOf(failures', s) == FailuresOf(failures, s) + Blames(m, action, s)
  }

  /** A scope's first failure is the first that an action adds. */
  ghost predicate FirstAt(m: Machine, action: Action, m': Machine, s: nat)
    requires s in m.scopes
  {
    s in m'.scopes && m'.scopes[s].first == if m.scopes[s].first.Some? then m.scopes[s].first else FirstOf(Blames(m, action, s))
  }

  ghost predicate Firsts(m: Machine, action: Action, m': Machine) {
    forall s {:trigger FirstAt(m, action, m', s)} :: s in m.scopes ==> FirstAt(m, action, m', s)
  }

  lemma FirstsFollow(m: Machine, failures: map<nat, seq<Cause>>, action: Action, m': Machine, failures': map<nat, seq<Cause>>)
    requires Logged(m, failures) && Logged(m', failures') && Keeps(m, m') && BlamesLogged(m, failures, action, failures')
    ensures Firsts(m, action, m')
  {
    hide Blames;
    forall s | s in m.scopes ensures FirstAt(m, action, m', s) {
      assert ScopeKept(m, m', s) && LoggedAt(m, failures, s) && LoggedAt(m', failures', s);
    }
  }

  /** The action adds no failure, and none is found. */
  ghost predicate Blameless(m: Machine, action: Action, m': Machine) {
    SameFirsts(m, m') && forall s :: s in m.scopes ==> Blames(m, action, s) == []
  }

  lemma NoBlames(m: Machine, failures: map<nat, seq<Cause>>, action: Action)
    requires !action.Return? || m.over || m.current.None?
    ensures BlamesLogged(m, failures, action, failures) && Blameless(m, action, m)
    ensures forall m' {:trigger Blameless(m, action, m')} :: SameFirsts(m, m') ==> Blameless(m, action, m')
  {
  }

  lemma FirstsSame(m: Machine, action: Action, m': Machine)
    requires Blameless(m, action, m')
    ensures Firsts(m, action, m')
  {
    hide Blames;
    forall s | s in m.scopes ensures FirstAt(m, action, m', s) {
    }
  }

  /** The scope a return is an end in: that of the innermost body, or the one the fiber was forked in. */
  function ReturnsTo(fiber: Fiber): Option<nat> {
    if fiber.frames != [] then Some(fiber.frames[0].scope) else fiber.scope
  }
}
