/** The emitted C does what the structured body means, however often it is suspended and resumed. */
module Preservation {
  import opened Wrappers
  import opened Ir
  import opened Paths
  import opened Liveness
  import opened Machine
  import opened Emit
  import opened Labels

  // ---------- what the verifier of the IR guarantees ----------

  predicate WfTerm(t: Term, x: Ctx, y: Target) {
    match t
    case Yield(v) => y.Target? && (y.dst.Some? ==> v.Some?)
    case Break(l, v) => l in x.labels && x.labels[l].Target? && (x.labels[l].dst.Some? ==> v.Some?)
    case Recur(args) => x.loop.InLoop? && |args| == |x.loop.vars|
    case _ => true
  }

  predicate WfSeq(q: Seq, x: Ctx, y: Target)
    decreases q, 0
  {
    match q
    case End(t) => WfTerm(t, x, y)
    case Then(stmt, rest) => WfStmt(stmt, x) && WfSeq(rest, x, y)
  }

  predicate WfStmt(stmt: Stmt, x: Ctx)
    decreases stmt, 0
  {
    match stmt
    case Let(_, op, _, onDefect, onFail, onSuspend) =>
      && (onDefect.Landing? <==> op.mayDefect) && (onFail.Handle? <==> op.fallible) && (onSuspend.Suspend? <==> op.maySuspend)
      && (onDefect.Landing? ==> WfSeq(onDefect.body, x, NoTarget))
      && (onFail.Handle? ==> WfSeq(onFail.body, x, NoTarget))
    case If(id, dst, _, whenTrue, whenFalse) =>
      WfSeq(whenTrue, x, Target(dst, EndOf(id), false)) && WfSeq(whenFalse, x, Target(dst, EndOf(id), true))
    case Switch(id, dst, _, cases) => WfCases(cases, x, Target(dst, EndOf(id), false))
    case Loop(id, dst, vars, inits, body) =>
      && |vars| == |inits| && AllOf(vars) !! UsesAll(inits)
      && WfSeq(body, x.(loop := InLoop(vars, HeadOf(id))), Target(dst, EndOf(id), true))
    case Block(id, dst, target, body) =>
      target !in x.labels &&
      WfSeq(body, x.(labels := x.labels[target := Target(dst, EndOf(id), false)]), Target(dst, EndOf(id), true))
    case Count(_, _) => true
  }

  predicate WfCases(cases: Cases, x: Ctx, y: Target)
    decreases cases, 0
  {
    match cases
    case Case(_, body, more) => WfSeq(body, x, y) && WfCases(more, x, y)
    case Default(body) => WfSeq(body, x, y)
    case NoDefault => true
  }

  /** Every suspension edge saves at least what is live on. */
  predicate SavedSeq(q: Seq, c: LiveCtx)
    decreases q, 0
  {
    match q
    case End(_) => true
    case Then(stmt, rest) => SavedStmt(stmt, LiveSeq(rest, c), c) && SavedSeq(rest, c)
  }

  predicate SavedStmt(stmt: Stmt, after: set<VarId>, c: LiveCtx)
    decreases stmt, 0
  {
    match stmt
    case Let(_, _, _, onDefect, onFail, onSuspend) =>
      && (onSuspend.Suspend? ==> LiveOn(stmt, after, c) <= AllOf(onSuspend.saved))
      && (onDefect.Landing? ==> SavedSeq(onDefect.body, c))
      && (onFail.Handle? ==> SavedSeq(onFail.body, c))
    case If(_, dst, _, whenTrue, whenFalse) =>
      var inner := c.(yieldLive := after - Defined(dst));
      SavedSeq(whenTrue, inner) && SavedSeq(whenFalse, inner)
    case Switch(_, dst, _, cases) => SavedCases(cases, c.(yieldLive := after - Defined(dst)))
    case Loop(_, dst, vars, _, body) => SavedSeq(body, LoopCtx(vars, body, after - Defined(dst), c))
    case Block(_, dst, target, body) =>
      SavedSeq(body, c.(yieldLive := after - Defined(dst), afterLabel := c.afterLabel[target := after - Defined(dst)]))
    case Count(_, _) => true
  }

  predicate SavedCases(cases: Cases, c: LiveCtx)
    decreases cases, 0
  {
    match cases
    case Case(_, body, more) => SavedSeq(body, c) && SavedCases(more, c)
    case Default(body) => SavedSeq(body, c)
    case NoDefault => true
  }

  // ---------- agreement on live variables ----------

  ghost predicate Agree(a: Env, b: Env, live: set<VarId>) {
    forall v :: v in live ==> Get(a, v) == Get(b, v)
  }

  lemma AgreeLess(a: Env, b: Env, live: set<VarId>, fewer: set<VarId>)
    requires Agree(a, b, live) && fewer <= live
    ensures Agree(a, b, fewer)
  {
  }

  lemma AgreeEval(a: Env, b: Env, o: Operand, live: set<VarId>)
    requires Agree(a, b, live) && Uses(o) <= live
    ensures Eval(a, o) == Eval(b, o)
  {
  }

  lemma AgreeEvalOpt(a: Env, b: Env, o: Option<Operand>, live: set<VarId>)
    requires Agree(a, b, live) && UsesOpt(o) <= live
    ensures EvalOpt(a, o) == EvalOpt(b, o)
  {
  }

  lemma {:induction false} UsesMember(os: seq<Operand>, i: nat)
    requires i < |os|
    ensures Uses(os[i]) <= UsesAll(os)
    decreases |os|
  {
    if i > 0 {
      UsesMember(os[1..], i - 1);
    }
  }

  lemma AgreeEvalAll(a: Env, b: Env, os: seq<Operand>, live: set<VarId>)
    requires Agree(a, b, live) && UsesAll(os) <= live
    ensures EvalAll(a, os) == EvalAll(b, os)
  {
    forall i | 0 <= i < |os| ensures Eval(a, os[i]) == Eval(b, os[i]) {
      UsesMember(os, i);
      AgreeEval(a, b, os[i], live);
    }
  }

  lemma AgreeBind(a: Env, b: Env, dst: Option<VarId>, value: Option<Val>, live: set<VarId>)
    requires Agree(a, b, live - Defined(dst)) && (dst.Some? ==> value.Some?)
    ensures Agree(Bind(a, dst, value), Bind(b, dst, value), live + Defined(dst))
  {
    forall v | v in live + Defined(dst) ensures Get(Bind(a, dst, value), v) == Get(Bind(b, dst, value), v) {
      assert v in Defined(dst) || v in live - Defined(dst);
    }
  }

  lemma {:induction false} AgreeBindFrom(a: Env, b: Env, vars: seq<VarId>, vals: seq<Val>, i: nat, live: set<VarId>)
    requires i <= |vars| == |vals| && Agree(a, b, live)
    ensures Agree(BindFrom(a, vars, vals, i), BindFrom(b, vars, vals, i), live + AllOf(vars[i..]))
    decreases |vars| - i
  {
    if i < |vars| {
      AgreeBindFrom(a[vars[i] := vals[i]], b[vars[i] := vals[i]], vars, vals, i + 1, live + {vars[i]});
    }
  }

  lemma AgreeBindAll(a: Env, b: Env, vars: seq<VarId>, vals: seq<Val>, live: set<VarId>)
    requires |vars| == |vals| && Agree(a, b, live)
    ensures Agree(BindAll(a, vars, vals), BindAll(b, vars, vals), live + AllOf(vars))
  {
    AgreeBindFrom(a, b, vars, vals, 0, live);
    assert vars[0..] == vars;
  }

  /** Restoring saved variables gives back their values. */
  lemma {:induction false} Restored(env: Env, saved: seq<VarId>, start: Env, i: nat, v: VarId)
    requires i <= |saved| && (v in saved[i..] || Get(start, v) == Get(env, v))
    ensures Get(BindFrom(start, saved, Values(env, saved), i), v) == Get(env, v)
    decreases |saved| - i
  {
    if i < |saved| {
      var start' := start[saved[i] := Values(env, saved)[i]];
      assert v in saved[i..] ==> v == saved[i] || v in saved[i + 1..];
      Restored(env, saved, start', i + 1, v);
    }
  }

  // ---------- where a run of the C is when the structured one leaves ----------

  ghost predicate Calm(r: Regs, history: History) {
    r.failure.None? && r.suspended.None? && r.frame.None? && r.history == history
  }

  function LabelLive(c: LiveCtx, l: LabelId): set<VarId> {
    if l in c.afterLabel then c.afterLabel[l] else {}
  }

  /** After `n` steps the C is at `m`, which is where the exit leads. */
  ghost predicate Leaves(f: Function, m: Config, n: nat, fuel: nat, exit: Exit, s: State, r: Regs, x: Ctx, c: LiveCtx, jumps: set<Name>) {
    match exit
    case Yielded(_) => false
    case Broke(l, v) =>
      && l in x.labels && x.labels[l].Target? && x.labels[l].end in jumps && m == Jump(f, x.labels[l].end, r) && Calm(r, s.history)
      && Agree(Bind(s.env, x.labels[l].dst, v), r.env, LabelLive(c, l) + Defined(x.labels[l].dst))
    case Recurred(args) =>
      && x.loop.InLoop? && |args| == |x.loop.vars| && x.loop.head in jumps && m == Jump(f, x.loop.head, r) && Calm(r, s.history)
      && Agree(BindAll(s.env, x.loop.vars, args), r.env, c.head + AllOf(x.loop.vars))
    case Returned(v) => m == Finished(v, None, s.history)
    case Failed(e) => m == Finished(None, Some(e), s.history)
    case Unwound => m == Finished(None, None, s.history)
    case Aborted => m == Crashed(s.history)
    case OutOfFuel => n >= fuel && m.Running?
  }

  /** The end of a sequence. */
  ghost predicate Ends(f: Function, m: Config, n: nat, fuel: nat, d: Done, r: Regs, x: Ctx, y: Target, c: LiveCtx, kont: seq<seq<C>>, jumps: set<Name>) {
    if d.exit.Yielded? then
      && y.Target? && (if y.falls then m == Running([], kont, r) else y.end in jumps && m == Jump(f, y.end, r))
      && Calm(r, d.s.history) && Agree(Bind(d.s.env, y.dst, d.exit.value), r.env, c.yieldLive + Defined(y.dst))
    else Leaves(f, m, n, fuel, d.exit, d.s, r, x, c, jumps)
  }

  /** The end of a statement. */
  ghost predicate Goes(f: Function, m: Config, n: nat, fuel: nat, flow: Flow, r: Regs, x: Ctx, c: LiveCtx, after: set<VarId>,
                       rest: seq<C>, kont: seq<seq<C>>, jumps: set<Name>) {
    match flow
    case Next(s) => m == Running(rest, kont, r) && Calm(r, s.history) && Agree(s.env, r.env, after)
    case Left(exit, s) => Leaves(f, m, n, fuel, exit, s, r, x, c, jumps)
  }

  /** The statics of a function the simulation needs. */
  ghost predicate Resumable(f: Function) {
    forall i, j :: 0 <= i < j < |f.resumes| ==> f.resumes[i].state != f.resumes[j].state
  }

  ghost predicate Known(f: Function, points: seq<ResumePoint>) {
    forall p :: p in points ==> p in f.resumes
  }

  // ---------- straight code ----------

  lemma {:induction false} RunTemps(host: Host, f: Function, args: seq<Operand>, i: nat, rest: seq<C>, kont: seq<seq<C>>, r: Regs) returns (n: nat, r': Regs)
    requires i <= |args| && forall k :: 0 <= k < i ==> k in r.temps && r.temps[k] == Eval(r.env, args[k])
    ensures Steps(host, f, Running(TempsFrom(args, i) + rest, kont, r), n) == Running(rest, kont, r')
    ensures r' == r.(temps := r'.temps) && forall k :: 0 <= k < |args| ==> k in r'.temps && r'.temps[k] == Eval(r.env, args[k])
    decreases |args| - i
  {
    if i == |args| {
      n, r' := 0, r;
      assert TempsFrom(args, i) + rest == rest;
    } else {
      var next := r.(temps := r.temps[i := Eval(r.env, args[i])]);
      n, r' := RunTemps(host, f, args, i + 1, rest, kont, next);
      TempsNext(args, i, rest);
      hide Steps, TempsFrom;
      StepHead(host, f, Temp(i, args[i]), TempsFrom(args, i + 1) + rest, kont, r);
      StepsAdd(host, f, Running(TempsFrom(args, i) + rest, kont, r), 1, n);
      n := n + 1;
    }
  }

  lemma TempsNext(args: seq<Operand>, i: nat, rest: seq<C>)
    requires i < |args|
    ensures TempsFrom(args, i) + rest == [Temp(i, args[i])] + (TempsFrom(args, i + 1) + rest)
  {
  }

  lemma {:induction false} RunFromTemps(host: Host, f: Function, vars: seq<VarId>, vals: seq<Val>, i: nat, rest: seq<C>, kont: seq<seq<C>>, r: Regs) returns (n: nat)
    requires i <= |vars| == |vals| && forall k :: 0 <= k < |vals| ==> k in r.temps && r.temps[k] == vals[k]
    ensures Steps(host, f, Running(FromTempsFrom(vars, i) + rest, kont, r), n) == Running(rest, kont, r.(env := BindFrom(r.env, vars, vals, i)))
    decreases |vars| - i
  {
    if i == |vars| {
      n := 0;
      assert FromTempsFrom(vars, i) + rest == rest;
    } else {
      n := RunFromTemps(host, f, vars, vals, i + 1, rest, kont, r.(env := r.env[vars[i] := vals[i]]));
      assert FromTempsFrom(vars, i) + rest == [FromTemp(vars[i], i)] + (FromTempsFrom(vars, i + 1) + rest);
      StepHead(host, f, FromTemp(vars[i], i), FromTempsFrom(vars, i + 1) + rest, kont, r);
      StepsAdd(host, f, Running(FromTempsFrom(vars, i) + rest, kont, r), 1, n);
      n := n + 1;
    }
  }

  /** The initial values do not use the loop variables, so assigning them one by one is binding them at
      once. */
  lemma {:induction false} RunInits(host: Host, f: Function, vars: seq<VarId>, inits: seq<Operand>, vals: seq<Val>, i: nat, rest: seq<C>, kont: seq<seq<C>>, r: Regs) returns (n: nat)
    requires i <= |vars| == |inits| == |vals| && AllOf(vars) !! UsesAll(inits)
    requires forall k :: i <= k < |inits| ==> Eval(r.env, inits[k]) == vals[k]
    ensures Steps(host, f, Running(InitsFrom(vars, inits, i) + rest, kont, r), n) == Running(rest, kont, r.(env := BindFrom(r.env, vars, vals, i)))
    decreases |vars| - i
  {
    if i == |vars| {
      n := 0;
      assert InitsFrom(vars, inits, i) + rest == rest;
    } else {
      var next := r.(env := r.env[vars[i] := vals[i]]);
      forall k | i + 1 <= k < |inits| ensures Eval(next.env, inits[k]) == vals[k] {
        UsesMember(inits, k);
        assert vars[i] in AllOf(vars);
      }
      n := RunInits(host, f, vars, inits, vals, i + 1, rest, kont, next);
      assert InitsFrom(vars, inits, i) + rest == [Assign(vars[i], inits[i])] + (InitsFrom(vars, inits, i + 1) + rest);
      StepHead(host, f, Assign(vars[i], inits[i]), InitsFrom(vars, inits, i + 1) + rest, kont, r);
      StepsAdd(host, f, Running(InitsFrom(vars, inits, i) + rest, kont, r), 1, n);
      n := n + 1;
    }
  }

  /** A label, written or not, is passed. */
  lemma PassLabel(host: Host, f: Function, name: Name, code: seq<C>, rest: seq<C>, kont: seq<seq<C>>, r: Regs) returns (n: nat)
    ensures Steps(host, f, Running(LabelIfUsed(name, code) + rest, kont, r), n) == Running(rest, kont, r)
  {
    if name in Gotos(code) {
      n := 1;
      StepHead(host, f, Label(name), rest, kont, r);
    } else {
      n := 0;
      assert LabelIfUsed(name, code) + rest == rest;
    }
  }

  /** A goto to it goes on right after it. */
  lemma LandOnLabel(f: Function, before: seq<C>, name: Name, code: seq<C>, rest: seq<C>, kont: seq<seq<C>>, r: Regs)
    requires name in Gotos(code) && Anchored(f, before + (LabelIfUsed(name, code) + rest), kont)
    ensures Jump(f, name, r) == Running(rest, kont, r)
  {
    AnchoredLabel(f, before, name, rest, kont);
  }

  lemma LeavesLater(f: Function, m: Config, n: nat, n': nat, fuel: nat, exit: Exit, s: State, r: Regs, x: Ctx, c: LiveCtx, jumps: set<Name>, jumps': set<Name>)
    requires Leaves(f, m, n, fuel, exit, s, r, x, c, jumps) && n <= n' && jumps <= jumps'
    ensures Leaves(f, m, n', fuel, exit, s, r, x, c, jumps')
  {
  }

  // ---------- the simulation ----------

  lemma SimTerm(host: Host, f: Function, fuel: nat, t: Term, x: Ctx, y: Target, c: LiveCtx, s: State, kont: seq<seq<C>>, r: Regs)
    returns (n: nat, r': Regs)
    requires WfTerm(t, x, y) && Calm(r, s.history) && Agree(s.env, r.env, LiveTerm(t, c))
    ensures Ends(f, Steps(host, f, Running(EmitTerm(t, x, y), kont, r), n), n, fuel, RunTerm(t, s), r', x, y, c, kont, Gotos(EmitTerm(t, x, y)))
  {
    match t
    case Yield(v) => n, r' := SimYield(host, f, fuel, v, x, y, c, s, kont, r);
    case Return(v) =>
      AgreeEvalOpt(s.env, r.env, v, LiveTerm(t, c));
      StepHead(host, f, Leave(v), [], kont, r);
      assert [Leave(v)] + [] == EmitTerm(t, x, y);
      n, r' := 1, r;
    case Fail(e) =>
      AgreeEval(s.env, r.env, e, LiveTerm(t, c));
      StepHead(host, f, SetFailure(e), [Leave(None)], kont, r);
      StepHead(host, f, Leave(None), [], kont, r.(failure := Some(Eval(r.env, e))));
      assert [Leave(None)] + [] == [Leave(None)] && [SetFailure(e)] + [Leave(None)] == EmitTerm(t, x, y);
      StepsAdd(host, f, Running(EmitTerm(t, x, y), kont, r), 1, 1);
      n, r' := 2, r;
    case Break(l, v) => n, r' := SimBreak(host, f, fuel, l, v, x, y, c, s, kont, r);
    case Recur(args) => n, r' := SimRecur(host, f, fuel, args, x, y, c, s, kont, r);
    case Unwind =>
      StepHead(host, f, Leave(None), [], kont, r);
      assert [Leave(None)] + [] == EmitTerm(t, x, y);
      n, r' := 1, r;
    case Unreachable =>
      StepHead(host, f, Abort, [], kont, r);
      assert [Abort] + [] == EmitTerm(t, x, y);
      n, r' := 1, r;
  }

  /** Storing the value of a yield or break. */
  lemma StoreValue(host: Host, f: Function, dst: Option<VarId>, v: Option<Operand>, env: Env, live: set<VarId>, rest: seq<C>, kont: seq<seq<C>>, r: Regs)
    returns (n: nat, r': Regs)
    requires Agree(env, r.env, live + UsesOpt(v)) && (dst.Some? ==> v.Some?)
    ensures Steps(host, f, Running(AssignTo(dst, v) + rest, kont, r), n) == Running(rest, kont, r')
    ensures r' == r.(env := r'.env) && Agree(Bind(env, dst, EvalOpt(env, v)), r'.env, live + Defined(dst))
  {
    AgreeEvalOpt(env, r.env, v, live + UsesOpt(v));
    AgreeLess(env, r.env, live + UsesOpt(v), live - Defined(dst));
    if dst.Some? {
      AgreeBind(env, r.env, dst, EvalOpt(env, v), live);
      StepHead(host, f, Assign(dst.value, v.value), rest, kont, r);
      n, r' := 1, r.(env := r.env[dst.value := Eval(r.env, v.value)]);
    } else {
      assert AssignTo(dst, v) + rest == rest;
      n, r' := 0, r;
    }
  }

  lemma SimYield(host: Host, f: Function, fuel: nat, v: Option<Operand>, x: Ctx, y: Target, c: LiveCtx, s: State, kont: seq<seq<C>>, r: Regs)
    returns (n: nat, r': Regs)
    requires WfTerm(Yield(v), x, y) && Calm(r, s.history) && Agree(s.env, r.env, c.yieldLive + UsesOpt(v))
    ensures Ends(f, Steps(host, f, Running(EmitTerm(Yield(v), x, y), kont, r), n), n, fuel, RunTerm(Yield(v), s), r', x, y, c, kont, Gotos(EmitTerm(Yield(v), x, y)))
  {
    var tail := if y.falls then [] else [Goto(y.end)];
    n, r' := StoreValue(host, f, y.dst, v, s.env, c.yieldLive, tail, kont, r);
    if !y.falls {
      StepHead(host, f, Goto(y.end), [], kont, r');
      assert [Goto(y.end)] + [] == tail;
      StepsAdd(host, f, Running(AssignTo(y.dst, v) + tail, kont, r), n, 1);
      n := n + 1;
      LabelsAppend(AssignTo(y.dst, v), tail);
      LabelsOne(Goto(y.end));
    }
  }

  lemma SimBreak(host: Host, f: Function, fuel: nat, l: LabelId, v: Option<Operand>, x: Ctx, y: Target, c: LiveCtx, s: State, kont: seq<seq<C>>, r: Regs)
    returns (n: nat, r': Regs)
    requires WfTerm(Break(l, v), x, y) && Calm(r, s.history) && Agree(s.env, r.env, LabelLive(c, l) + UsesOpt(v))
    ensures Ends(f, Steps(host, f, Running(EmitTerm(Break(l, v), x, y), kont, r), n), n, fuel, RunTerm(Break(l, v), s), r', x, y, c, kont, Gotos(EmitTerm(Break(l, v), x, y)))
  {
    var end := x.labels[l].end;
    n, r' := StoreValue(host, f, x.labels[l].dst, v, s.env, LabelLive(c, l), [Goto(end)], kont, r);
    StepHead(host, f, Goto(end), [], kont, r');
    assert [Goto(end)] + [] == [Goto(end)];
    StepsAdd(host, f, Running(AssignTo(x.labels[l].dst, v) + [Goto(end)], kont, r), n, 1);
    n := n + 1;
    LabelsAppend(AssignTo(x.labels[l].dst, v), [Goto(end)]);
    LabelsOne(Goto(end));
  }

  /** Parallel assignment: the temporaries are all computed before a variable changes. */
  lemma SimRecur(host: Host, f: Function, fuel: nat, args: seq<Operand>, x: Ctx, y: Target, c: LiveCtx, s: State, kont: seq<seq<C>>, r: Regs)
    returns (n: nat, r': Regs)
    requires WfTerm(Recur(args), x, y) && Calm(r, s.history) && Agree(s.env, r.env, c.head + UsesAll(args))
    ensures Ends(f, Steps(host, f, Running(EmitTerm(Recur(args), x, y), kont, r), n), n, fuel, RunTerm(Recur(args), s), r', x, y, c, kont, Gotos(EmitTerm(Recur(args), x, y)))
  {
    hide Steps, Jump, BindAll;
    var vars, head, vals := x.loop.vars, x.loop.head, EvalAll(s.env, args);
    AgreeEvalAll(s.env, r.env, args, c.head + UsesAll(args));
    n, r' := RunRecur(host, f, args, vars, head, kont, r);
    AgreeLess(s.env, r.env, c.head + UsesAll(args), c.head);
    AgreeBindAll(s.env, r.env, vars, vals, c.head);
    RecurGotos(args, vars, head);
  }

  lemma RecurGotos(args: seq<Operand>, vars: seq<VarId>, head: Name)
    ensures head in Gotos([Braces(TempsFrom(args, 0) + (FromTempsFrom(vars, 0) + [Goto(head)]))])
  {
    var jump := FromTempsFrom(vars, 0) + [Goto(head)];
    LabelsOne(Goto(head));
    LabelsAppend(FromTempsFrom(vars, 0), [Goto(head)]);
    LabelsAppend(TempsFrom(args, 0), jump);
    LabelsOne(Braces(TempsFrom(args, 0) + jump));
  }

  lemma RunRecur(host: Host, f: Function, args: seq<Operand>, vars: seq<VarId>, head: Name, kont: seq<seq<C>>, r: Regs) returns (n: nat, r': Regs)
    requires |args| == |vars|
    ensures var code := [Braces(TempsFrom(args, 0) + (FromTempsFrom(vars, 0) + [Goto(head)]))];
            Steps(host, f, Running(code, kont, r), n) == Jump(f, head, r')
    ensures r' == r.(env := BindAll(r.env, vars, EvalAll(r.env, args)), temps := r'.temps)
  {
    hide Steps, Jump, BindFrom;
    var vals := EvalAll(r.env, args);
    var jump := FromTempsFrom(vars, 0) + [Goto(head)];
    var body := TempsFrom(args, 0) + jump;
    var start := Running([Braces(body)], kont, r);
    StepHead(host, f, Braces(body), [], kont, r);
    assert [Braces(body)] + [] == [Braces(body)];
    var n1, r1 := RunTemps(host, f, args, 0, jump, [[]] + kont, r);
    var n2 := RunFromTemps(host, f, vars, vals, 0, [Goto(head)], [[]] + kont, r1);
    r' := r1.(env := BindAll(r1.env, vars, vals));
    StepHead(host, f, Goto(head), [], [[]] + kont, r');
    assert [Goto(head)] + [] == [Goto(head)];
    StepsAdd(host, f, start, 1, n1);
    StepsAdd(host, f, start, 1 + n1, n2);
    StepsAdd(host, f, start, 1 + n1 + n2, 1);
    n := 1 + n1 + n2 + 1;
  }

  /** Falling off the end of a nested statement, past its label. */
  lemma FallBehind(host: Host, f: Function, start: Config, n: nat, name: Name, code: seq<C>, rest: seq<C>, kont: seq<seq<C>>, r: Regs) returns (n': nat)
    requires Steps(host, f, start, n) == Running([], [LabelIfUsed(name, code) + rest] + kont, r)
    ensures n <= n' && Steps(host, f, start, n') == Running(rest, kont, r)
  {
    StepOut(host, f, LabelIfUsed(name, code) + rest, kont, r);
    StepsAdd(host, f, start, n, 1);
    var m := PassLabel(host, f, name, code, rest, kont, r);
    StepsAdd(host, f, start, n + 1, m);
    n' := n + 1 + m;
  }

  /** After a nested sequence: its yield goes on behind the statement, other exits go on out. */
  lemma FinishNested(host: Host, f: Function, start: Config, n: nat, fuel: nat, d: Done, r: Regs, x: Ctx, dst: Option<VarId>, id: nat, falls: bool,
                     inner: LiveCtx, c: LiveCtx, after: set<VarId>, before: seq<C>, code: seq<C>, rest: seq<C>, kont: seq<seq<C>>, k: seq<seq<C>>, jumps: set<Name>)
    returns (n': nat)
    requires Ends(f, Steps(host, f, start, n), n, fuel, d, r, x, Target(dst, EndOf(id), falls), inner, k, jumps)
    requires falls ==> k == [LabelIfUsed(EndOf(id), code) + rest] + kont
    requires inner.yieldLive == after - Defined(dst) && inner.head == c.head && inner.afterLabel == c.afterLabel
    requires jumps <= Gotos(code) && Anchored(f, before + (LabelIfUsed(EndOf(id), code) + rest), kont)
    ensures Goes(f, Steps(host, f, start, n'), n', fuel, After(d, dst), r, x, c, after, rest, kont, Gotos(code))
  {
    n' := n;
    if d.exit.Yielded? {
      AgreeLess(After(d, dst).s.env, r.env, inner.yieldLive + Defined(dst), after);
      if falls {
        n' := FallBehind(host, f, start, n, EndOf(id), code, rest, kont, r);
      } else {
        LandOnLabel(f, before, EndOf(id), code, rest, kont, r);
      }
    }
  }

  lemma {:induction false} SimSeq(host: Host, f: Function, fuel: nat, q: Seq, x: Ctx, y: Target, c: LiveCtx, s: State, kont: seq<seq<C>>, r: Regs)
    returns (n: nat, r': Regs)
    requires WfSeq(q, x, y) && SavedSeq(q, c) && Resumable(f) && OneWay(host) && Known(f, ResumesSeq(q)) && Anchored(f, EmitSeq(q, x, y), kont)
    requires Calm(r, s.history) && Agree(s.env, r.env, LiveSeq(q, c))
    ensures Ends(f, Steps(host, f, Running(EmitSeq(q, x, y), kont, r), n), n, fuel, RunSeq(host, fuel, q, s), r', x, y, c, kont, Gotos(EmitSeq(q, x, y)))
    decreases fuel, q, 0
  {
    match q
    case End(t) => n, r' := SimTerm(host, f, fuel, t, x, y, c, s, kont, r);
    case Then(stmt, rest) =>
      var code := EmitSeq(rest, x, y);
      LabelsAppend(EmitStmt(stmt, x), code);
      n, r' := SimStmt(host, f, fuel, stmt, x, c, LiveSeq(rest, c), s, code, kont, r);
      var flow := RunStmt(host, fuel, stmt, s);
      if flow.Next? {
        AnchoredTail(f, EmitStmt(stmt, x), code, kont);
        var m, r'' := SimSeq(host, f, fuel, rest, x, y, c, flow.s, kont, r');
        StepsAdd(host, f, Running(EmitStmt(stmt, x) + code, kont, r), n, m);
        n, r' := n + m, r'';
      }
  }

  lemma {:induction false} SimStmt(host: Host, f: Function, fuel: nat, stmt: Stmt, x: Ctx, c: LiveCtx, after: set<VarId>, s: State, rest: seq<C>, kont: seq<seq<C>>, r: Regs)
    returns (n: nat, r': Regs)
    requires WfStmt(stmt, x) && SavedStmt(stmt, after, c) && Resumable(f) && OneWay(host) && Known(f, ResumesStmt(stmt)) && Anchored(f, EmitStmt(stmt, x) + rest, kont)
    requires Calm(r, s.history) && Agree(s.env, r.env, LiveStmt(stmt, after, c))
    ensures Goes(f, Steps(host, f, Running(EmitStmt(stmt, x) + rest, kont, r), n), n, fuel, RunStmt(host, fuel, stmt, s), r', x, c, after, rest, kont, Gotos(EmitStmt(stmt, x)))
    decreases fuel, stmt, 4
  {
    match stmt
    case Let(_, _, _, _, _, _) => n, r' := SimLet(host, f, fuel, stmt, x, c, after, s, rest, kont, r);
    case If(_, _, _, _, _) => n, r' := SimIf(host, f, fuel, stmt, x, c, after, s, rest, kont, r);
    case Switch(_, _, _, _) => n, r' := SimSwitch(host, f, fuel, stmt, x, c, after, s, rest, kont, r);
    case Loop(_, _, _, _, _) => n, r' := SimLoop(host, f, fuel, stmt, x, c, after, s, rest, kont, r);
    case Block(_, _, _, _) => n, r' := SimBlock(host, f, fuel, stmt, x, c, after, s, rest, kont, r);
    case Count(up, v) =>
      StepHead(host, f, Recount(up, v), rest, kont, r);
      n, r' := 1, r.(history := r.history + [Counted(up, Get(r.env, v))]);
  }

  lemma {:induction false} SimIf(host: Host, f: Function, fuel: nat, stmt: Stmt, x: Ctx, c: LiveCtx, after: set<VarId>, s: State, rest: seq<C>, kont: seq<seq<C>>, r: Regs)
    returns (n: nat, r': Regs)
    requires stmt.If? && WfStmt(stmt, x) && SavedStmt(stmt, after, c) && Resumable(f) && OneWay(host) && Known(f, ResumesStmt(stmt)) && Anchored(f, EmitStmt(stmt, x) + rest, kont)
    requires Calm(r, s.history) && Agree(s.env, r.env, LiveStmt(stmt, after, c))
    ensures Goes(f, Steps(host, f, Running(EmitStmt(stmt, x) + rest, kont, r), n), n, fuel, RunStmt(host, fuel, stmt, s), r', x, c, after, rest, kont, Gotos(EmitStmt(stmt, x)))
    decreases fuel, stmt, 1
  {
    hide Goes, Ends, Leaves, Steps, Anchored, Find, Resumable, OneWay;
    var y, z := Target(stmt.dst, EndOf(stmt.id), false), Target(stmt.dst, EndOf(stmt.id), true);
    var inner := c.(yieldLive := after - Defined(stmt.dst));
    var yes, no := EmitSeq(stmt.whenTrue, x, y), EmitSeq(stmt.whenFalse, x, z);
    var test := When(Nonzero(stmt.cond), yes, no);
    var tail := LabelIfUsed(EndOf(stmt.id), [test]) + rest;
    var k := [tail] + kont;
    var start := Running(EmitStmt(stmt, x) + rest, kont, r);
    assert EmitStmt(stmt, x) + rest == [test] + tail;
    AgreeEval(s.env, r.env, stmt.cond, LiveStmt(stmt, after, c));
    StepHead(host, f, test, tail, kont, r);
    AnchoredWhen(f, Nonzero(stmt.cond), yes, no, tail, kont);
    LabelsOne(test);
    LabelsAppend([test], LabelIfUsed(EndOf(stmt.id), [test]));
    if Eval(s.env, stmt.cond) != 0 {
      AgreeLess(s.env, r.env, LiveStmt(stmt, after, c), LiveSeq(stmt.whenTrue, inner));
      n, r' := SimSeq(host, f, fuel, stmt.whenTrue, x, y, inner, s, k, r);
      StepsAdd(host, f, start, 1, n);
      EndsLater(f, Steps(host, f, start, 1 + n), n, 1 + n, fuel, RunSeq(host, fuel, stmt.whenTrue, s), r', x, y, inner, k, Gotos(yes), Gotos([test]));
      n := FinishNested(host, f, start, 1 + n, fuel, RunSeq(host, fuel, stmt.whenTrue, s), r', x, stmt.dst, stmt.id, false, inner, c, after, [test], [test], rest, kont, k, Gotos([test]));
    } else {
      AgreeLess(s.env, r.env, LiveStmt(stmt, after, c), LiveSeq(stmt.whenFalse, inner));
      n, r' := SimSeq(host, f, fuel, stmt.whenFalse, x, z, inner, s, k, r);
      StepsAdd(host, f, start, 1, n);
      EndsLater(f, Steps(host, f, start, 1 + n), n, 1 + n, fuel, RunSeq(host, fuel, stmt.whenFalse, s), r', x, z, inner, k, Gotos(no), Gotos([test]));
      n := FinishNested(host, f, start, 1 + n, fuel, RunSeq(host, fuel, stmt.whenFalse, s), r', x, stmt.dst, stmt.id, true, inner, c, after, [test], [test], rest, kont, k, Gotos([test]));
    }
    GoesWider(f, Steps(host, f, start, n), n, fuel, RunStmt(host, fuel, stmt, s), r', x, c, after, rest, kont, Gotos([test]), Gotos(EmitStmt(stmt, x)));
  }

  lemma EndsLater(f: Function, m: Config, n: nat, n': nat, fuel: nat, d: Done, r: Regs, x: Ctx, y: Target, c: LiveCtx, kont: seq<seq<C>>, jumps: set<Name>, jumps': set<Name>)
    requires Ends(f, m, n, fuel, d, r, x, y, c, kont, jumps) && n <= n' && jumps <= jumps'
    ensures Ends(f, m, n', fuel, d, r, x, y, c, kont, jumps')
  {
  }

  lemma GoesWider(f: Function, m: Config, n: nat, fuel: nat, flow: Flow, r: Regs, x: Ctx, c: LiveCtx, after: set<VarId>,
                  rest: seq<C>, kont: seq<seq<C>>, jumps: set<Name>, jumps': set<Name>)
    requires Goes(f, m, n, fuel, flow, r, x, c, after, rest, kont, jumps) && jumps <= jumps'
    ensures Goes(f, m, n, fuel, flow, r, x, c, after, rest, kont, jumps')
  {
  }

  // ---------- values ----------

  /** An operation comes back with a failure or with a defect pending, not with both. */
  ghost predicate OneWay(host: Host) {
    forall h, op, args :: host.perform(h, op, args).failure.Some? ==> !host.perform(h, op, args).pending
  }

  /** A value has come back: the slots say how, the destination holds it, and everything live on is as
      if it had never been away. */
  ghost predicate Came(r: Regs, op: Op, o: Outcome, s: State, live: set<VarId>) {
    && r.failure == Failure(op, o) && r.pending == o.pending && r.suspended.None? && r.frame.None? && r.history == s.history
    && Agree(s.env, r.env, live)
  }

  lemma {:induction false} ResumeFound(f: Function, from: nat, i: nat, frame: Frame, outcome: Outcome, history: History)
    requires Resumable(f) && from <= i < |f.resumes| && f.resumes[i].state == frame.state && |f.resumes[i].saved| == |frame.values|
    ensures Resume(f, f.resumes[from..], frame, outcome, history) ==
            var p := f.resumes[i];
            Jump(f, ResumeAt(p.state), Regs(Bind(BindAll(map[], p.saved, frame.values), p.dst, Some(outcome.value)), map[],
                                            outcome.failure, outcome.pending, None, None, history))
    decreases i - from
  {
    if from < i {
      ResumeFound(f, from + 1, i, frame, outcome, history);
      assert f.resumes[from..][1..] == f.resumes[from + 1..];
    }
  }

  lemma RestoredAgree(env: Env, target: Env, dst: Option<VarId>, value: Val, saved: seq<VarId>, live: set<VarId>)
    requires Agree(env, target, live) && live <= AllOf(saved)
    ensures Agree(Bind(env, dst, Some(value)), Bind(BindAll(map[], saved, Values(Bind(target, dst, Some(0)), saved)), dst, Some(value)), live + Defined(dst))
  {
    var there := Bind(target, dst, Some(0));
    var back := BindAll(map[], saved, Values(there, saved));
    forall v | v in live + Defined(dst) ensures Get(Bind(env, dst, Some(value)), v) == Get(Bind(back, dst, Some(value)), v) {
      if v !in Defined(dst) {
        assert v in AllOf(saved) && saved[0..] == saved;
        Restored(there, saved, map[], 0, v);
      }
    }
  }

  /** The suspended way: the frame is pushed, the function returns, the runtime enters it again with the
      frame, and control is behind the value. */
  lemma GoesAway(host: Host, f: Function, stmt: Stmt, s: State, live: set<VarId>, rest: seq<C>, kont: seq<seq<C>>, r: Regs) returns (n: nat, r': Regs)
    requires stmt.Let? && stmt.onSuspend.Suspend? && stmt.op.maySuspend && Resumable(f)
    requires ResumePoint(stmt.onSuspend.state, stmt.onSuspend.saved, stmt.dst) in f.resumes
    requires Anchored(f, [Perform(stmt.dst, stmt.op, stmt.args)] + (SuspendEdge(stmt.onSuspend) + rest), kont)
    requires Calm(r, s.history) && Agree(s.env, r.env, live + UsesAll(stmt.args)) && live <= AllOf(stmt.onSuspend.saved)
    requires host.suspends(s.history, stmt.op, EvalAll(s.env, stmt.args))
    ensures Steps(host, f, Running([Perform(stmt.dst, stmt.op, stmt.args)] + (SuspendEdge(stmt.onSuspend) + rest), kont, r), n) == Running(rest, kont, r')
    ensures var (s', o) := Back(host, stmt, s); Came(r', stmt.op, o, s', live + Defined(stmt.dst))
  {
    hide Steps, Anchored, Resume, Jump, BindAll;
    var perform := Perform(stmt.dst, stmt.op, stmt.args);
    var state, saved := stmt.onSuspend.state, stmt.onSuspend.saved;
    var when := When(Suspending, [PushFrame(state, saved), Leave(None)], []);
    var (s', o) := Back(host, stmt, s);
    AgreeEvalAll(s.env, r.env, stmt.args, live + UsesAll(stmt.args));
    var r1 := AfterPerform(host, stmt.dst, stmt.op, stmt.args, r);
    var frame := Frame(state, Values(r1.env, saved));
    n := StepsAway(host, f, perform, state, saved, rest, kont, r, r1);
    assert SuspendEdge(stmt.onSuspend) + rest == [when] + ([Label(ResumeAt(state))] + rest);
    var i :| 0 <= i < |f.resumes| && f.resumes[i] == ResumePoint(state, saved, stmt.dst);
    assert f.resumes[0..] == f.resumes;
    ResumeFound(f, 0, i, frame, r1.suspended.value, r1.history);
    assert [perform] + (SuspendEdge(stmt.onSuspend) + rest) == [perform, when] + ([Label(ResumeAt(state))] + rest);
    AnchoredLabel(f, [perform, when], ResumeAt(state), rest, kont);
    r' := Regs(Bind(BindAll(map[], saved, Values(r1.env, saved)), stmt.dst, Some(o.value)), map[], Failure(stmt.op, o), o.pending, None, None, r1.history);
    JumpsTo(f, ResumeAt(state), rest, kont, r');
    AgreeLess(s.env, r.env, live + UsesAll(stmt.args), live);
    RestoredAgree(s.env, r.env, stmt.dst, o.value, saved, live);
  }

  lemma JumpsTo(f: Function, name: Name, rest: seq<C>, kont: seq<seq<C>>, r: Regs)
    requires Find(f.body, [], name) == Place(rest, kont)
    ensures Jump(f, name, r) == Running(rest, kont, r)
  {
  }

  /** Calling, pushing the frame, returning, being entered again: five steps. */
  lemma StepsAway(host: Host, f: Function, perform: C, state: nat, saved: seq<VarId>, rest: seq<C>, kont: seq<seq<C>>, r: Regs, r1: Regs) returns (n: nat)
    requires perform.Perform? && r1 == AfterPerform(host, perform.dst, perform.op, perform.args, r) && r1.suspended.Some?
    ensures var when := When(Suspending, [PushFrame(state, saved), Leave(None)], []);
            Steps(host, f, Running([perform] + ([when] + ([Label(ResumeAt(state))] + rest)), kont, r), n) ==
            Resume(f, f.resumes, Frame(state, Values(r1.env, saved)), r1.suspended.value, r1.history)
  {
    var yes := [PushFrame(state, saved), Leave(None)];
    var when := When(Suspending, yes, []);
    var tail := [Label(ResumeAt(state))] + rest;
    var start := Running([perform] + ([when] + tail), kont, r);
    PushedAway(host, f, state, saved, tail, kont, r1);
    hide *;
    StepHead(host, f, perform, [when] + tail, kont, r);
    PerformStep(host, f, perform, [when] + tail, kont, r);
    StepsAdd(host, f, start, 1, 4);
    n := 5;
  }

  lemma PerformStep(host: Host, f: Function, perform: C, rest: seq<C>, kont: seq<seq<C>>, r: Regs)
    requires perform.Perform?
    ensures Exec(host, f, perform, rest, kont, r) == Running(rest, kont, AfterPerform(host, perform.dst, perform.op, perform.args, r))
  {
    hide AfterPerform;
  }

  lemma PushedAway(host: Host, f: Function, state: nat, saved: seq<VarId>, tail: seq<C>, kont: seq<seq<C>>, r: Regs)
    requires r.suspended.Some?
    ensures var when := When(Suspending, [PushFrame(state, saved), Leave(None)], []);
            Steps(host, f, Running([when] + tail, kont, r), 4) == Resume(f, f.resumes, Frame(state, Values(r.env, saved)), r.suspended.value, r.history)
  {
    hide Steps, Resume;
    var push, leave := PushFrame(state, saved), Leave(None);
    var start := Running([When(Suspending, [push, leave], [])] + tail, kont, r);
    StepHead(host, f, When(Suspending, [push, leave], []), tail, kont, r);
    assert [push] + [leave] == [push, leave];
    StepHead(host, f, push, [leave], [tail] + kont, r);
    var r1 := r.(frame := Some(Frame(state, Values(r.env, saved))));
    assert [leave] + [] == [leave];
    StepHead(host, f, leave, [], [tail] + kont, r1);
    StepWaiting(host, f, Waiting(r1.frame.value, r1.suspended.value, r1.history));
    StepsAdd(host, f, start, 1, 1);
    StepsAdd(host, f, start, 2, 1);
    StepsAdd(host, f, start, 3, 1);
  }

  lemma StepWaiting(host: Host, f: Function, m: Config)
    requires m.Waiting?
    ensures Steps(host, f, m, 1) == Resume(f, f.resumes, m.frame, m.outcome, m.history)
  {
    assert Steps(host, f, Step(host, f, m), 0) == Step(host, f, m);
  }

  /** The fast way: the value is there at once. */
  lemma StaysHere(host: Host, f: Function, stmt: Stmt, s: State, live: set<VarId>, rest: seq<C>, kont: seq<seq<C>>, r: Regs) returns (n: nat, r': Regs)
    requires stmt.Let? && Calm(r, s.history) && Agree(s.env, r.env, live + UsesAll(stmt.args))
    requires !(stmt.op.maySuspend && host.suspends(s.history, stmt.op, EvalAll(s.env, stmt.args)))
    ensures Steps(host, f, Running([Perform(stmt.dst, stmt.op, stmt.args)] + (SuspendEdge(stmt.onSuspend) + rest), kont, r), n) == Running(rest, kont, r')
    ensures var (s', o) := Back(host, stmt, s); Came(r', stmt.op, o, s', live + Defined(stmt.dst))
  {
    hide Steps;
    var perform := Perform(stmt.dst, stmt.op, stmt.args);
    var edge := SuspendEdge(stmt.onSuspend);
    var start := Running([perform] + (edge + rest), kont, r);
    AgreeEvalAll(s.env, r.env, stmt.args, live + UsesAll(stmt.args));
    StepHead(host, f, perform, edge + rest, kont, r);
    r' := AfterPerform(host, stmt.dst, stmt.op, stmt.args, r);
    n := 1;
    AgreeLess(s.env, r.env, live + UsesAll(stmt.args), live - Defined(stmt.dst));
    AgreeBind(s.env, r.env, stmt.dst, Some(host.perform(s.history, stmt.op, EvalAll(s.env, stmt.args)).value), live);
    if stmt.onSuspend.Suspend? {
      var state := stmt.onSuspend.state;
      var tail := [Label(ResumeAt(state))] + rest;
      assert edge + rest == [edge[0]] + tail;
      StepHead(host, f, edge[0], tail, kont, r');
      StepOut(host, f, tail, kont, r');
      StepHead(host, f, Label(ResumeAt(state)), rest, kont, r');
      StepsAdd(host, f, start, 1, 1);
      StepsAdd(host, f, start, 2, 1);
      StepsAdd(host, f, start, 3, 1);
      n := 4;
    } else {
      assert edge + rest == rest;
    }
  }

  /** A landing runs instead of the rest of the sequence, and never ends with a yield. */
  lemma {:induction false} SimLanding(host: Host, f: Function, fuel: nat, q: Seq, x: Ctx, c: LiveCtx, after: set<VarId>, s: State, rest: seq<C>, kont: seq<seq<C>>, k: seq<seq<C>>, r: Regs)
    returns (n: nat, r': Regs)
    requires WfSeq(q, x, NoTarget) && SavedSeq(q, c) && Resumable(f) && OneWay(host) && Known(f, ResumesSeq(q)) && Anchored(f, EmitSeq(q, x, NoTarget), k)
    requires Calm(r, s.history) && Agree(s.env, r.env, LiveSeq(q, c))
    ensures var d := RunSeq(host, fuel, q, s);
            Goes(f, Steps(host, f, Running(EmitSeq(q, x, NoTarget), k, r), n), n, fuel, Left(d.exit, d.s), r', x, c, after, rest, kont, Gotos(EmitSeq(q, x, NoTarget)))
    decreases fuel, q, 1
  {
    n, r' := SimSeq(host, f, fuel, q, x, NoTarget, c, s, k, r);
  }

  function LandingCode(stmt: Stmt, x: Ctx): seq<C>
    requires stmt.Let?
  {
    if stmt.onDefect.Landing? then [When(Pending, EmitSeq(stmt.onDefect.body, x, NoTarget), [])] else []
  }

  function HandlerCode(stmt: Stmt, x: Ctx): seq<C>
    requires stmt.Let?
  {
    if stmt.onFail.Handle? then [When(Failing, [TakeFailure(stmt.onFail.error)] + EmitSeq(stmt.onFail.body, x, NoTarget), [])] else []
  }

  lemma {:induction false} SimLet(host: Host, f: Function, fuel: nat, stmt: Stmt, x: Ctx, c: LiveCtx, after: set<VarId>, s: State, rest: seq<C>, kont: seq<seq<C>>, r: Regs)
    returns (n: nat, r': Regs)
    requires stmt.Let? && WfStmt(stmt, x) && SavedStmt(stmt, after, c) && Resumable(f) && OneWay(host) && Known(f, ResumesStmt(stmt)) && Anchored(f, EmitStmt(stmt, x) + rest, kont)
    requires Calm(r, s.history) && Agree(s.env, r.env, LiveStmt(stmt, after, c))
    ensures Goes(f, Steps(host, f, Running(EmitStmt(stmt, x) + rest, kont, r), n), n, fuel, RunStmt(host, fuel, stmt, s), r', x, c, after, rest, kont, Gotos(EmitStmt(stmt, x)))
    decreases fuel, stmt, 3
  {
    LetPieces(stmt, x, rest);
    LetSaved(f, stmt, after, c, x);
    LetGotos(stmt, x);
    hide *;
    var call, edge, landing, handler := [Perform(stmt.dst, stmt.op, stmt.args)], SuspendEdge(stmt.onSuspend), LandingCode(stmt, x), HandlerCode(stmt, x);
    var more := landing + (handler + rest);
    var live := LiveOn(stmt, after, c);
    var start := Running(EmitStmt(stmt, x) + rest, kont, r);
    if stmt.op.maySuspend && host.suspends(s.history, stmt.op, EvalAll(s.env, stmt.args)) {
      n, r' := GoesAway(host, f, stmt, s, live, more, kont, r);
    } else {
      n, r' := StaysHere(host, f, stmt, s, live, more, kont, r);
    }
    AnchoredTail(f, call, edge + more, kont);
    AnchoredTail(f, edge, more, kont);
    var m, r'' := SimBack(host, f, fuel, stmt, x, c, after, s, rest, kont, r');
    StepsAdd(host, f, start, n, m);
    GoesLater(f, Steps(host, f, start, n + m), m, n + m, fuel, RunStmt(host, fuel, stmt, s), r'', x, c, after, rest, kont, Gotos(landing) + Gotos(handler), Gotos(EmitStmt(stmt, x)));
    n, r' := n + m, r'';
  }

  lemma LetPieces(stmt: Stmt, x: Ctx, rest: seq<C>)
    requires stmt.Let?
    ensures EmitStmt(stmt, x) + rest ==
            [Perform(stmt.dst, stmt.op, stmt.args)] + (SuspendEdge(stmt.onSuspend) + (LandingCode(stmt, x) + (HandlerCode(stmt, x) + rest)))
  {
  }

  /** What the suspension edge saves, where there is one. */
  lemma LetSaved(f: Function, stmt: Stmt, after: set<VarId>, c: LiveCtx, x: Ctx)
    requires stmt.Let? && WfStmt(stmt, x) && SavedStmt(stmt, after, c) && Known(f, ResumesStmt(stmt))
    ensures LiveStmt(stmt, after, c) == LiveOn(stmt, after, c) + UsesAll(stmt.args)
    ensures stmt.op.maySuspend ==>
              && stmt.onSuspend.Suspend? && LiveOn(stmt, after, c) <= AllOf(stmt.onSuspend.saved)
              && ResumePoint(stmt.onSuspend.state, stmt.onSuspend.saved, stmt.dst) in f.resumes
  {
    if stmt.op.maySuspend {
      assert ResumesStmt(stmt)[0] == ResumePoint(stmt.onSuspend.state, stmt.onSuspend.saved, stmt.dst);
    }
  }

  lemma LetGotos(stmt: Stmt, x: Ctx)
    requires stmt.Let?
    ensures Gotos(LandingCode(stmt, x)) + Gotos(HandlerCode(stmt, x)) <= Gotos(EmitStmt(stmt, x))
  {
    var call, edge, landing, handler := [Perform(stmt.dst, stmt.op, stmt.args)], SuspendEdge(stmt.onSuspend), LandingCode(stmt, x), HandlerCode(stmt, x);
    assert EmitStmt(stmt, x) == call + edge + landing + handler;
    LabelsAppend(call + edge, landing);
    LabelsAppend(call + edge + landing, handler);
  }

  lemma GoesLater(f: Function, m: Config, n: nat, n': nat, fuel: nat, flow: Flow, r: Regs, x: Ctx, c: LiveCtx, after: set<VarId>,
                  rest: seq<C>, kont: seq<seq<C>>, jumps: set<Name>, jumps': set<Name>)
    requires Goes(f, m, n, fuel, flow, r, x, c, after, rest, kont, jumps) && n <= n' && jumps <= jumps'
    ensures Goes(f, m, n', fuel, flow, r, x, c, after, rest, kont, jumps')
  {
  }

  /** Behind the value: the defect landing, then the failure landing, then the rest. */
  lemma {:induction false} SimBack(host: Host, f: Function, fuel: nat, stmt: Stmt, x: Ctx, c: LiveCtx, after: set<VarId>, s: State, rest: seq<C>, kont: seq<seq<C>>, r: Regs)
    returns (n: nat, r': Regs)
    requires stmt.Let? && WfStmt(stmt, x) && SavedStmt(stmt, after, c) && Resumable(f) && OneWay(host) && Known(f, ResumesStmt(stmt))
    requires Anchored(f, LandingCode(stmt, x) + (HandlerCode(stmt, x) + rest), kont)
    requires var (s', o) := Back(host, stmt, s); Came(r, stmt.op, o, s', LiveOn(stmt, after, c) + Defined(stmt.dst))
    ensures Goes(f, Steps(host, f, Running(LandingCode(stmt, x) + (HandlerCode(stmt, x) + rest), kont, r), n), n, fuel, RunStmt(host, fuel, stmt, s), r', x, c, after, rest, kont,
                 Gotos(LandingCode(stmt, x)) + Gotos(HandlerCode(stmt, x)))
    decreases fuel, stmt, 2
  {
    hide Steps, Anchored, Goes, Find;
    var (s', o) := Back(host, stmt, s);
    var landing, handler := LandingCode(stmt, x), HandlerCode(stmt, x);
    var live := LiveOn(stmt, after, c) + Defined(stmt.dst);
    var start := Running(landing + (handler + rest), kont, r);
    var n0 := 0;
    StepsNone(host, f, start);
    if stmt.onDefect.Landing? {
      var body := EmitSeq(stmt.onDefect.body, x, NoTarget);
      StepHead(host, f, When(Pending, body, []), handler + rest, kont, r);
      AnchoredWhen(f, Pending, body, [], handler + rest, kont);
      LabelsOne(When(Pending, body, []));
      if o.pending {
        AgreeLess(s'.env, r.env, live, LiveSeq(stmt.onDefect.body, c));
        n, r' := SimLanding(host, f, fuel, stmt.onDefect.body, x, c, after, s', rest, kont, [handler + rest] + kont, r);
        StepsAdd(host, f, start, 1, n);
        GoesLater(f, Steps(host, f, start, 1 + n), n, 1 + n, fuel, RunStmt(host, fuel, stmt, s), r', x, c, after, rest, kont, Gotos(body), Gotos(landing) + Gotos(handler));
        n := 1 + n;
        return;
      }
      StepOut(host, f, handler + rest, kont, r);
      StepsAdd(host, f, start, 1, 1);
      n0 := 2;
    } else {
      assert landing + (handler + rest) == handler + rest;
    }
    AnchoredTail(f, landing, handler + rest, kont);
    n, r' := SimHandler(host, f, fuel, stmt, x, c, after, s, rest, kont, r);
    StepsAdd(host, f, start, n0, n);
    GoesLater(f, Steps(host, f, start, n0 + n), n, n0 + n, fuel, RunStmt(host, fuel, stmt, s), r', x, c, after, rest, kont, Gotos(handler), Gotos(landing) + Gotos(handler));
    n := n0 + n;
  }

  lemma StepsNone(host: Host, f: Function, m: Config)
    ensures Steps(host, f, m, 0) == m
  {
  }

  lemma {:induction false} SimHandler(host: Host, f: Function, fuel: nat, stmt: Stmt, x: Ctx, c: LiveCtx, after: set<VarId>, s: State, rest: seq<C>, kont: seq<seq<C>>, r: Regs)
    returns (n: nat, r': Regs)
    requires stmt.Let? && WfStmt(stmt, x) && SavedStmt(stmt, after, c) && Resumable(f) && OneWay(host) && Known(f, ResumesStmt(stmt))
    requires Anchored(f, HandlerCode(stmt, x) + rest, kont)
    requires var (s', o) := Back(host, stmt, s); Came(r, stmt.op, o, s', LiveOn(stmt, after, c) + Defined(stmt.dst)) && !(stmt.onDefect.Landing? && o.pending)
    ensures Goes(f, Steps(host, f, Running(HandlerCode(stmt, x) + rest, kont, r), n), n, fuel, RunStmt(host, fuel, stmt, s), r', x, c, after, rest, kont, Gotos(HandlerCode(stmt, x)))
    decreases fuel, stmt, 1
  {
    hide Steps, Anchored, Find, Gotos;
    var (s', o) := Back(host, stmt, s);
    var handler := HandlerCode(stmt, x);
    var live := LiveOn(stmt, after, c) + Defined(stmt.dst);
    var start := Running(handler + rest, kont, r);
    if !stmt.onFail.Handle? {
      StepsNone(host, f, start);
      assert handler + rest == rest;
      AgreeLess(s'.env, r.env, live, after);
      n, r' := 0, r;
    } else {
      var error := stmt.onFail.error;
      var body := EmitSeq(stmt.onFail.body, x, NoTarget);
      var yes := [TakeFailure(error)] + body;
      StepHead(host, f, When(Failing, yes, []), rest, kont, r);
      if o.failure.None? {
        StepOut(host, f, rest, kont, r);
        StepsAdd(host, f, start, 1, 1);
        AgreeLess(s'.env, r.env, live, after);
        n, r' := 2, r;
      } else {
        AnchoredWhen(f, Failing, yes, [], rest, kont);
        LabelsOne(When(Failing, yes, []));
        n, r' := SimFailed(host, f, fuel, stmt, x, c, after, s, rest, kont, r);
        StepsAdd(host, f, start, 1, n);
        GoesLater(f, Steps(host, f, start, 1 + n), n, 1 + n, fuel, RunStmt(host, fuel, stmt, s), r', x, c, after, rest, kont, Gotos(yes), Gotos(handler));
        n := 1 + n;
      }
    }
  }

  /** What holds of the failure landing, and that it is what runs. */
  lemma FailureLanding(host: Host, f: Function, fuel: nat, stmt: Stmt, x: Ctx, c: LiveCtx, after: set<VarId>, s: State)
    requires stmt.Let? && stmt.onFail.Handle? && WfStmt(stmt, x) && SavedStmt(stmt, after, c) && Known(f, ResumesStmt(stmt))
    requires var (s', o) := Back(host, stmt, s); o.failure.Some? && !(stmt.onDefect.Landing? && o.pending)
    ensures var body := stmt.onFail.body;
            WfSeq(body, x, NoTarget) && SavedSeq(body, c) && Known(f, ResumesSeq(body)) && LiveSeq(body, c) - {stmt.onFail.error} <= LiveOn(stmt, after, c) + Defined(stmt.dst)
    ensures var (s', o) := Back(host, stmt, s);
            var d := RunSeq(host, fuel, stmt.onFail.body, s'.(env := s'.env[stmt.onFail.error := o.failure.value]));
            RunStmt(host, fuel, stmt, s) == Left(d.exit, d.s)
  {
    hide Back, WfSeq, SavedSeq, LiveSeq, RunSeq;
  }

  lemma FailureAgrees(r: Regs, op: Op, o: Outcome, s: State, live: set<VarId>, error: VarId, inside: set<VarId>)
    requires Came(r, op, o, s, live) && o.failure.Some? && op.fallible && inside - {error} <= live && !o.pending
    ensures r.failure == o.failure
    ensures Calm(r.(env := r.env[error := o.failure.value], failure := None), s.history)
    ensures Agree(s.env[error := o.failure.value], r.env[error := o.failure.value], inside)
  {
    AgreeLess(s.env, r.env, live, inside - {error});
    AgreeBind(s.env, r.env, Some(error), o.failure, inside);
    AgreeLess(s.env[error := o.failure.value], r.env[error := o.failure.value], inside + {error}, inside);
  }

  /** The failure landing takes the failure and binds it. */
  lemma {:induction false} SimFailed(host: Host, f: Function, fuel: nat, stmt: Stmt, x: Ctx, c: LiveCtx, after: set<VarId>, s: State, rest: seq<C>, kont: seq<seq<C>>, r: Regs)
    returns (n: nat, r': Regs)
    requires stmt.Let? && stmt.onFail.Handle? && WfStmt(stmt, x) && SavedStmt(stmt, after, c) && Resumable(f) && OneWay(host) && Known(f, ResumesStmt(stmt))
    requires Anchored(f, [TakeFailure(stmt.onFail.error)] + EmitSeq(stmt.onFail.body, x, NoTarget), [rest] + kont)
    requires var (s', o) := Back(host, stmt, s); o.failure.Some? && Came(r, stmt.op, o, s', LiveOn(stmt, after, c) + Defined(stmt.dst)) && !(stmt.onDefect.Landing? && o.pending)
    ensures var code := [TakeFailure(stmt.onFail.error)] + EmitSeq(stmt.onFail.body, x, NoTarget);
            Goes(f, Steps(host, f, Running(code, [rest] + kont, r), n), n, fuel, RunStmt(host, fuel, stmt, s), r', x, c, after, rest, kont, Gotos(code))
    decreases fuel, stmt, 0
  {
    FailureLanding(host, f, fuel, stmt, x, c, after, s);
    var (s', o) := Back(host, stmt, s);
    var error, body := stmt.onFail.error, EmitSeq(stmt.onFail.body, x, NoTarget);
    FailureAgrees(r, stmt.op, o, s', LiveOn(stmt, after, c) + Defined(stmt.dst), error, LiveSeq(stmt.onFail.body, c));
    hide *;
    var start := Running([TakeFailure(error)] + body, [rest] + kont, r);
    AnchoredTail(f, [TakeFailure(error)], body, [rest] + kont);
    LabelsAppend([TakeFailure(error)], body);
    StepHead(host, f, TakeFailure(error), body, [rest] + kont, r);
    TakesFailure(host, f, error, body, [rest] + kont, r);
    var r1 := r.(env := r.env[error := o.failure.value], failure := None);
    var s1 := s'.(env := s'.env[error := o.failure.value]);
    n, r' := SimLanding(host, f, fuel, stmt.onFail.body, x, c, after, s1, rest, kont, [rest] + kont, r1);
    StepsAdd(host, f, start, 1, n);
    GoesLater(f, Steps(host, f, start, 1 + n), n, 1 + n, fuel, RunStmt(host, fuel, stmt, s), r', x, c, after, rest, kont, Gotos(body), Gotos([TakeFailure(error)] + body));
    n := 1 + n;
  }

  lemma TakesFailure(host: Host, f: Function, error: VarId, rest: seq<C>, kont: seq<seq<C>>, r: Regs)
    requires r.failure.Some?
    ensures Exec(host, f, TakeFailure(error), rest, kont, r) == Running(rest, kont, r.(env := r.env[error := r.failure.value], failure := None))
  {
  }

  // ---------- switch ----------

  lemma {:induction false} SimSwitch(host: Host, f: Function, fuel: nat, stmt: Stmt, x: Ctx, c: LiveCtx, after: set<VarId>, s: State, rest: seq<C>, kont: seq<seq<C>>, r: Regs)
    returns (n: nat, r': Regs)
    requires stmt.Switch? && WfStmt(stmt, x) && SavedStmt(stmt, after, c) && Resumable(f) && OneWay(host) && Known(f, ResumesStmt(stmt)) && Anchored(f, EmitStmt(stmt, x) + rest, kont)
    requires Calm(r, s.history) && Agree(s.env, r.env, LiveStmt(stmt, after, c))
    ensures Goes(f, Steps(host, f, Running(EmitStmt(stmt, x) + rest, kont, r), n), n, fuel, RunStmt(host, fuel, stmt, s), r', x, c, after, rest, kont, Gotos(EmitStmt(stmt, x)))
    decreases fuel, stmt, 1
  {
    hide Goes, Ends, Leaves, Steps, Anchored, Find, Resumable, OneWay, Known;
    var y := Target(stmt.dst, EndOf(stmt.id), false);
    var inner := c.(yieldLive := after - Defined(stmt.dst));
    var arms, default := EmitArms(stmt.cases, x, y), EmitDefault(stmt.cases, x, y);
    var select := Select(stmt.on, arms, default);
    var tail := LabelIfUsed(EndOf(stmt.id), [select]) + rest;
    var k := [tail] + kont;
    var start := Running(EmitStmt(stmt, x) + rest, kont, r);
    assert EmitStmt(stmt, x) + rest == [select] + tail;
    assert stmt.on.v in LiveStmt(stmt, after, c);
    var value := Scrutinee(host, s.env, stmt.on);
    StepHead(host, f, select, tail, kont, r);
    AnchoredSelect(f, stmt.on, arms, default, tail, kont);
    LabelsOne(select);
    LabelsAppend([select], LabelIfUsed(EndOf(stmt.id), [select]));
    AgreeLess(s.env, r.env, LiveStmt(stmt, after, c), LiveCases(stmt.cases, inner));
    var k';
    n, r', k' := SimCases(host, f, fuel, stmt.cases, value, x, y, inner, s, k, r);
    StepsAdd(host, f, start, 1, n);
    EndsLater(f, Steps(host, f, start, 1 + n), n, 1 + n, fuel, RunCases(host, fuel, stmt.cases, value, s), r', x, y, inner, k', GotosOfArms(arms) + Gotos(default), Gotos([select]));
    n := FinishNested(host, f, start, 1 + n, fuel, RunCases(host, fuel, stmt.cases, value, s), r', x, stmt.dst, stmt.id, false, inner, c, after, [select], [select], rest, kont, k', Gotos([select]));
    GoesWider(f, Steps(host, f, start, n), n, fuel, RunStmt(host, fuel, stmt, s), r', x, c, after, rest, kont, Gotos([select]), Gotos(EmitStmt(stmt, x)));
  }

  /** The arm that matches runs, and no case falls through to the next: every end of an arm jumps. */
  lemma {:induction false} SimCases(host: Host, f: Function, fuel: nat, cases: Cases, value: Val, x: Ctx, y: Target, c: LiveCtx, s: State, kont: seq<seq<C>>, r: Regs)
    returns (n: nat, r': Regs, kont': seq<seq<C>>)
    requires y.Target? && !y.falls && WfCases(cases, x, y) && SavedCases(cases, c) && Resumable(f) && OneWay(host) && Known(f, ResumesCases(cases))
    requires AnchoredArms(f, EmitArms(cases, x, y), EmitDefault(cases, x, y), kont)
    requires Calm(r, s.history) && Agree(s.env, r.env, LiveCases(cases, c))
    ensures var arms, default := EmitArms(cases, x, y), EmitDefault(cases, x, y);
            Ends(f, Steps(host, f, Running(ArmsFor(arms, default, value), kont, r), n), n, fuel, RunCases(host, fuel, cases, value, s), r', x, y, c, kont', GotosOfArms(arms) + Gotos(default))
    decreases fuel, cases, 0
  {
    var arms, default := EmitArms(cases, x, y), EmitDefault(cases, x, y);
    var start := Running(ArmsFor(arms, default, value), kont, r);
    match cases
    case Case(key, body, more) =>
      var code := EmitSeq(body, x, y);
      assert arms[0] == Arm(key, code) && arms[1..] == EmitArms(more, x, y);
      AnchoredArm(f, arms, default, kont);
      if key == value {
        var others := Arms(arms[1..], default);
        kont' := [others] + kont;
        StepHead(host, f, Braces(code), others, kont, r);
        AgreeLess(s.env, r.env, LiveCases(cases, c), LiveSeq(body, c));
        n, r' := SimSeq(host, f, fuel, body, x, y, c, s, kont', r);
        StepsAdd(host, f, start, 1, n);
        EndsLater(f, Steps(host, f, start, 1 + n), n, 1 + n, fuel, RunSeq(host, fuel, body, s), r', x, y, c, kont', Gotos(code), GotosOfArms(arms) + Gotos(default));
        n := 1 + n;
      } else {
        AgreeLess(s.env, r.env, LiveCases(cases, c), LiveCases(more, c));
        n, r', kont' := SimCases(host, f, fuel, more, value, x, y, c, s, kont, r);
        EndsLater(f, Steps(host, f, start, n), n, n, fuel, RunCases(host, fuel, more, value, s), r', x, y, c, kont', GotosOfArms(arms[1..]) + Gotos(default), GotosOfArms(arms) + Gotos(default));
      }
    case Default(body) =>
      kont' := [[]] + kont;
      StepHead(host, f, Braces(default), [], kont, r);
      assert [Braces(default)] + [] == [Braces(default)];
      n, r' := SimSeq(host, f, fuel, body, x, y, c, s, kont', r);
      StepsAdd(host, f, start, 1, n);
      EndsLater(f, Steps(host, f, start, 1 + n), n, 1 + n, fuel, RunSeq(host, fuel, body, s), r', x, y, c, kont', Gotos(default), GotosOfArms(arms) + Gotos(default));
      n := 1 + n;
    case NoDefault =>
      kont' := [[]] + kont;
      StepHead(host, f, Braces(default), [], kont, r);
      assert [Braces(default)] + [] == [Braces(default)];
      StepHead(host, f, Abort, [], kont', r);
      assert [Abort] + [] == default;
      StepsAdd(host, f, start, 1, 1);
      n, r' := 2, r;
  }

  // ---------- block and loop ----------

  lemma {:induction false} SimBlock(host: Host, f: Function, fuel: nat, stmt: Stmt, x: Ctx, c: LiveCtx, after: set<VarId>, s: State, rest: seq<C>, kont: seq<seq<C>>, r: Regs)
    returns (n: nat, r': Regs)
    requires stmt.Block? && WfStmt(stmt, x) && SavedStmt(stmt, after, c) && Resumable(f) && OneWay(host) && Known(f, ResumesStmt(stmt)) && Anchored(f, EmitStmt(stmt, x) + rest, kont)
    requires Calm(r, s.history) && Agree(s.env, r.env, LiveStmt(stmt, after, c))
    ensures Goes(f, Steps(host, f, Running(EmitStmt(stmt, x) + rest, kont, r), n), n, fuel, RunStmt(host, fuel, stmt, s), r', x, c, after, rest, kont, Gotos(EmitStmt(stmt, x)))
    decreases fuel, stmt, 1
  {
    hide Goes, Ends, Leaves, Agree, Calm, Jump;
    var end, dst, live := EndOf(stmt.id), stmt.dst, after - Defined(stmt.dst);
    var x', y := x.(labels := x.labels[stmt.target := Target(dst, end, false)]), Target(dst, end, true);
    var inner := c.(yieldLive := live, afterLabel := c.afterLabel[stmt.target := live]);
    var body := EmitSeq(stmt.body, x', y);
    var braces := Braces(body);
    var tail := LabelIfUsed(end, [braces]) + rest;
    var k := [tail] + kont;
    var start := Running(EmitStmt(stmt, x) + rest, kont, r);
    assert EmitStmt(stmt, x) + rest == [braces] + tail;
    StepHead(host, f, braces, tail, kont, r);
    AnchoredBraces(f, body, tail, kont);
    LabelsOne(braces);
    LabelsAppend([braces], LabelIfUsed(end, [braces]));
    n, r' := SimSeq(host, f, fuel, stmt.body, x', y, inner, s, k, r);
    StepsAdd(host, f, start, 1, n);
    var d := RunSeq(host, fuel, stmt.body, s);
    n := BlockExit(host, f, start, 1 + n, n, fuel, d, r', stmt, x, c, after, [braces], rest, kont, Gotos(body));
    GoesWider(f, Steps(host, f, start, n), n, fuel, RunStmt(host, fuel, stmt, s), r', x, c, after, rest, kont, Gotos([braces]), Gotos(EmitStmt(stmt, x)));
  }

  function BlockFlow(d: Done, stmt: Stmt): Flow
    requires stmt.Block?
  {
    if d.exit.Broke? && d.exit.target == stmt.target then Next(d.s.(env := Bind(d.s.env, stmt.dst, d.exit.value))) else After(d, stmt.dst)
  }

  /** The body's yield and the breaks to its label go on behind the block. */
  lemma BlockExit(host: Host, f: Function, start: Config, n: nat, n0: nat, fuel: nat, d: Done, r: Regs, stmt: Stmt, x: Ctx, c: LiveCtx, after: set<VarId>,
                  code: seq<C>, rest: seq<C>, kont: seq<seq<C>>, jumps: set<Name>) returns (n': nat)
    requires stmt.Block? && n0 <= n
    requires var end, live := EndOf(stmt.id), after - Defined(stmt.dst);
             Ends(f, Steps(host, f, start, n), n0, fuel, d, r, x.(labels := x.labels[stmt.target := Target(stmt.dst, end, false)]), Target(stmt.dst, end, true),
                  c.(yieldLive := live, afterLabel := c.afterLabel[stmt.target := live]), [LabelIfUsed(end, code) + rest] + kont, jumps)
    requires jumps <= Gotos(code) && Anchored(f, code + (LabelIfUsed(EndOf(stmt.id), code) + rest), kont)
    ensures Goes(f, Steps(host, f, start, n'), n', fuel, BlockFlow(d, stmt), r, x, c, after, rest, kont, Gotos(code))
  {
    hide Steps, LabelIfUsed, Anchored, Jump, Bind, BindAll;
    n' := n;
    var live := after - Defined(stmt.dst);
    if d.exit.Yielded? {
      n' := FallBehind(host, f, start, n, EndOf(stmt.id), code, rest, kont, r);
      AgreeLess(Bind(d.s.env, stmt.dst, d.exit.value), r.env, live + Defined(stmt.dst), after);
    } else if d.exit.Broke? && d.exit.target == stmt.target {
      LandOnLabel(f, code, EndOf(stmt.id), code, rest, kont, r);
      AgreeLess(Bind(d.s.env, stmt.dst, d.exit.value), r.env, live + Defined(stmt.dst), after);
    }
  }

  lemma {:induction false} SimLoop(host: Host, f: Function, fuel: nat, stmt: Stmt, x: Ctx, c: LiveCtx, after: set<VarId>, s: State, rest: seq<C>, kont: seq<seq<C>>, r: Regs)
    returns (n: nat, r': Regs)
    requires stmt.Loop? && WfStmt(stmt, x) && SavedStmt(stmt, after, c) && Resumable(f) && OneWay(host) && Known(f, ResumesStmt(stmt)) && Anchored(f, EmitStmt(stmt, x) + rest, kont)
    requires Calm(r, s.history) && Agree(s.env, r.env, LiveStmt(stmt, after, c))
    ensures Goes(f, Steps(host, f, Running(EmitStmt(stmt, x) + rest, kont, r), n), n, fuel, RunStmt(host, fuel, stmt, s), r', x, c, after, rest, kont, Gotos(EmitStmt(stmt, x)))
    decreases fuel, stmt, 1
  {
    hide Steps, Anchored, Find;
    var vars, inits, id := stmt.vars, stmt.inits, stmt.id;
    var inner := LoopCtx(vars, stmt.body, after - Defined(stmt.dst), c);
    var code := [Braces(EmitSeq(stmt.body, x.(loop := InLoop(vars, HeadOf(id))), Target(stmt.dst, EndOf(id), true)))];
    var head := LabelIfUsed(HeadOf(id), code);
    var tail := code + (LabelIfUsed(EndOf(id), code) + rest);
    var vals := EvalAll(s.env, inits);
    var start := Running(EmitStmt(stmt, x) + rest, kont, r);
    assert EmitStmt(stmt, x) + rest == InitsFrom(vars, inits, 0) + (head + tail);
    AgreeEvalAll(s.env, r.env, inits, LiveStmt(stmt, after, c));
    assert forall i :: 0 <= i < |inits| ==> vals[i] == EvalAll(r.env, inits)[i];
    n := RunInits(host, f, vars, inits, vals, 0, head + tail, kont, r);
    var r1 := r.(env := BindAll(r.env, vars, vals));
    var m := PassLabel(host, f, HeadOf(id), code, tail, kont, r1);
    StepsAdd(host, f, start, n, m);
    AgreeLess(s.env, r.env, LiveStmt(stmt, after, c), inner.head);
    AgreeBindAll(s.env, r.env, vars, vals, inner.head);
    var first := s.(env := BindAll(s.env, vars, vals));
    var j;
    j, r' := SimIterate(host, f, fuel, stmt, x, c, after, first, rest, kont, r1);
    StepsAdd(host, f, start, n + m, j);
    n := n + m + j;
    LoopGotos(InitsFrom(vars, inits, 0), head, code, LabelIfUsed(EndOf(id), code));
    var flow := After(RunLoop(host, fuel, vars, stmt.body, first), stmt.dst);
    if flow.Left? {
      LeavesLater(f, Steps(host, f, start, n), j, n, fuel, flow.exit, flow.s, r', x, c, Gotos(code), Gotos(EmitStmt(stmt, x)));
    }
  }

  lemma LoopGotos(a: seq<C>, b: seq<C>, code: seq<C>, d: seq<C>)
    ensures Gotos(code) <= Gotos(a + b + code + d)
  {
    LabelsAppend(a, b);
    LabelsAppend(a + b, code);
    LabelsAppend(a + b + code, d);
  }

  /** From the head of the loop. */
  lemma {:induction false} SimIterate(host: Host, f: Function, fuel: nat, stmt: Stmt, x: Ctx, c: LiveCtx, after: set<VarId>, s: State, rest: seq<C>, kont: seq<seq<C>>, r: Regs)
    returns (n: nat, r': Regs)
    requires stmt.Loop? && WfStmt(stmt, x) && SavedStmt(stmt, after, c) && Resumable(f) && OneWay(host) && Known(f, ResumesStmt(stmt)) && Anchored(f, EmitStmt(stmt, x) + rest, kont)
    requires Calm(r, s.history)
    requires Agree(s.env, r.env, LoopHead(stmt.vars, stmt.body, after - Defined(stmt.dst), c) + AllOf(stmt.vars))
    ensures var code := [Braces(EmitSeq(stmt.body, x.(loop := InLoop(stmt.vars, HeadOf(stmt.id))), Target(stmt.dst, EndOf(stmt.id), true)))];
            Goes(f, Steps(host, f, Running(code + (LabelIfUsed(EndOf(stmt.id), code) + rest), kont, r), n), n, fuel,
                 After(RunLoop(host, fuel, stmt.vars, stmt.body, s), stmt.dst), r', x, c, after, rest, kont, Gotos(code))
    decreases fuel, stmt, 0
  {
    hide Goes, Ends, Leaves, Agree, Calm, Jump, BindAll, Steps, Anchored, Find, Resumable, OneWay;
    var id, dst, vars, live := stmt.id, stmt.dst, stmt.vars, after - Defined(stmt.dst);
    var x', y := x.(loop := InLoop(vars, HeadOf(id))), Target(dst, EndOf(id), true);
    var inner := LoopCtx(vars, stmt.body, live, c);
    var body := EmitSeq(stmt.body, x', y);
    var code := [Braces(body)];
    var tail := LabelIfUsed(EndOf(id), code) + rest;
    var before := InitsFrom(vars, stmt.inits, 0) + LabelIfUsed(HeadOf(id), code);
    var start := Running(code + tail, kont, r);
    assert EmitStmt(stmt, x) + rest == before + (code + tail);
    AnchoredTail(f, before, code + tail, kont);
    AnchoredBraces(f, body, tail, kont);
    StepHead(host, f, Braces(body), tail, kont, r);
    LabelsOne(Braces(body));
    LoopHeadStable(vars, stmt.body, live, c);
    AgreeLess(s.env, r.env, inner.head + AllOf(vars), LiveSeq(stmt.body, inner));
    n, r' := SimSeq(host, f, fuel, stmt.body, x', y, inner, s, [tail] + kont, r);
    StepsAdd(host, f, start, 1, n);
    var d := RunSeq(host, fuel, stmt.body, s);
    EndsLater(f, Steps(host, f, start, 1 + n), n, 1 + n, fuel, d, r', x', y, inner, [tail] + kont, Gotos(body), Gotos(code));
    n := 1 + n;
    if d.exit.Recurred? {
      IterationEnds(f, Steps(host, f, start, n), n, fuel, d, r', x', y, inner, [tail] + kont, Gotos(code));
      HeadLands(f, InitsFrom(vars, stmt.inits, 0), HeadOf(id), code, tail, kont, r');
      if fuel > 0 {
        var next := d.s.(env := BindAll(d.s.env, vars, d.exit.args));
        var m, r'' := SimIterate(host, f, fuel - 1, stmt, x, c, after, next, rest, kont, r');
        StepsAdd(host, f, start, n, m);
        GoesFurther(f, Steps(host, f, start, n + m), m, n + m, fuel, After(RunLoop(host, fuel - 1, vars, stmt.body, next), dst), r'', x, c, after, rest, kont, Gotos(code));
        n, r' := n + m, r'';
      } else {
        OutOfFuelHere(f, Steps(host, f, start, n), n, d.s, r', x, c, after, dst, rest, kont, Gotos(code));
      }
    } else {
      n := LoopExit(host, f, start, n, fuel, d, r', stmt, x, c, after, code, rest, kont);
    }
  }

  lemma OutOfFuelHere(f: Function, m: Config, n: nat, s: State, r: Regs, x: Ctx, c: LiveCtx, after: set<VarId>, dst: Option<VarId>,
                      rest: seq<C>, kont: seq<seq<C>>, jumps: set<Name>)
    requires m.Running?
    ensures Goes(f, m, n, 0, After(Done(OutOfFuel, s), dst), r, x, c, after, rest, kont, jumps)
  {
  }

  lemma GoesFurther(f: Function, m: Config, n: nat, n': nat, fuel: nat, flow: Flow, r: Regs, x: Ctx, c: LiveCtx, after: set<VarId>,
                    rest: seq<C>, kont: seq<seq<C>>, jumps: set<Name>)
    requires fuel > 0 && n < n' && Goes(f, m, n, fuel - 1, flow, r, x, c, after, rest, kont, jumps)
    ensures Goes(f, m, n', fuel, flow, r, x, c, after, rest, kont, jumps)
  {
  }

  lemma IterationEnds(f: Function, m: Config, n: nat, fuel: nat, d: Done, r: Regs, x: Ctx, y: Target, c: LiveCtx, kont: seq<seq<C>>, jumps: set<Name>)
    requires Ends(f, m, n, fuel, d, r, x, y, c, kont, jumps) && d.exit.Recurred?
    ensures x.loop.InLoop? && |d.exit.args| == |x.loop.vars| && x.loop.head in jumps && m == Jump(f, x.loop.head, r) && Calm(r, d.s.history)
    ensures Agree(BindAll(d.s.env, x.loop.vars, d.exit.args), r.env, c.head + AllOf(x.loop.vars))
  {
  }

  /** A yield leaves the loop; other exits go on out. */
  lemma LoopExit(host: Host, f: Function, start: Config, n: nat, fuel: nat, d: Done, r: Regs, stmt: Stmt, x: Ctx, c: LiveCtx, after: set<VarId>,
                 code: seq<C>, rest: seq<C>, kont: seq<seq<C>>) returns (n': nat)
    requires stmt.Loop? && !d.exit.Recurred?
    requires Ends(f, Steps(host, f, start, n), n, fuel, d, r, x.(loop := InLoop(stmt.vars, HeadOf(stmt.id))), Target(stmt.dst, EndOf(stmt.id), true),
                  LoopCtx(stmt.vars, stmt.body, after - Defined(stmt.dst), c), [LabelIfUsed(EndOf(stmt.id), code) + rest] + kont, Gotos(code))
    ensures Goes(f, Steps(host, f, start, n'), n', fuel, After(d, stmt.dst), r, x, c, after, rest, kont, Gotos(code))
  {
    hide Steps, LabelIfUsed, Jump, Bind, BindAll, LoopHead, Gotos;
    n' := n;
    if d.exit.Yielded? {
      n' := FallBehind(host, f, start, n, EndOf(stmt.id), code, rest, kont, r);
      AgreeLess(Bind(d.s.env, stmt.dst, d.exit.value), r.env, after - Defined(stmt.dst) + Defined(stmt.dst), after);
    }
  }

  lemma HeadLands(f: Function, inits: seq<C>, name: Name, code: seq<C>, tail: seq<C>, kont: seq<seq<C>>, r: Regs)
    requires name in Gotos(code) && Anchored(f, inits + LabelIfUsed(name, code) + (code + tail), kont)
    ensures Jump(f, name, r) == Running(code + tail, kont, r)
  {
    assert inits + LabelIfUsed(name, code) + (code + tail) == inits + (LabelIfUsed(name, code) + (code + tail));
    LandOnLabel(f, inits, name, code, code + tail, kont, r);
  }

  // ---------- resume points ----------

  ghost predicate StatesApart(points: seq<ResumePoint>, names: set<Name>) {
    && (forall i, j :: 0 <= i < j < |points| ==> points[i].state != points[j].state)
    && (forall p :: p in points ==> ResumeAt(p.state) in names)
  }

  lemma ApartConcat(a: seq<ResumePoint>, b: seq<ResumePoint>, names: set<Name>, more: set<Name>)
    requires StatesApart(a, names) && StatesApart(b, more) && names !! more
    ensures StatesApart(a + b, names + more)
  {
    var ab := a + b;
    forall i, j | 0 <= i < j < |ab| ensures ab[i].state != ab[j].state {
      if i < |a| <= j {
        assert ab[i] in a && ab[j] in b;
        assert ResumeAt(ab[i].state) in names && ResumeAt(ab[j].state) in more;
      }
    }
  }

  lemma {:induction false} SeqApart(q: Seq)
    requires DistinctSeq(q)
    ensures StatesApart(ResumesSeq(q), NamesSeq(q))
    decreases q
  {
    match q
    case End(_) =>
    case Then(stmt, rest) =>
      StmtApart(stmt);
      SeqApart(rest);
      ApartConcat(ResumesStmt(stmt), ResumesSeq(rest), NamesStmt(stmt), NamesSeq(rest));
  }

  lemma {:induction false} StmtApart(stmt: Stmt)
    requires DistinctStmt(stmt)
    ensures StatesApart(ResumesStmt(stmt), NamesStmt(stmt))
    decreases stmt
  {
    match stmt
    case Let(dst, _, _, onDefect, onFail, onSuspend) =>
      var a := if onSuspend.Suspend? then [ResumePoint(onSuspend.state, onSuspend.saved, dst)] else [];
      var b := if onDefect.Landing? then ResumesSeq(onDefect.body) else [];
      var c := if onFail.Handle? then ResumesSeq(onFail.body) else [];
      var x := if onSuspend.Suspend? then {ResumeAt(onSuspend.state)} else {};
      var y := if onDefect.Landing? then NamesSeq(onDefect.body) else {};
      var z := if onFail.Handle? then NamesSeq(onFail.body) else {};
      if onDefect.Landing? {
        SeqApart(onDefect.body);
      }
      if onFail.Handle? {
        SeqApart(onFail.body);
      }
      ApartConcat(a, b, x, y);
      ApartConcat(a + b, c, x + y, z);
    case If(_, _, _, whenTrue, whenFalse) =>
      SeqApart(whenTrue);
      SeqApart(whenFalse);
      ApartConcat(ResumesSeq(whenTrue), ResumesSeq(whenFalse), NamesSeq(whenTrue), NamesSeq(whenFalse));
    case Switch(_, _, _, cases) => CasesApart(cases);
    case Loop(_, _, _, _, body) => SeqApart(body);
    case Block(_, _, _, body) => SeqApart(body);
    case Count(_, _) =>
  }

  lemma {:induction false} CasesApart(cases: Cases)
    requires DistinctCases(cases)
    ensures StatesApart(ResumesCases(cases), NamesCases(cases))
    decreases cases
  {
    match cases
    case Case(_, body, more) =>
      SeqApart(body);
      CasesApart(more);
      ApartConcat(ResumesSeq(body), ResumesCases(more), NamesSeq(body), NamesCases(more));
    case Default(body) => SeqApart(body);
    case NoDefault =>
  }

  // ---------- the structured meaning does not see suspensions ----------

  lemma {:induction false} SuspendsUnseen(host: Host, other: Host, fuel: nat, q: Seq, s: State)
    requires other == host.(suspends := other.suspends)
    ensures RunSeq(host, fuel, q, s) == RunSeq(other, fuel, q, s)
    decreases fuel, q, 0
  {
    if q.Then? {
      SuspendsUnseenStmt(host, other, fuel, q.stmt, s);
      var flow := RunStmt(host, fuel, q.stmt, s);
      if flow.Next? {
        SuspendsUnseen(host, other, fuel, q.rest, flow.s);
      }
    }
  }

  lemma {:induction false} SuspendsUnseenStmt(host: Host, other: Host, fuel: nat, stmt: Stmt, s: State)
    requires other == host.(suspends := other.suspends)
    ensures RunStmt(host, fuel, stmt, s) == RunStmt(other, fuel, stmt, s)
    decreases fuel, stmt, 1
  {
    match stmt
    case Let(_, _, _, onDefect, onFail, _) =>
      var (s', o) := Back(host, stmt, s);
      if onDefect.Landing? && o.pending {
        SuspendsUnseen(host, other, fuel, onDefect.body, s');
      } else if onFail.Handle? && o.failure.Some? {
        SuspendsUnseen(host, other, fuel, onFail.body, s'.(env := s'.env[onFail.error := o.failure.value]));
      }
    case If(_, _, cond, whenTrue, whenFalse) =>
      SuspendsUnseen(host, other, fuel, if Eval(s.env, cond) != 0 then whenTrue else whenFalse, s);
    case Switch(_, _, on, cases) => SuspendsUnseenCases(host, other, fuel, cases, Scrutinee(host, s.env, on), s);
    case Loop(_, _, vars, inits, body) =>
      if |vars| == |inits| {
        SuspendsUnseenLoop(host, other, fuel, vars, body, s.(env := BindAll(s.env, vars, EvalAll(s.env, inits))));
      }
    case Block(_, _, _, body) => SuspendsUnseen(host, other, fuel, body, s);
    case Count(_, _) =>
  }

  lemma {:induction false} SuspendsUnseenCases(host: Host, other: Host, fuel: nat, cases: Cases, value: Val, s: State)
    requires other == host.(suspends := other.suspends)
    ensures RunCases(host, fuel, cases, value, s) == RunCases(other, fuel, cases, value, s)
    decreases fuel, cases, 0
  {
    match cases
    case Case(key, body, more) =>
      if key == value {
        SuspendsUnseen(host, other, fuel, body, s);
      } else {
        SuspendsUnseenCases(host, other, fuel, more, value, s);
      }
    case Default(body) => SuspendsUnseen(host, other, fuel, body, s);
    case NoDefault =>
  }

  lemma {:induction false} SuspendsUnseenLoop(host: Host, other: Host, fuel: nat, vars: seq<VarId>, body: Seq, s: State)
    requires other == host.(suspends := other.suspends)
    ensures RunLoop(host, fuel, vars, body, s) == RunLoop(other, fuel, vars, body, s)
    decreases fuel, body, 1
  {
    SuspendsUnseen(host, other, fuel, body, s);
    var d := RunSeq(host, fuel, body, s);
    if d.exit.Recurred? && |d.exit.args| == |vars| && fuel > 0 {
      SuspendsUnseenLoop(host, other, fuel - 1, vars, body, d.s.(env := BindAll(d.s.env, vars, d.exit.args)));
    }
  }

  // ---------- whole functions ----------

  /** A function body as the verifier of the IR lets it through: it ends on every path without a yield,
      nothing appears twice, and every suspension saves what is live. */
  predicate WellFormed(body: Seq) {
    WfSeq(body, OUTSIDE, NoTarget) && DistinctSeq(body) && SavedSeq(body, OUTSIDE_LIVE)
  }

  const OUTSIDE_LIVE := LiveCtx({}, {}, map[])

  /** The C called with its parameters. */
  function Called(body: Seq, env: Env, history: History): Config {
    Running(EmitFunction(body).body, [], Regs(env, map[], None, false, None, None, history))
  }

  ghost predicate Over(m: Config) {
    m.Finished? || m.Crashed?
  }

  /** What the caller sees of a run of the structured body. */
  function Seen(d: Done): Config {
    match d.exit
    case Returned(v) => Finished(v, None, d.s.history)
    case Failed(e) => Finished(None, Some(e), d.s.history)
    case Unwound => Finished(None, None, d.s.history)
    case _ => Crashed(d.s.history)
  }

  /** When the structured body ends, so does the C, with the same result and the same history of
      operations and counts: whatever the outside does, and wherever it suspends. */
  lemma Preserves(host: Host, fuel: nat, body: Seq, env: Env, history: History) returns (n: nat)
    requires WellFormed(body) && OneWay(host)
    ensures var d := RunSeq(host, fuel, body, State(env, history));
            var m := Steps(host, EmitFunction(body), Called(body, env, history), n);
            if d.exit.OutOfFuel? then n >= fuel && !Over(m) else m == Seen(d)
  {
    hide Steps, EmitSeq, RunSeq;
    var f := EmitFunction(body);
    EmitUnique(body, OUTSIDE, NoTarget);
    SeqApart(body);
    var r := Regs(env, map[], None, false, None, None, history);
    var r';
    n, r' := SimSeq(host, f, fuel, body, OUTSIDE, NoTarget, OUTSIDE_LIVE, State(env, history), [], r);
  }

  /** Once over, the C stays as it is. */
  lemma {:induction false} StaysOver(host: Host, f: Function, m: Config, n: nat)
    requires Over(m)
    ensures Steps(host, f, m, n) == m
    decreases n
  {
    if n > 0 {
      StaysOver(host, f, m, n - 1);
    }
  }

  /** The C ends if and only if the structured body does. */
  lemma EndsTogether(host: Host, body: Seq, env: Env, history: History)
    requires WellFormed(body) && OneWay(host)
    ensures (exists n: nat :: Over(Steps(host, EmitFunction(body), Called(body, env, history), n))) <==>
            (exists fuel: nat :: !RunSeq(host, fuel, body, State(env, history)).exit.OutOfFuel?)
  {
    hide Steps, EmitSeq, RunSeq;
    var f, start, s := EmitFunction(body), Called(body, env, history), State(env, history);
    if n: nat :| Over(Steps(host, f, start, n)) {
      var k := Preserves(host, n, body, env, history);
      if RunSeq(host, n, body, s).exit.OutOfFuel? {
        StepsAdd(host, f, start, n, k - n);
        StaysOver(host, f, Steps(host, f, start, n), k - n);
      }
      assert !RunSeq(host, n, body, s).exit.OutOfFuel?;
    }
    if fuel: nat :| !RunSeq(host, fuel, body, s).exit.OutOfFuel? {
      var k := Preserves(host, fuel, body, env, history);
      assert Over(Steps(host, f, start, k));
    }
  }

  /** Two runs of the C that differ only in when the outside suspends end alike. */
  lemma SuspensionIsInvisible(host: Host, other: Host, fuel: nat, body: Seq, env: Env, history: History) returns (n: nat, n': nat)
    requires WellFormed(body) && OneWay(host) && other == host.(suspends := other.suspends)
    requires !RunSeq(host, fuel, body, State(env, history)).exit.OutOfFuel?
    ensures var m := Steps(host, EmitFunction(body), Called(body, env, history), n);
            Over(m) && m == Steps(other, EmitFunction(body), Called(body, env, history), n')
  {
    hide Steps, EmitSeq;
    n := Preserves(host, fuel, body, env, history);
    n' := Preserves(other, fuel, body, env, history);
    SuspendsUnseen(host, other, fuel, body, State(env, history));
  }
}
