/** The emitter itself: it walks the body, keeping the blocks it is in, the loops it is in, the labels
    it has used and the resume points it has met. */
module Emitter {
  import opened Wrappers
  import opened Ir
  import opened Machine
  import opened Emit
  import opened Labels
  import opened Preservation

  class Cx {
    var out: seq<C>
    var labels: map<LabelId, Target>
    var loops: seq<LoopTarget>
    var used: set<Name>
    var resumes: seq<ResumePoint>

    constructor ()
      ensures out == [] && labels == map[] && loops == [] && used == {} && resumes == []
    {
      out, labels, loops, used, resumes := [], map[], [], {}, [];
    }

    /** The label map has at least the blocks around this place; entries of blocks that are left stay. */
    ghost predicate Fits(x: Ctx)
      reads this
    {
      && (forall l :: l in x.labels ==> l in labels && labels[l] == x.labels[l])
      && x.loop == (if loops == [] then NoLoop else loops[|loops| - 1])
    }

    method Goto(name: Name)
      modifies this`out, this`used
      ensures out == old(out) + [C.Goto(name)] && used == old(used) + {name}
    {
      used := used + {name};
      out := out + [C.Goto(name)];
    }

    /** Writes the label if anything jumps to it. */
    method Label(name: Name)
      modifies this`out
      ensures out == old(out) + if name in used then [C.Label(name)] else []
    {
      if name in used {
        out := out + [C.Label(name)];
      }
    }

    method AssignOpt(dst: Option<VarId>, value: Option<Operand>)
      modifies this`out
      ensures out == old(out) + AssignTo(dst, value)
    {
      if dst.Some? && value.Some? {
        out := out + [Assign(dst.value, value.value)];
      }
    }

    method EmitTerminator(t: Term, y: Target, ghost x: Ctx)
      requires WfTerm(t, x, y) && Fits(x)
      modifies this`out, this`used
      ensures out == old(out) + EmitTerm(t, x, y) && used == old(used) + Gotos(EmitTerm(t, x, y))
    {
      ghost var start := out;
      TermGotos(t, x, y);
      match t
      case Yield(v) =>
        AssignOpt(y.dst, v);
        if !y.falls {
          Goto(y.end);
        }
      case Return(v) => out := out + [Leave(v)];
      case Fail(e) => out := out + [SetFailure(e), Leave(None)];
      case Break(l, v) =>
        var target := labels[l];
        AssignOpt(target.dst, v);
        Goto(target.end);
      case Recur(args) =>
        EmitRecur(args, loops[|loops| - 1]);
      case Unwind => out := out + [Leave(None)];
      case Unreachable => out := out + [Abort];
    }

    /** Temporaries first, so that the new values read the old ones. */
    method EmitRecur(args: seq<Operand>, loop: LoopTarget)
      requires loop.InLoop?
      modifies this`out, this`used
      ensures out == old(out) + [Braces(TempsFrom(args, 0) + (FromTempsFrom(loop.vars, 0) + [C.Goto(loop.head)]))]
      ensures used == old(used) + {loop.head}
    {
      var saved := out;
      out := [];
      var i := 0;
      while i < |args|
        invariant 0 <= i <= |args| && out + TempsFrom(args, i) == TempsFrom(args, 0) && used == old(used)
      {
        assert out + ([Temp(i, args[i])] + TempsFrom(args, i + 1)) == out + [Temp(i, args[i])] + TempsFrom(args, i + 1);
        out := out + [Temp(i, args[i])];
        i := i + 1;
      }
      ghost var temps := out;
      assert temps == TempsFrom(args, 0);
      i := 0;
      while i < |loop.vars|
        invariant 0 <= i <= |loop.vars| && out + FromTempsFrom(loop.vars, i) == temps + FromTempsFrom(loop.vars, 0) && used == old(used)
      {
        assert out + ([FromTemp(loop.vars[i], i)] + FromTempsFrom(loop.vars, i + 1)) == out + [FromTemp(loop.vars[i], i)] + FromTempsFrom(loop.vars, i + 1);
        out := out + [FromTemp(loop.vars[i], i)];
        i := i + 1;
      }
      assert out == temps + FromTempsFrom(loop.vars, 0);
      Goto(loop.head);
      assert out == temps + (FromTempsFrom(loop.vars, 0) + [C.Goto(loop.head)]);
      out := saved + [Braces(out)];
    }

    method EmitSequence(q: Seq, y: Target, ghost x: Ctx)
      requires WfSeq(q, x, y) && DistinctSeq(q) && Fits(x) && used + CtxNames(x, y) !! NamesSeq(q)
      modifies this
      ensures out == old(out) + EmitSeq(q, x, y) && used == old(used) + Gotos(EmitSeq(q, x, y))
      ensures resumes == old(resumes) + ResumesSeq(q) && loops == old(loops) && Fits(x)
      decreases q, 0
    {
      hide Gotos, NamesStmt, CtxNames, WfStmt, DistinctStmt, EmitStmt, ResumesStmt;
      match q
      case End(t) => EmitTerminator(t, y, x);
      case Then(stmt, rest) =>
        CtxMore(x, y);
        EmitStatement(stmt, x);
        StmtGotosNamed(stmt, x);
        LabelsAppend(EmitStmt(stmt, x), EmitSeq(rest, x, y));
        EmitSequence(rest, y, x);
    }

    /** A nested sequence: what it writes, apart from what is written already. */
    method EmitInside(q: Seq, y: Target, ghost x: Ctx) returns (code: seq<C>)
      requires WfSeq(q, x, y) && DistinctSeq(q) && Fits(x) && used + CtxNames(x, y) !! NamesSeq(q)
      modifies this
      ensures code == EmitSeq(q, x, y) && out == old(out) && used == old(used) + Gotos(code)
      ensures resumes == old(resumes) + ResumesSeq(q) && loops == old(loops) && Fits(x)
      decreases q, 1
    {
      var saved := out;
      out := [];
      EmitSequence(q, y, x);
      code := out;
      out := saved;
    }

    method EmitStatement(stmt: Stmt, ghost x: Ctx)
      requires WfStmt(stmt, x) && DistinctStmt(stmt) && Fits(x) && used + CtxNames(x, NoTarget) !! NamesStmt(stmt)
      modifies this
      ensures out == old(out) + EmitStmt(stmt, x) && used == old(used) + Gotos(EmitStmt(stmt, x))
      ensures resumes == old(resumes) + ResumesStmt(stmt) && loops == old(loops) && Fits(x)
      decreases stmt, 3
    {
      match stmt
      case Let(_, _, _, _, _, _) => EmitLet(stmt, x);
      case If(_, _, _, _, _) => EmitIf(stmt, x);
      case Switch(_, _, _, _) => EmitSwitch(stmt, x);
      case Loop(_, _, _, _, _) => EmitLoop(stmt, x);
      case Block(_, _, _, _) => EmitBlock(stmt, x);
      case Count(up, v) =>
        LabelsOne(Recount(up, v));
        out := out + [Recount(up, v)];
    }

    method EmitLet(stmt: Stmt, ghost x: Ctx)
      requires stmt.Let? && WfStmt(stmt, x) && DistinctStmt(stmt) && Fits(x) && used + CtxNames(x, NoTarget) !! NamesStmt(stmt)
      modifies this
      ensures out == old(out) + EmitStmt(stmt, x) && used == old(used) + Gotos(EmitStmt(stmt, x))
      ensures resumes == old(resumes) + ResumesStmt(stmt) && loops == old(loops) && Fits(x)
      decreases stmt, 2
    {
      hide Gotos, EmitSeq, WfSeq, DistinctSeq, NamesSeq, CtxNames, WfStmt, DistinctStmt, NamesStmt, EmitStmt, SuspendEdge, LandingCode, HandlerCode, ResumesStmt, ResumesSeq;
      LetParts(stmt, x);
      LetNames(stmt);
      ghost var start, met := out, resumes;
      out := out + [Perform(stmt.dst, stmt.op, stmt.args)];
      EmitEdge(stmt.onSuspend, stmt.dst);
      EmitLanding(stmt, x);
      EmitHandler(stmt, x);
      LetCode(stmt, x, start, met);
    }

    /** The suspension edge and its resume point. */
    method EmitEdge(edge: OnSuspend, dst: Option<VarId>)
      modifies this`out, this`resumes
      ensures out == old(out) + SuspendEdge(edge)
      ensures resumes == old(resumes) + if edge.Suspend? then [ResumePoint(edge.state, edge.saved, dst)] else []
    {
      if edge.Suspend? {
        out := out + [When(Suspending, [PushFrame(edge.state, edge.saved), Leave(None)], []), C.Label(ResumeAt(edge.state))];
        resumes := resumes + [ResumePoint(edge.state, edge.saved, dst)];
      }
    }

    method EmitLanding(stmt: Stmt, ghost x: Ctx)
      requires stmt.Let? && WfStmt(stmt, x) && DistinctStmt(stmt) && Fits(x)
      requires stmt.onDefect.Landing? ==> used + CtxNames(x, NoTarget) !! NamesSeq(stmt.onDefect.body)
      modifies this
      ensures out == old(out) + LandingCode(stmt, x) && Fits(x) && loops == old(loops)
      ensures used == old(used) + if stmt.onDefect.Landing? then Gotos(EmitSeq(stmt.onDefect.body, x, NoTarget)) else {}
      ensures resumes == old(resumes) + if stmt.onDefect.Landing? then ResumesSeq(stmt.onDefect.body) else []
      ensures stmt.onDefect.Landing? ==> used <= old(used) + CtxNames(x, NoTarget) + NamesSeq(stmt.onDefect.body)
      decreases stmt, 1
    {
      hide Gotos, EmitSeq, WfSeq, DistinctSeq, NamesSeq, CtxNames;
      if stmt.onDefect.Landing? {
        var body := EmitInside(stmt.onDefect.body, NoTarget, x);
        SeqGotosNamed(stmt.onDefect.body, x, NoTarget);
        out := out + [When(Pending, body, [])];
      }
    }

    method EmitHandler(stmt: Stmt, ghost x: Ctx)
      requires stmt.Let? && WfStmt(stmt, x) && DistinctStmt(stmt) && Fits(x)
      requires stmt.onFail.Handle? ==> used + CtxNames(x, NoTarget) !! NamesSeq(stmt.onFail.body)
      modifies this
      ensures out == old(out) + HandlerCode(stmt, x) && Fits(x) && loops == old(loops)
      ensures used == old(used) + if stmt.onFail.Handle? then Gotos(EmitSeq(stmt.onFail.body, x, NoTarget)) else {}
      ensures resumes == old(resumes) + if stmt.onFail.Handle? then ResumesSeq(stmt.onFail.body) else []
      decreases stmt, 1
    {
      hide Gotos, EmitSeq, WfSeq, DistinctSeq, NamesSeq, CtxNames;
      if stmt.onFail.Handle? {
        var body := EmitInside(stmt.onFail.body, NoTarget, x);
        out := out + [When(Failing, [TakeFailure(stmt.onFail.error)] + body, [])];
      }
    }

    method EmitIf(stmt: Stmt, ghost x: Ctx)
      requires stmt.If? && WfStmt(stmt, x) && DistinctStmt(stmt) && Fits(x) && used + CtxNames(x, NoTarget) !! NamesStmt(stmt)
      modifies this
      ensures out == old(out) + EmitStmt(stmt, x) && used == old(used) + Gotos(EmitStmt(stmt, x))
      ensures resumes == old(resumes) + ResumesStmt(stmt) && loops == old(loops) && Fits(x)
      decreases stmt, 2
    {
      hide Gotos, EmitSeq, WfSeq, DistinctSeq, NamesSeq, CtxNames;
      var y, z := Target(stmt.dst, EndOf(stmt.id), false), Target(stmt.dst, EndOf(stmt.id), true);
      CtxMore(x, y);
      CtxMore(x, z);
      var yes := EmitInside(stmt.whenTrue, y, x);
      SeqGotosNamed(stmt.whenTrue, x, y);
      var no := EmitInside(stmt.whenFalse, z, x);
      ghost var code := [When(Nonzero(stmt.cond), yes, no)];
      LabelAfter(code[0], EndOf(stmt.id));
      out := out + [When(Nonzero(stmt.cond), yes, no)];
      Label(EndOf(stmt.id));
    }

    method EmitSwitch(stmt: Stmt, ghost x: Ctx)
      requires stmt.Switch? && WfStmt(stmt, x) && DistinctStmt(stmt) && Fits(x) && used + CtxNames(x, NoTarget) !! NamesStmt(stmt)
      modifies this
      ensures out == old(out) + EmitStmt(stmt, x) && used == old(used) + Gotos(EmitStmt(stmt, x))
      ensures resumes == old(resumes) + ResumesStmt(stmt) && loops == old(loops) && Fits(x)
      decreases stmt, 2
    {
      hide Gotos, EmitSeq, WfSeq, DistinctSeq, NamesSeq, CtxNames, NamesCases;
      var y := Target(stmt.dst, EndOf(stmt.id), false);
      CtxMore(x, y);
      var arms, default := EmitCases(stmt.cases, y, x);
      ghost var code := [Select(stmt.on, arms, default)];
      LabelAfter(code[0], EndOf(stmt.id));
      out := out + [Select(stmt.on, arms, default)];
      Label(EndOf(stmt.id));
    }

    method EmitCases(cases: Cases, y: Target, ghost x: Ctx) returns (arms: seq<Arm>, default: seq<C>)
      requires WfCases(cases, x, y) && DistinctCases(cases) && Fits(x) && used + CtxNames(x, y) !! NamesCases(cases)
      modifies this
      ensures arms == EmitArms(cases, x, y) && default == EmitDefault(cases, x, y)
      ensures out == old(out) && used == old(used) + GotosOfArms(arms) + Gotos(default)
      ensures resumes == old(resumes) + ResumesCases(cases) && loops == old(loops) && Fits(x)
      decreases cases, 0
    {
      match cases
      case Case(key, body, more) =>
        var code := EmitInside(body, y, x);
        SeqGotosNamed(body, x, y);
        ghost var met := resumes;
        var others;
        others, default := EmitCases(more, y, x);
        arms := [Arm(key, code)] + others;
        assert arms[0] == Arm(key, code) && arms[1..] == others;
        assert resumes == old(resumes) + (ResumesSeq(body) + ResumesCases(more));
      case Default(body) =>
        arms := [];
        default := EmitInside(body, y, x);
      case NoDefault =>
        LabelsOne(Abort);
        arms, default := [], [Abort];
    }

    method EmitLoop(stmt: Stmt, ghost x: Ctx)
      requires stmt.Loop? && WfStmt(stmt, x) && DistinctStmt(stmt) && Fits(x) && used + CtxNames(x, NoTarget) !! NamesStmt(stmt)
      modifies this
      ensures out == old(out) + EmitStmt(stmt, x) && used == old(used) + Gotos(EmitStmt(stmt, x))
      ensures resumes == old(resumes) + ResumesStmt(stmt) && loops == old(loops) && Fits(x)
      decreases stmt, 2
    {
      hide Gotos, EmitSeq, WfSeq, DistinctSeq, NamesSeq, CtxNames;
      var start, head, end := out, HeadOf(stmt.id), EndOf(stmt.id);
      CtxInLoop(x, stmt.vars, head, Target(stmt.dst, end, true));
      EmitInits(stmt.vars, stmt.inits);
      loops := loops + [InLoop(stmt.vars, head)];
      var body := EmitInside(stmt.body, Target(stmt.dst, end, true), x.(loop := InLoop(stmt.vars, head)));
      loops := loops[..|loops| - 1];
      Label(head);
      out := out + [Braces(body)];
      Label(end);
      LoopParts(stmt.vars, stmt.inits, head, end, body);
      LoopCode(start, InitsFrom(stmt.vars, stmt.inits, 0), LabelIfUsed(head, [Braces(body)]), [Braces(body)], LabelIfUsed(end, [Braces(body)]));
    }

    method EmitInits(vars: seq<VarId>, inits: seq<Operand>)
      requires |vars| == |inits|
      modifies this`out
      ensures out == old(out) + InitsFrom(vars, inits, 0)
    {
      ghost var start := out;
      var i := 0;
      while i < |vars|
        invariant 0 <= i <= |vars| && out + InitsFrom(vars, inits, i) == start + InitsFrom(vars, inits, 0)
      {
        assert out + ([Assign(vars[i], inits[i])] + InitsFrom(vars, inits, i + 1)) == out + [Assign(vars[i], inits[i])] + InitsFrom(vars, inits, i + 1);
        out := out + [Assign(vars[i], inits[i])];
        i := i + 1;
      }
    }

    method EmitBlock(stmt: Stmt, ghost x: Ctx)
      requires stmt.Block? && WfStmt(stmt, x) && DistinctStmt(stmt) && Fits(x) && used + CtxNames(x, NoTarget) !! NamesStmt(stmt)
      modifies this
      ensures out == old(out) + EmitStmt(stmt, x) && used == old(used) + Gotos(EmitStmt(stmt, x))
      ensures resumes == old(resumes) + ResumesStmt(stmt) && loops == old(loops) && Fits(x)
      decreases stmt, 2
    {
      hide Gotos, EmitSeq, WfSeq, DistinctSeq, NamesSeq, CtxNames;
      var end := EndOf(stmt.id);
      CtxInBlock(x, stmt.target, Target(stmt.dst, end, false), Target(stmt.dst, end, true));
      labels := labels[stmt.target := Target(stmt.dst, end, false)];
      var body := EmitInside(stmt.body, Target(stmt.dst, end, true), x.(labels := x.labels[stmt.target := Target(stmt.dst, end, false)]));
      ghost var code := [Braces(body)];
      LabelAfter(code[0], end);
      out := out + [Braces(body)];
      Label(end);
    }
  }

  /** Emits a function body: the code and resume points the preservation theorem is about. */
  method EmitBody(body: Seq) returns (f: Function)
    requires WellFormed(body)
    ensures f == EmitFunction(body)
  {
    var cx := new Cx();
    cx.EmitSequence(body, NoTarget, OUTSIDE);
    f := Function(cx.out, cx.resumes);
  }

  /** Where code inside may jump to besides its own labels. */
  function CtxNames(x: Ctx, y: Target): set<Name> {
    (set l | l in x.labels && x.labels[l].Target? :: x.labels[l].end) +
    (if x.loop.InLoop? then {x.loop.head} else {}) + (if y.Target? then {y.end} else {})
  }

  /** The parts of a value have different names. */
  lemma LetNames(stmt: Stmt)
    requires stmt.Let? && DistinctStmt(stmt)
    ensures stmt.onDefect.Landing? ==> NamesSeq(stmt.onDefect.body) <= NamesStmt(stmt)
    ensures stmt.onFail.Handle? ==> NamesSeq(stmt.onFail.body) <= NamesStmt(stmt)
    ensures stmt.onDefect.Landing? && stmt.onFail.Handle? ==> NamesSeq(stmt.onDefect.body) !! NamesSeq(stmt.onFail.body)
  {
  }

  lemma LetCode(stmt: Stmt, x: Ctx, start: seq<C>, met: seq<ResumePoint>)
    requires stmt.Let?
    ensures start + [Perform(stmt.dst, stmt.op, stmt.args)] + SuspendEdge(stmt.onSuspend) + LandingCode(stmt, x) + HandlerCode(stmt, x) ==
            start + EmitStmt(stmt, x)
    ensures met + (if stmt.onSuspend.Suspend? then [ResumePoint(stmt.onSuspend.state, stmt.onSuspend.saved, stmt.dst)] else []) +
            (if stmt.onDefect.Landing? then ResumesSeq(stmt.onDefect.body) else []) +
            (if stmt.onFail.Handle? then ResumesSeq(stmt.onFail.body) else []) == met + ResumesStmt(stmt)
  {
    hide EmitSeq, SuspendEdge;
    var call, edge, landing, handler := [Perform(stmt.dst, stmt.op, stmt.args)], SuspendEdge(stmt.onSuspend), LandingCode(stmt, x), HandlerCode(stmt, x);
    assert EmitStmt(stmt, x) == call + edge + landing + handler;
  }

  lemma CtxMore(x: Ctx, y: Target)
    ensures CtxNames(x, y) == CtxNames(x, NoTarget) + if y.Target? then {y.end} else {}
  {
  }

  lemma CtxInLoop(x: Ctx, vars: seq<VarId>, head: Name, y: Target)
    requires y.Target?
    ensures CtxNames(x.(loop := InLoop(vars, head)), y) <= CtxNames(x, NoTarget) + {head, y.end}
  {
  }

  lemma CtxInBlock(x: Ctx, target: LabelId, y: Target, z: Target)
    requires y.Target? && z.Target?
    ensures CtxNames(x.(labels := x.labels[target := y]), z) <= CtxNames(x, NoTarget) + {y.end, z.end}
  {
  }

  /** Code whose statements neither jump nor nest. */
  predicate Straight(code: seq<C>) {
    Plain(code) && forall c :: c in code ==> !c.Goto?
  }

  lemma {:induction false} StraightGotos(code: seq<C>)
    requires Straight(code)
    ensures Gotos(code) == {}
    decreases |code|
  {
    if code != [] {
      StraightGotos(code[1..]);
    }
  }

  lemma {:induction false} TempsStraight(args: seq<Operand>, i: nat)
    requires i <= |args|
    ensures Straight(TempsFrom(args, i))
    decreases |args| - i
  {
    if i < |args| {
      TempsStraight(args, i + 1);
    }
  }

  lemma {:induction false} FromTempsStraight(vars: seq<VarId>, i: nat)
    requires i <= |vars|
    ensures Straight(FromTempsFrom(vars, i))
    decreases |vars| - i
  {
    if i < |vars| {
      FromTempsStraight(vars, i + 1);
    }
  }

  lemma {:induction false} InitsStraight(vars: seq<VarId>, inits: seq<Operand>, i: nat)
    requires i <= |vars| == |inits|
    ensures Straight(InitsFrom(vars, inits, i))
    decreases |vars| - i
  {
    if i < |vars| {
      InitsStraight(vars, inits, i + 1);
    }
  }

  function Jumps(t: Term, x: Ctx, y: Target): set<Name>
    requires WfTerm(t, x, y)
  {
    match t
    case Yield(_) => if y.falls then {} else {y.end}
    case Break(l, _) => {x.labels[l].end}
    case Recur(_) => {x.loop.head}
    case _ => {}
  }

  lemma TermGotos(t: Term, x: Ctx, y: Target)
    requires WfTerm(t, x, y)
    ensures Gotos(EmitTerm(t, x, y)) == Jumps(t, x, y)
  {
    match t
    case Yield(v) =>
      StraightGotos(AssignTo(y.dst, v));
      if y.falls {
        assert AssignTo(y.dst, v) + [] == AssignTo(y.dst, v);
      } else {
        LabelsAppend(AssignTo(y.dst, v), [C.Goto(y.end)]);
        LabelsOne(C.Goto(y.end));
      }
    case Break(l, v) =>
      StraightGotos(AssignTo(x.labels[l].dst, v));
      LabelsAppend(AssignTo(x.labels[l].dst, v), [C.Goto(x.labels[l].end)]);
      LabelsOne(C.Goto(x.labels[l].end));
    case Recur(args) => RecurParts(args, x.loop.vars, x.loop.head);
    case _ => StraightGotos(EmitTerm(t, x, y));
  }

  lemma RecurParts(args: seq<Operand>, vars: seq<VarId>, head: Name)
    ensures Gotos([Braces(TempsFrom(args, 0) + (FromTempsFrom(vars, 0) + [C.Goto(head)]))]) == {head}
  {
    var temps, news := TempsFrom(args, 0), FromTempsFrom(vars, 0);
    TempsStraight(args, 0);
    FromTempsStraight(vars, 0);
    StraightGotos(temps);
    StraightGotos(news);
    LabelsOne(C.Goto(head));
    LabelsAppend(news, [C.Goto(head)]);
    LabelsAppend(temps, news + [C.Goto(head)]);
    LabelsOne(Braces(temps + (news + [C.Goto(head)])));
  }

  /** The parts of what a value emits. */
  lemma LetParts(stmt: Stmt, x: Ctx)
    requires stmt.Let?
    ensures Gotos(EmitStmt(stmt, x)) ==
            (if stmt.onDefect.Landing? then Gotos(EmitSeq(stmt.onDefect.body, x, NoTarget)) else {}) +
            (if stmt.onFail.Handle? then Gotos(EmitSeq(stmt.onFail.body, x, NoTarget)) else {})
  {
    hide Gotos, GotosOf, EmitSeq;
    var call, edge, landing, handler := [Perform(stmt.dst, stmt.op, stmt.args)], SuspendEdge(stmt.onSuspend), LandingCode(stmt, x), HandlerCode(stmt, x);
    assert EmitStmt(stmt, x) == call + edge + landing + handler;
    CallGotos(stmt);
    EdgeGotos(stmt.onSuspend);
    LandingGotos(stmt, x);
    HandlerGotos(stmt, x);
    LabelsAppend(call, edge);
    LabelsAppend(call + edge, landing);
    LabelsAppend(call + edge + landing, handler);
  }

  lemma CallGotos(stmt: Stmt)
    requires stmt.Let?
    ensures Gotos([Perform(stmt.dst, stmt.op, stmt.args)]) == {}
  {
    LabelsOne(Perform(stmt.dst, stmt.op, stmt.args));
  }

  lemma LandingGotos(stmt: Stmt, x: Ctx)
    requires stmt.Let?
    ensures Gotos(LandingCode(stmt, x)) == if stmt.onDefect.Landing? then Gotos(EmitSeq(stmt.onDefect.body, x, NoTarget)) else {}
  {
    if stmt.onDefect.Landing? {
      LabelsOne(LandingCode(stmt, x)[0]);
    }
  }

  lemma HandlerGotos(stmt: Stmt, x: Ctx)
    requires stmt.Let?
    ensures Gotos(HandlerCode(stmt, x)) == if stmt.onFail.Handle? then Gotos(EmitSeq(stmt.onFail.body, x, NoTarget)) else {}
  {
    if stmt.onFail.Handle? {
      LabelsOne(TakeFailure(stmt.onFail.error));
      LabelsAppend([TakeFailure(stmt.onFail.error)], EmitSeq(stmt.onFail.body, x, NoTarget));
      LabelsOne(HandlerCode(stmt, x)[0]);
    }
  }

  lemma EdgeGotos(edge: OnSuspend)
    ensures Gotos(SuspendEdge(edge)) == {}
  {
    if edge.Suspend? {
      var yes := [PushFrame(edge.state, edge.saved), Leave(None)];
      StraightGotos(yes);
      LabelsOne(When(Suspending, yes, []));
      LabelsOne(C.Label(ResumeAt(edge.state)));
      LabelsAppend([When(Suspending, yes, [])], [C.Label(ResumeAt(edge.state))]);
    }
  }

  lemma LoopParts(vars: seq<VarId>, inits: seq<Operand>, head: Name, end: Name, body: seq<C>)
    requires |vars| == |inits|
    ensures var code := [Braces(body)];
            && Gotos(code) == Gotos(body)
            && Gotos(InitsFrom(vars, inits, 0) + LabelIfUsed(head, code) + code + LabelIfUsed(end, code)) == Gotos(body)
  {
    hide Gotos, GotosOf, InitsFrom;
    var code := [Braces(body)];
    BracesGotos(body);
    LabelGotos(head, code);
    LabelGotos(end, code);
    var start, h, e := InitsFrom(vars, inits, 0), LabelIfUsed(head, code), LabelIfUsed(end, code);
    InitsStraight(vars, inits, 0);
    StraightGotos(start);
    LabelsAppend(start, h);
    LabelsAppend(start + h, code);
    LabelsAppend(start + h + code, e);
  }

  lemma LoopCode(start: seq<C>, a: seq<C>, b: seq<C>, c: seq<C>, d: seq<C>)
    ensures start + a + b + c + d == start + (a + b + c + d)
  {
  }

  lemma BracesGotos(body: seq<C>)
    ensures Gotos([Braces(body)]) == Gotos(body)
  {
    LabelsOne(Braces(body));
  }

  lemma LabelGotos(name: Name, code: seq<C>)
    ensures Gotos(LabelIfUsed(name, code)) == {}
  {
    LabelsOne(C.Label(name));
  }

  lemma LabelAfter(c: C, name: Name)
    ensures Gotos([c]) == GotosOf(c) && Gotos([c] + LabelIfUsed(name, [c])) == GotosOf(c)
  {
    LabelsOne(c);
    LabelsOne(C.Label(name));
    LabelsAppend([c], LabelIfUsed(name, [c]));
  }

  /** Code jumps to its own labels and those around it. */
  lemma {:induction false} SeqGotosNamed(q: Seq, x: Ctx, y: Target)
    requires WfSeq(q, x, y)
    ensures Gotos(EmitSeq(q, x, y)) <= NamesSeq(q) + CtxNames(x, y)
    decreases q, 0
  {
    match q
    case End(t) => TermGotos(t, x, y);
    case Then(stmt, rest) =>
      StmtGotosNamed(stmt, x);
      SeqGotosNamed(rest, x, y);
      LabelsAppend(EmitStmt(stmt, x), EmitSeq(rest, x, y));
  }

  lemma {:induction false} StmtGotosNamed(stmt: Stmt, x: Ctx)
    requires WfStmt(stmt, x)
    ensures Gotos(EmitStmt(stmt, x)) <= NamesStmt(stmt) + CtxNames(x, NoTarget)
    decreases stmt, 0
  {
    match stmt
    case Let(_, _, _, onDefect, onFail, _) =>
      LetParts(stmt, x);
      if onDefect.Landing? {
        SeqGotosNamed(onDefect.body, x, NoTarget);
      }
      if onFail.Handle? {
        SeqGotosNamed(onFail.body, x, NoTarget);
      }
    case If(id, dst, cond, whenTrue, whenFalse) =>
      var y, z := Target(dst, EndOf(id), false), Target(dst, EndOf(id), true);
      SeqGotosNamed(whenTrue, x, y);
      SeqGotosNamed(whenFalse, x, z);
      LabelAfter(When(Nonzero(cond), EmitSeq(whenTrue, x, y), EmitSeq(whenFalse, x, z)), EndOf(id));
    case Switch(id, dst, on, cases) =>
      var y := Target(dst, EndOf(id), false);
      CasesGotosNamed(cases, x, y);
      LabelAfter(Select(on, EmitArms(cases, x, y), EmitDefault(cases, x, y)), EndOf(id));
    case Loop(id, dst, vars, inits, body) =>
      var x', y := x.(loop := InLoop(vars, HeadOf(id))), Target(dst, EndOf(id), true);
      SeqGotosNamed(body, x', y);
      LoopParts(vars, inits, HeadOf(id), EndOf(id), EmitSeq(body, x', y));
    case Block(id, dst, target, body) =>
      var x', y := x.(labels := x.labels[target := Target(dst, EndOf(id), false)]), Target(dst, EndOf(id), true);
      SeqGotosNamed(body, x', y);
      LabelAfter(Braces(EmitSeq(body, x', y)), EndOf(id));
    case Count(up, v) => LabelsOne(Recount(up, v));
  }

  lemma {:induction false} CasesGotosNamed(cases: Cases, x: Ctx, y: Target)
    requires WfCases(cases, x, y)
    ensures GotosOfArms(EmitArms(cases, x, y)) + Gotos(EmitDefault(cases, x, y)) <= NamesCases(cases) + CtxNames(x, y)
    decreases cases, 0
  {
    match cases
    case Case(key, body, more) =>
      SeqGotosNamed(body, x, y);
      CasesGotosNamed(more, x, y);
      var arms := EmitArms(cases, x, y);
      assert arms[0] == Arm(key, EmitSeq(body, x, y)) && arms[1..] == EmitArms(more, x, y);
    case Default(body) => SeqGotosNamed(body, x, y);
    case NoDefault => LabelsOne(Abort);
  }
}
