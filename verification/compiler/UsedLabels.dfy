/** No label is written in vain: apart from the points a frame resumes at, each has a goto. */
module UsedLabels {
  import opened Wrappers
  import opened Ir
  import opened Machine
  import opened Emit
  import opened Labels

  predicate Used(labels: set<Name>, gotos: set<Name>) {
    forall n :: n in labels ==> n.ResumeAt? || n in gotos
  }

  lemma {:induction false} LabelsUsed(q: Seq, x: Ctx, y: Target)
    ensures Used(LabelsIn(EmitSeq(q, x, y)), Gotos(EmitSeq(q, x, y)))
    decreases q, 0
  {
    match q
    case End(t) => TermUnique(t, x, y);
    case Then(stmt, rest) =>
      StmtLabelsUsed(stmt, x);
      LabelsUsed(rest, x, y);
      LabelsAppend(EmitStmt(stmt, x), EmitSeq(rest, x, y));
  }

  /** Labels before and behind one construct. */
  lemma AroundUsed(before: seq<C>, head: Name, c: C, end: Name)
    requires LabelsIn(before) == {} && Used(LabelsOf(c), GotosOf(c))
    ensures var code := before + LabelIfUsed(head, [c]) + [c] + LabelIfUsed(end, [c]); Used(LabelsIn(code), Gotos(code))
  {
    LabelsOne(c);
    LabelsOne(Label(head));
    LabelsOne(Label(end));
    LabelsAppend(before, LabelIfUsed(head, [c]));
    LabelsAppend(before + LabelIfUsed(head, [c]), [c]);
    LabelsAppend(before + LabelIfUsed(head, [c]) + [c], LabelIfUsed(end, [c]));
  }

  lemma BehindUsed(c: C, end: Name)
    requires Used(LabelsOf(c), GotosOf(c))
    ensures var code := [c] + LabelIfUsed(end, [c]); Used(LabelsIn(code), Gotos(code))
  {
    LabelsOne(c);
    LabelsOne(Label(end));
    LabelsAppend([c], LabelIfUsed(end, [c]));
  }

  lemma {:induction false} StmtLabelsUsed(stmt: Stmt, x: Ctx)
    ensures Used(LabelsIn(EmitStmt(stmt, x)), Gotos(EmitStmt(stmt, x)))
    decreases stmt, 1
  {
    match stmt
    case Let(_, _, _, _, _, _) => LetLabelsUsed(stmt, x);
    case If(id, dst, cond, whenTrue, whenFalse) =>
      LabelsUsed(whenTrue, x, Target(dst, EndOf(id), false));
      LabelsUsed(whenFalse, x, Target(dst, EndOf(id), true));
      BehindUsed(When(Nonzero(cond), EmitSeq(whenTrue, x, Target(dst, EndOf(id), false)), EmitSeq(whenFalse, x, Target(dst, EndOf(id), true))), EndOf(id));
    case Switch(id, dst, on, cases) =>
      var y := Target(dst, EndOf(id), false);
      CasesLabelsUsed(cases, x, y);
      BehindUsed(Select(on, EmitArms(cases, x, y), EmitDefault(cases, x, y)), EndOf(id));
    case Loop(id, dst, vars, inits, body) =>
      if |vars| == |inits| {
        var x', y := x.(loop := InLoop(vars, HeadOf(id))), Target(dst, EndOf(id), true);
        LabelsUsed(body, x', y);
        InitsPlain(vars, inits, 0);
        PlainLabels(InitsFrom(vars, inits, 0));
        AroundUsed(InitsFrom(vars, inits, 0), HeadOf(id), Braces(EmitSeq(body, x', y)), EndOf(id));
      }
    case Block(id, dst, target, body) =>
      var x', y := x.(labels := x.labels[target := Target(dst, EndOf(id), false)]), Target(dst, EndOf(id), true);
      LabelsUsed(body, x', y);
      BehindUsed(Braces(EmitSeq(body, x', y)), EndOf(id));
    case Count(up, v) => LabelsOne(Recount(up, v));
  }

  lemma {:induction false} LetLabelsUsed(stmt: Stmt, x: Ctx)
    requires stmt.Let?
    ensures Used(LabelsIn(EmitStmt(stmt, x)), Gotos(EmitStmt(stmt, x)))
    decreases stmt, 0
  {
    var call, edge := [Perform(stmt.dst, stmt.op, stmt.args)], SuspendEdge(stmt.onSuspend);
    var landing := if stmt.onDefect.Landing? then [When(Pending, EmitSeq(stmt.onDefect.body, x, NoTarget), [])] else [];
    var handler := if stmt.onFail.Handle? then [When(Failing, [TakeFailure(stmt.onFail.error)] + EmitSeq(stmt.onFail.body, x, NoTarget), [])] else [];
    LabelsOne(Perform(stmt.dst, stmt.op, stmt.args));
    EdgeLabels(stmt.onSuspend);
    if stmt.onDefect.Landing? {
      LabelsUsed(stmt.onDefect.body, x, NoTarget);
      BranchUsed(Pending, [], EmitSeq(stmt.onDefect.body, x, NoTarget));
      assert [] + EmitSeq(stmt.onDefect.body, x, NoTarget) == EmitSeq(stmt.onDefect.body, x, NoTarget);
    }
    if stmt.onFail.Handle? {
      LabelsUsed(stmt.onFail.body, x, NoTarget);
      LabelsOne(TakeFailure(stmt.onFail.error));
      BranchUsed(Failing, [TakeFailure(stmt.onFail.error)], EmitSeq(stmt.onFail.body, x, NoTarget));
    }
    assert EmitStmt(stmt, x) == call + edge + landing + handler;
    assert Used(LabelsIn(call), Gotos(call)) && Used(LabelsIn(edge), Gotos(edge));
    assert Used(LabelsIn(landing), Gotos(landing)) && Used(LabelsIn(handler), Gotos(handler));
    hide EmitSeq, EmitStmt, LabelsIn, Gotos, SuspendEdge;
    BothUsed(call, edge);
    BothUsed(call + edge, landing);
    BothUsed(call + edge + landing, handler);
  }

  lemma BothUsed(first: seq<C>, second: seq<C>)
    ensures Used(LabelsIn(first), Gotos(first)) && Used(LabelsIn(second), Gotos(second)) ==> Used(LabelsIn(first + second), Gotos(first + second))
  {
    LabelsAppend(first, second);
  }

  lemma BranchUsed(test: Test, first: seq<C>, body: seq<C>)
    requires LabelsIn(first) == {} && Used(LabelsIn(body), Gotos(body))
    ensures var code := [When(test, first + body, [])]; Used(LabelsIn(code), Gotos(code))
  {
    LabelsAppend(first, body);
    LabelsOne(When(test, first + body, []));
  }

  lemma EdgeLabels(edge: OnSuspend)
    ensures forall n :: n in LabelsIn(SuspendEdge(edge)) ==> n.ResumeAt?
  {
    if edge.Suspend? {
      var push := When(Suspending, [PushFrame(edge.state, edge.saved), Leave(None)], []);
      PlainLabels([PushFrame(edge.state, edge.saved), Leave(None)]);
      LabelsOne(push);
      LabelsOne(Label(ResumeAt(edge.state)));
      LabelsAppend([push], [Label(ResumeAt(edge.state))]);
      assert SuspendEdge(edge) == [push] + [Label(ResumeAt(edge.state))];
    }
  }

  lemma {:induction false} CasesLabelsUsed(cases: Cases, x: Ctx, y: Target)
    ensures var arms, default := EmitArms(cases, x, y), EmitDefault(cases, x, y);
            Used(LabelsOfArms(arms) + LabelsIn(default), GotosOfArms(arms) + Gotos(default))
    decreases cases, 0
  {
    match cases
    case Case(key, body, more) =>
      LabelsUsed(body, x, y);
      CasesLabelsUsed(more, x, y);
      var arms := EmitArms(cases, x, y);
      assert arms[0] == Arm(key, EmitSeq(body, x, y)) && arms[1..] == EmitArms(more, x, y);
    case Default(body) => LabelsUsed(body, x, y);
    case NoDefault => PlainLabels([Abort]);
  }
}
