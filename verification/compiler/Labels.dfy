/** Labels: where a goto lands, and why every emitted label is unique. */
module Labels {
  import opened Wrappers
  import opened Ir
  import opened Machine
  import opened Emit

  function LabelsIn(code: seq<C>): set<Name>
    decreases code, 1
  {
    if code == [] then {} else LabelsOf(code[0]) + LabelsIn(code[1..])
  }

  function LabelsOf(c: C): set<Name>
    decreases c, 0
  {
    match c
    case When(_, yes, no) => LabelsIn(yes) + LabelsIn(no)
    case Select(_, arms, default) => LabelsOfArms(arms) + LabelsIn(default)
    case Braces(body) => LabelsIn(body)
    case Label(n) => {n}
    case _ => {}
  }

  function LabelsOfArms(arms: seq<Arm>): set<Name>
    decreases arms, 0
  {
    if arms == [] then {} else LabelsIn(arms[0].body) + LabelsOfArms(arms[1..])
  }

  /** No label stands twice. */
  predicate Unique(code: seq<C>)
    decreases code, 1
  {
    code == [] || (UniqueOf(code[0]) && Unique(code[1..]) && LabelsOf(code[0]) !! LabelsIn(code[1..]))
  }

  predicate UniqueOf(c: C)
    decreases c, 0
  {
    match c
    case When(_, yes, no) => Unique(yes) && Unique(no) && LabelsIn(yes) !! LabelsIn(no)
    case Select(_, arms, default) => UniqueArms(arms) && Unique(default) && LabelsOfArms(arms) !! LabelsIn(default)
    case Braces(body) => Unique(body)
    case _ => true
  }

  predicate UniqueArms(arms: seq<Arm>)
    decreases arms, 0
  {
    arms == [] || (Unique(arms[0].body) && UniqueArms(arms[1..]) && LabelsIn(arms[0].body) !! LabelsOfArms(arms[1..]))
  }

  lemma {:induction false} LabelsAppend(a: seq<C>, b: seq<C>)
    ensures LabelsIn(a + b) == LabelsIn(a) + LabelsIn(b)
    ensures Gotos(a + b) == Gotos(a) + Gotos(b)
    ensures Unique(a + b) <==> Unique(a) && Unique(b) && LabelsIn(a) !! LabelsIn(b)
    decreases |a|
  {
    if a == [] {
      assert a + b == b;
    } else {
      assert (a + b)[1..] == a[1..] + b;
      LabelsAppend(a[1..], b);
    }
  }

  lemma LabelsOne(c: C)
    ensures LabelsIn([c]) == LabelsOf(c) && Gotos([c]) == GotosOf(c) && (Unique([c]) <==> UniqueOf(c))
  {
    assert [c][1..] == [];
  }

  // ---------- finding ----------

  lemma {:induction false} FindExactly(code: seq<C>, kont: seq<seq<C>>, n: Name)
    ensures Find(code, kont, n).Place? <==> n in LabelsIn(code)
    decreases code, 1
  {
    if code != [] {
      FindInExactly(code[0], [code[1..]] + kont, n);
      FindExactly(code[1..], kont, n);
    }
  }

  lemma {:induction false} FindInExactly(c: C, kont: seq<seq<C>>, n: Name)
    ensures c == Label(n) || (FindIn(c, kont, n).Place? <==> n in LabelsOf(c))
    decreases c, 0
  {
    match c
    case When(_, yes, no) =>
      FindExactly(yes, kont, n);
      FindExactly(no, kont, n);
    case Select(_, arms, default) =>
      FindArmsExactly(arms, default, kont, n);
      FindExactly(default, [[]] + kont, n);
    case Braces(body) => FindExactly(body, kont, n);
    case _ =>
  }

  lemma {:induction false} FindArmsExactly(arms: seq<Arm>, default: seq<C>, kont: seq<seq<C>>, n: Name)
    ensures FindArms(arms, default, kont, n).Place? <==> n in LabelsOfArms(arms)
    decreases arms, 0
  {
    if arms != [] {
      FindExactly(arms[0].body, [Arms(arms[1..], default)] + kont, n);
      FindArmsExactly(arms[1..], default, kont, n);
    }
  }

  /** Code in front that does not have the label is passed over. */
  lemma {:induction false} FindPast(a: seq<C>, b: seq<C>, kont: seq<seq<C>>, n: Name)
    requires n !in LabelsIn(a)
    ensures Find(a + b, kont, n) == Find(b, kont, n)
    decreases |a|
  {
    if a == [] {
      assert a + b == b;
    } else {
      assert (a + b)[0] == a[0] && (a + b)[1..] == a[1..] + b;
      FindInExactly(a[0], [a[1..] + b] + kont, n);
      FindPast(a[1..], b, kont, n);
    }
  }

  /** Every label in `code` is found, from the whole function, at its place in `code` under `kont`. */
  ghost predicate Anchored(f: Function, code: seq<C>, kont: seq<seq<C>>) {
    Unique(code) && forall n :: n in LabelsIn(code) ==> Find(f.body, [], n) == Find(code, kont, n)
  }

  lemma AnchoredTail(f: Function, a: seq<C>, b: seq<C>, kont: seq<seq<C>>)
    requires Anchored(f, a + b, kont)
    ensures Anchored(f, b, kont)
  {
    LabelsAppend(a, b);
    forall n | n in LabelsIn(b) ensures Find(f.body, [], n) == Find(b, kont, n) {
      FindPast(a, b, kont, n);
    }
  }

  /** A label in the middle: a jump to it goes on right after it. */
  lemma AnchoredLabel(f: Function, a: seq<C>, n: Name, b: seq<C>, kont: seq<seq<C>>)
    requires Anchored(f, a + ([Label(n)] + b), kont)
    ensures Find(f.body, [], n) == Place(b, kont)
  {
    LabelsAppend(a, [Label(n)] + b);
    LabelsAppend([Label(n)], b);
    LabelsOne(Label(n));
    FindPast(a, [Label(n)] + b, kont, n);
    assert ([Label(n)] + b)[1..] == b;
  }

  /** A label inside the first statement is found inside it. */
  lemma FindFirst(f: Function, c: C, rest: seq<C>, kont: seq<seq<C>>, n: Name)
    requires Anchored(f, [c] + rest, kont) && n in LabelsOf(c) && !c.Label?
    ensures Find(f.body, [], n) == FindIn(c, [rest] + kont, n)
  {
    var code := [c] + rest;
    assert code[0] == c && code[1..] == rest;
    LabelsAppend([c], rest);
    LabelsOne(c);
    FindInExactly(c, [rest] + kont, n);
  }

  lemma UniqueFirst(c: C, rest: seq<C>)
    requires Unique([c] + rest)
    ensures UniqueOf(c)
  {
    LabelsAppend([c], rest);
    LabelsOne(c);
  }

  lemma AnchoredWhen(f: Function, test: Test, yes: seq<C>, no: seq<C>, rest: seq<C>, kont: seq<seq<C>>)
    requires Anchored(f, [When(test, yes, no)] + rest, kont)
    ensures Anchored(f, yes, [rest] + kont) && Anchored(f, no, [rest] + kont)
  {
    var c := When(test, yes, no);
    UniqueFirst(c, rest);
    forall n | n in LabelsIn(yes) ensures Find(f.body, [], n) == Find(yes, [rest] + kont, n) {
      FindFirst(f, c, rest, kont, n);
      FindExactly(yes, [rest] + kont, n);
    }
    forall n | n in LabelsIn(no) ensures Find(f.body, [], n) == Find(no, [rest] + kont, n) {
      FindFirst(f, c, rest, kont, n);
      FindExactly(yes, [rest] + kont, n);
    }
  }

  lemma AnchoredBraces(f: Function, body: seq<C>, rest: seq<C>, kont: seq<seq<C>>)
    requires Anchored(f, [Braces(body)] + rest, kont)
    ensures Anchored(f, body, [rest] + kont)
  {
    UniqueFirst(Braces(body), rest);
    forall n | n in LabelsIn(body) ensures Find(f.body, [], n) == Find(body, [rest] + kont, n) {
      FindFirst(f, Braces(body), rest, kont, n);
    }
  }

  /** The arms of a switch, entered under `kont`. */
  ghost predicate AnchoredArms(f: Function, arms: seq<Arm>, default: seq<C>, kont: seq<seq<C>>) {
    && UniqueArms(arms) && (forall n :: n in LabelsOfArms(arms) ==> Find(f.body, [], n) == FindArms(arms, default, kont, n))
    && Anchored(f, default, [[]] + kont)
  }

  lemma AnchoredSelect(f: Function, on: SwitchOn, arms: seq<Arm>, default: seq<C>, rest: seq<C>, kont: seq<seq<C>>)
    requires Anchored(f, [Select(on, arms, default)] + rest, kont)
    ensures AnchoredArms(f, arms, default, [rest] + kont)
  {
    var c := Select(on, arms, default);
    UniqueFirst(c, rest);
    forall n | n in LabelsOfArms(arms) ensures Find(f.body, [], n) == FindArms(arms, default, [rest] + kont, n) {
      FindFirst(f, c, rest, kont, n);
      FindArmsExactly(arms, default, [rest] + kont, n);
    }
    forall n | n in LabelsIn(default) ensures Find(f.body, [], n) == Find(default, [[]] + ([rest] + kont), n) {
      FindFirst(f, c, rest, kont, n);
      FindArmsExactly(arms, default, [rest] + kont, n);
    }
  }

  lemma AnchoredArm(f: Function, arms: seq<Arm>, default: seq<C>, kont: seq<seq<C>>)
    requires AnchoredArms(f, arms, default, kont) && arms != []
    ensures Anchored(f, arms[0].body, [Arms(arms[1..], default)] + kont)
    ensures AnchoredArms(f, arms[1..], default, kont)
  {
    forall n | n in LabelsIn(arms[0].body) ensures Find(f.body, [], n) == Find(arms[0].body, [Arms(arms[1..], default)] + kont, n) {
      FindExactly(arms[0].body, [Arms(arms[1..], default)] + kont, n);
    }
    forall n | n in LabelsOfArms(arms[1..]) ensures Find(f.body, [], n) == FindArms(arms[1..], default, kont, n) {
      FindExactly(arms[0].body, [Arms(arms[1..], default)] + kont, n);
      FindArmsExactly(arms[1..], default, kont, n);
    }
  }

  // ---------- the emitted labels ----------

  /** The labels a sequence may need. */
  function NamesSeq(q: Seq): set<Name>
    decreases q, 0
  {
    match q
    case End(_) => {}
    case Then(stmt, rest) => NamesStmt(stmt) + NamesSeq(rest)
  }

  function NamesStmt(stmt: Stmt): set<Name>
    decreases stmt, 0
  {
    match stmt
    case Let(_, _, _, onDefect, onFail, onSuspend) =>
      (if onSuspend.Suspend? then {ResumeAt(onSuspend.state)} else {}) +
      (if onDefect.Landing? then NamesSeq(onDefect.body) else {}) +
      (if onFail.Handle? then NamesSeq(onFail.body) else {})
    case If(id, _, _, whenTrue, whenFalse) => {EndOf(id)} + NamesSeq(whenTrue) + NamesSeq(whenFalse)
    case Switch(id, _, _, cases) => {EndOf(id)} + NamesCases(cases)
    case Loop(id, _, _, _, body) => {EndOf(id), HeadOf(id)} + NamesSeq(body)
    case Block(id, _, _, body) => {EndOf(id)} + NamesSeq(body)
    case Count(_, _) => {}
  }

  function NamesCases(cases: Cases): set<Name>
    decreases cases, 0
  {
    match cases
    case Case(_, body, more) => NamesSeq(body) + NamesCases(more)
    case Default(body) => NamesSeq(body)
    case NoDefault => {}
  }

  /** No statement appears in two places and no two suspension edges have the same state. */
  predicate DistinctSeq(q: Seq)
    decreases q, 0
  {
    match q
    case End(_) => true
    case Then(stmt, rest) => DistinctStmt(stmt) && DistinctSeq(rest) && NamesStmt(stmt) !! NamesSeq(rest)
  }

  predicate DistinctStmt(stmt: Stmt)
    decreases stmt, 0
  {
    match stmt
    case Let(_, _, _, onDefect, onFail, onSuspend) =>
      var a := if onSuspend.Suspend? then {ResumeAt(onSuspend.state)} else {};
      var b := if onDefect.Landing? then NamesSeq(onDefect.body) else {};
      var c := if onFail.Handle? then NamesSeq(onFail.body) else {};
      && a !! b && a !! c && b !! c
      && (onDefect.Landing? ==> DistinctSeq(onDefect.body)) && (onFail.Handle? ==> DistinctSeq(onFail.body))
    case If(id, _, _, whenTrue, whenFalse) =>
      && DistinctSeq(whenTrue) && DistinctSeq(whenFalse) && NamesSeq(whenTrue) !! NamesSeq(whenFalse)
      && EndOf(id) !in NamesSeq(whenTrue) && EndOf(id) !in NamesSeq(whenFalse)
    case Switch(id, _, _, cases) => DistinctCases(cases) && EndOf(id) !in NamesCases(cases)
    case Loop(id, _, _, _, body) => DistinctSeq(body) && EndOf(id) !in NamesSeq(body) && HeadOf(id) !in NamesSeq(body)
    case Block(id, _, _, body) => DistinctSeq(body) && EndOf(id) !in NamesSeq(body)
    case Count(_, _) => true
  }

  predicate DistinctCases(cases: Cases)
    decreases cases, 0
  {
    match cases
    case Case(_, body, more) => DistinctSeq(body) && DistinctCases(more) && NamesSeq(body) !! NamesCases(more)
    case Default(body) => DistinctSeq(body)
    case NoDefault => true
  }

  /** The labels of the emitted code are among the names, each at most once. */
  lemma {:induction false} EmitUnique(q: Seq, x: Ctx, y: Target)
    requires DistinctSeq(q)
    ensures LabelsIn(EmitSeq(q, x, y)) <= NamesSeq(q) && Unique(EmitSeq(q, x, y))
    decreases q, 0
  {
    match q
    case End(t) => TermUnique(t, x, y);
    case Then(stmt, rest) =>
      StmtUnique(stmt, x);
      EmitUnique(rest, x, y);
      LabelsAppend(EmitStmt(stmt, x), EmitSeq(rest, x, y));
  }

  /** Code without nested statements and labels. */
  predicate Plain(code: seq<C>) {
    forall c :: c in code ==> !c.When? && !c.Select? && !c.Braces? && !c.Label?
  }

  lemma {:induction false} PlainLabels(code: seq<C>)
    requires Plain(code)
    ensures LabelsIn(code) == {} && Unique(code)
    decreases |code|
  {
    if code != [] {
      PlainLabels(code[1..]);
    }
  }

  lemma {:induction false} TempsPlain(args: seq<Operand>, i: nat)
    requires i <= |args|
    ensures Plain(TempsFrom(args, i))
    decreases |args| - i
  {
    if i < |args| {
      TempsPlain(args, i + 1);
    }
  }

  lemma {:induction false} FromTempsPlain(vars: seq<VarId>, i: nat)
    requires i <= |vars|
    ensures Plain(FromTempsFrom(vars, i))
    decreases |vars| - i
  {
    if i < |vars| {
      FromTempsPlain(vars, i + 1);
    }
  }

  lemma {:induction false} InitsPlain(vars: seq<VarId>, inits: seq<Operand>, i: nat)
    requires i <= |vars| == |inits|
    ensures Plain(InitsFrom(vars, inits, i))
    decreases |vars| - i
  {
    if i < |vars| {
      InitsPlain(vars, inits, i + 1);
    }
  }

  lemma TermUnique(t: Term, x: Ctx, y: Target)
    ensures LabelsIn(EmitTerm(t, x, y)) == {} && Unique(EmitTerm(t, x, y))
  {
    if t.Recur? && x.loop.InLoop? {
      TempsPlain(t.args, 0);
      FromTempsPlain(x.loop.vars, 0);
      var code := TempsFrom(t.args, 0) + (FromTempsFrom(x.loop.vars, 0) + [Goto(x.loop.head)]);
      PlainLabels(code);
      LabelsOne(Braces(code));
    } else {
      PlainLabels(EmitTerm(t, x, y));
    }
  }

  /** A label written behind code that does not have it. */
  lemma LabelBehind(code: seq<C>, n: Name)
    requires Unique(code) && n !in LabelsIn(code)
    ensures LabelsIn(code + LabelIfUsed(n, code)) <= LabelsIn(code) + {n} && Unique(code + LabelIfUsed(n, code))
  {
    LabelsAppend(code, LabelIfUsed(n, code));
    LabelsOne(Label(n));
  }

  lemma {:induction false} StmtUnique(stmt: Stmt, x: Ctx)
    requires DistinctStmt(stmt)
    ensures LabelsIn(EmitStmt(stmt, x)) <= NamesStmt(stmt) && Unique(EmitStmt(stmt, x))
    decreases stmt, 1
  {
    match stmt
    case Let(dst, op, args, onDefect, onFail, onSuspend) =>
      LetUnique(stmt, x);
    case If(id, dst, cond, whenTrue, whenFalse) =>
      var a, b := EmitSeq(whenTrue, x, Target(dst, EndOf(id), false)), EmitSeq(whenFalse, x, Target(dst, EndOf(id), true));
      EmitUnique(whenTrue, x, Target(dst, EndOf(id), false));
      EmitUnique(whenFalse, x, Target(dst, EndOf(id), true));
      LabelsOne(When(Nonzero(cond), a, b));
      LabelBehind([When(Nonzero(cond), a, b)], EndOf(id));
    case Switch(id, dst, on, cases) =>
      var y := Target(dst, EndOf(id), false);
      CasesUnique(cases, x, y);
      LabelsOne(Select(on, EmitArms(cases, x, y), EmitDefault(cases, x, y)));
      LabelBehind([Select(on, EmitArms(cases, x, y), EmitDefault(cases, x, y))], EndOf(id));
    case Loop(id, dst, vars, inits, body) =>
      if |vars| == |inits| {
        var x', y := x.(loop := InLoop(vars, HeadOf(id))), Target(dst, EndOf(id), true);
        EmitUnique(body, x', y);
        LoopUnique(id, vars, inits, EmitSeq(body, x', y));
      }
    case Block(id, dst, target, body) =>
      var x', y := x.(labels := x.labels[target := Target(dst, EndOf(id), false)]), Target(dst, EndOf(id), true);
      EmitUnique(body, x', y);
      LabelsOne(Braces(EmitSeq(body, x', y)));
      LabelBehind([Braces(EmitSeq(body, x', y))], EndOf(id));
    case Count(up, v) => LabelsOne(Recount(up, v));
  }

  lemma LoopUnique(id: nat, vars: seq<VarId>, inits: seq<Operand>, body: seq<C>)
    requires |vars| == |inits| && Unique(body) && EndOf(id) !in LabelsIn(body) && HeadOf(id) !in LabelsIn(body)
    ensures var code := [Braces(body)];
            var all := InitsFrom(vars, inits, 0) + LabelIfUsed(HeadOf(id), code) + code + LabelIfUsed(EndOf(id), code);
            LabelsIn(all) <= {EndOf(id), HeadOf(id)} + LabelsIn(body) && Unique(all)
  {
    var code := [Braces(body)];
    var start, head, end := InitsFrom(vars, inits, 0), LabelIfUsed(HeadOf(id), code), LabelIfUsed(EndOf(id), code);
    LabelsOne(Braces(body));
    InitsPlain(vars, inits, 0);
    PlainLabels(start);
    LabelsOne(Label(HeadOf(id)));
    LabelsOne(Label(EndOf(id)));
    LabelsAppend(start, head);
    LabelsAppend(start + head, code);
    LabelsAppend(start + head + code, end);
  }

  lemma {:induction false} LetUnique(stmt: Stmt, x: Ctx)
    requires stmt.Let? && DistinctStmt(stmt)
    ensures LabelsIn(EmitStmt(stmt, x)) <= NamesStmt(stmt) && Unique(EmitStmt(stmt, x))
    decreases stmt, 0
  {
    var call := [Perform(stmt.dst, stmt.op, stmt.args)];
    var edge := SuspendEdge(stmt.onSuspend);
    LabelsOne(call[0]);
    EdgeUnique(stmt.onSuspend);
    LabelsAppend(call, edge);
    var landing, handler := [], [];
    if stmt.onDefect.Landing? {
      var body := EmitSeq(stmt.onDefect.body, x, NoTarget);
      EmitUnique(stmt.onDefect.body, x, NoTarget);
      landing := [When(Pending, body, [])];
      LabelsOne(When(Pending, body, []));
    }
    if stmt.onFail.Handle? {
      var body := EmitSeq(stmt.onFail.body, x, NoTarget);
      EmitUnique(stmt.onFail.body, x, NoTarget);
      LabelsAppend([TakeFailure(stmt.onFail.error)], body);
      LabelsOne(TakeFailure(stmt.onFail.error));
      handler := [When(Failing, [TakeFailure(stmt.onFail.error)] + body, [])];
      LabelsOne(handler[0]);
    }
    LabelsAppend(call + edge, landing);
    LabelsAppend(call + edge + landing, handler);
  }

  lemma EdgeUnique(edge: OnSuspend)
    ensures LabelsIn(SuspendEdge(edge)) == if edge.Suspend? then {ResumeAt(edge.state)} else {}
    ensures Unique(SuspendEdge(edge))
  {
    if edge.Suspend? {
      var yes := [PushFrame(edge.state, edge.saved), Leave(None)];
      PlainLabels(yes);
      LabelsOne(When(Suspending, yes, []));
      LabelsOne(Label(ResumeAt(edge.state)));
      LabelsAppend([When(Suspending, yes, [])], [Label(ResumeAt(edge.state))]);
    }
  }

  lemma {:induction false} CasesUnique(cases: Cases, x: Ctx, y: Target)
    requires DistinctCases(cases)
    ensures var arms, default := EmitArms(cases, x, y), EmitDefault(cases, x, y);
            && UniqueArms(arms) && Unique(default) && LabelsOfArms(arms) !! LabelsIn(default)
            && LabelsOfArms(arms) + LabelsIn(default) <= NamesCases(cases)
    decreases cases, 0
  {
    match cases
    case Case(key, body, more) =>
      EmitUnique(body, x, y);
      CasesUnique(more, x, y);
      var arms := EmitArms(cases, x, y);
      assert arms[0] == Arm(key, EmitSeq(body, x, y)) && arms[1..] == EmitArms(more, x, y);
    case Default(body) => EmitUnique(body, x, y);
    case NoDefault => PlainLabels([Abort]);
  }
}
