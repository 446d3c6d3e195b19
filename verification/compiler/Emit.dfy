/** The emission: structured sequences to C with labels and gotos. */
module Emit {
  import opened Wrappers
  import opened Ir
  import opened Machine

  /** Where a yield goes: the destination of the enclosing statement and the label after it.  `falls`
      when the sequence ends right before that label, so that no goto is needed. */
  datatype Target = Target(dst: Option<VarId>, end: Name, falls: bool) | NoTarget

  /** The blocks and the innermost loop around a sequence. */
  datatype Ctx = Ctx(labels: map<LabelId, Target>, loop: LoopTarget)
  datatype LoopTarget = InLoop(vars: seq<VarId>, head: Name) | NoLoop

  /** The labels `code` jumps to. */
  function Gotos(code: seq<C>): set<Name>
    decreases code, 1
  {
    if code == [] then {} else GotosOf(code[0]) + Gotos(code[1..])
  }

  function GotosOf(c: C): set<Name>
    decreases c, 0
  {
    match c
    case When(_, yes, no) => Gotos(yes) + Gotos(no)
    case Select(_, arms, default) => GotosOfArms(arms) + Gotos(default)
    case Braces(body) => Gotos(body)
    case Goto(n) => {n}
    case _ => {}
  }

  function GotosOfArms(arms: seq<Arm>): set<Name>
    decreases arms, 0
  {
    if arms == [] then {} else Gotos(arms[0].body) + GotosOfArms(arms[1..])
  }

  /** A label is written only if something jumps to it. */
  function LabelIfUsed(n: Name, code: seq<C>): seq<C> {
    if n in Gotos(code) then [Label(n)] else []
  }

  function AssignTo(dst: Option<VarId>, value: Option<Operand>): seq<C> {
    if dst.Some? && value.Some? then [Assign(dst.value, value.value)] else []
  }

  function InitsFrom(vars: seq<VarId>, inits: seq<Operand>, i: nat): seq<C>
    requires i <= |vars| == |inits|
    decreases |vars| - i
  {
    if i == |vars| then [] else [Assign(vars[i], inits[i])] + InitsFrom(vars, inits, i + 1)
  }

  function TempsFrom(args: seq<Operand>, i: nat): seq<C>
    requires i <= |args|
    decreases |args| - i
  {
    if i == |args| then [] else [Temp(i, args[i])] + TempsFrom(args, i + 1)
  }

  function FromTempsFrom(vars: seq<VarId>, i: nat): seq<C>
    requires i <= |vars|
    decreases |vars| - i
  {
    if i == |vars| then [] else [FromTemp(vars[i], i)] + FromTempsFrom(vars, i + 1)
  }

  function EmitTerm(t: Term, x: Ctx, y: Target): seq<C> {
    match t
    case Yield(v) => if y.NoTarget? then [] else AssignTo(y.dst, v) + if y.falls then [] else [Goto(y.end)]
    case Return(v) => [Leave(v)]
    case Fail(e) => [SetFailure(e), Leave(None)]
    case Break(l, v) =>
      if l in x.labels && x.labels[l].Target? then AssignTo(x.labels[l].dst, v) + [Goto(x.labels[l].end)] else []
    case Recur(args) =>
      // The new values may read the old ones.
      if x.loop.InLoop? then [Braces(TempsFrom(args, 0) + (FromTempsFrom(x.loop.vars, 0) + [Goto(x.loop.head)]))] else []
    case Unwind => [Leave(None)]
    case Unreachable => [Abort]
  }

  function EmitSeq(q: Seq, x: Ctx, y: Target): seq<C>
    decreases q, 0
  {
    match q
    case End(t) => EmitTerm(t, x, y)
    case Then(stmt, rest) => EmitStmt(stmt, x) + EmitSeq(rest, x, y)
  }

  function SuspendEdge(edge: OnSuspend): seq<C> {
    match edge
    case NoSuspend => []
    case Suspend(state, saved) => [When(Suspending, [PushFrame(state, saved), Leave(None)], []), Label(ResumeAt(state))]
  }

  function EmitStmt(stmt: Stmt, x: Ctx): seq<C>
    decreases stmt, 0
  {
    match stmt
    case Let(dst, op, args, onDefect, onFail, onSuspend) =>
      [Perform(dst, op, args)] + SuspendEdge(onSuspend) +
      (if onDefect.Landing? then [When(Pending, EmitSeq(onDefect.body, x, NoTarget), [])] else []) +
      (if onFail.Handle? then [When(Failing, [TakeFailure(onFail.error)] + EmitSeq(onFail.body, x, NoTarget), [])] else [])
    case If(id, dst, cond, whenTrue, whenFalse) =>
      var code := [When(Nonzero(cond), EmitSeq(whenTrue, x, Target(dst, EndOf(id), false)), EmitSeq(whenFalse, x, Target(dst, EndOf(id), true)))];
      code + LabelIfUsed(EndOf(id), code)
    case Switch(id, dst, on, cases) =>
      var y := Target(dst, EndOf(id), false);
      var code := [Select(on, EmitArms(cases, x, y), EmitDefault(cases, x, y))];
      code + LabelIfUsed(EndOf(id), code)
    case Loop(id, dst, vars, inits, body) =>
      if |vars| != |inits| then []
      else
        var code := [Braces(EmitSeq(body, x.(loop := InLoop(vars, HeadOf(id))), Target(dst, EndOf(id), true)))];
        InitsFrom(vars, inits, 0) + LabelIfUsed(HeadOf(id), code) + code + LabelIfUsed(EndOf(id), code)
    case Block(id, dst, target, body) =>
      var code := [Braces(EmitSeq(body, x.(labels := x.labels[target := Target(dst, EndOf(id), false)]), Target(dst, EndOf(id), true)))];
      code + LabelIfUsed(EndOf(id), code)
    case Count(up, v) => [Recount(up, v)]
  }

  function EmitArms(cases: Cases, x: Ctx, y: Target): seq<Arm>
    decreases cases, 0
  {
    match cases
    case Case(key, body, more) => [Arm(key, EmitSeq(body, x, y))] + EmitArms(more, x, y)
    case _ => []
  }

  function EmitDefault(cases: Cases, x: Ctx, y: Target): seq<C>
    decreases cases, 0
  {
    match cases
    case Case(_, _, more) => EmitDefault(more, x, y)
    case Default(body) => EmitSeq(body, x, y)
    case NoDefault => [Abort]
  }

  /** The resume points met while emitting, in order. */
  function ResumesSeq(q: Seq): seq<ResumePoint>
    decreases q, 0
  {
    match q
    case End(_) => []
    case Then(stmt, rest) => ResumesStmt(stmt) + ResumesSeq(rest)
  }

  function ResumesStmt(stmt: Stmt): seq<ResumePoint>
    decreases stmt, 0
  {
    match stmt
    case Let(dst, _, _, onDefect, onFail, onSuspend) =>
      (if onSuspend.Suspend? then [ResumePoint(onSuspend.state, onSuspend.saved, dst)] else []) +
      (if onDefect.Landing? then ResumesSeq(onDefect.body) else []) +
      (if onFail.Handle? then ResumesSeq(onFail.body) else [])
    case If(_, _, _, whenTrue, whenFalse) => ResumesSeq(whenTrue) + ResumesSeq(whenFalse)
    case Switch(_, _, _, cases) => ResumesCases(cases)
    case Loop(_, _, _, _, body) => ResumesSeq(body)
    case Block(_, _, _, body) => ResumesSeq(body)
    case Count(_, _) => []
  }

  function ResumesCases(cases: Cases): seq<ResumePoint>
    decreases cases, 0
  {
    match cases
    case Case(_, body, more) => ResumesSeq(body) + ResumesCases(more)
    case Default(body) => ResumesSeq(body)
    case NoDefault => []
  }

  const OUTSIDE := Ctx(map[], NoLoop)

  /** The C of a function body. */
  function EmitFunction(body: Seq): Function {
    Function(EmitSeq(body, OUTSIDE, NoTarget), ResumesSeq(body))
  }
}
