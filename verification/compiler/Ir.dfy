/** The structured form the C emitter reads: sequences in A-normal form with structured control, and
    what they mean. */
module Ir {
  import opened Wrappers

  type VarId = nat
  type LabelId = nat
  type Val = int
  type Env = map<VarId, Val>

  datatype Operand = Use(v: VarId) | Const(c: Val)

  /** A call, builtin or runtime operation, and how it may come back. */
  datatype Op = Op(id: nat, fallible: bool, mayDefect: bool, maySuspend: bool)

  datatype SwitchOn = Tag(v: VarId) | Lit(v: VarId)

  datatype Term =
    | Yield(value: Option<Operand>)
    | Return(value: Option<Operand>)
    | Fail(error: Operand)
    | Break(target: LabelId, value: Option<Operand>)
    | Recur(args: seq<Operand>)
    | Unwind
    | Unreachable

  datatype Seq = Then(stmt: Stmt, rest: Seq) | End(term: Term)

  // What runs instead of the rest of the sequence when a value comes back with a pending defect, or
  // as a failure; and what a suspension saves.
  datatype OnDefect = NoDefect | Landing(body: Seq)
  datatype OnFail = NoFail | Handle(error: VarId, body: Seq)
  datatype OnSuspend = NoSuspend | Suspend(state: nat, saved: seq<VarId>)

  datatype Stmt =
    | Let(dst: Option<VarId>, op: Op, args: seq<Operand>, onDefect: OnDefect, onFail: OnFail, onSuspend: OnSuspend)
    | If(id: nat, dst: Option<VarId>, cond: Operand, whenTrue: Seq, whenFalse: Seq)
    | Switch(id: nat, dst: Option<VarId>, on: SwitchOn, cases: Cases)
    | Loop(id: nat, dst: Option<VarId>, vars: seq<VarId>, inits: seq<Operand>, body: Seq)
    | Block(id: nat, dst: Option<VarId>, target: LabelId, body: Seq)
    | Count(up: bool, v: VarId)        // dup or drop

  datatype Cases = Case(key: Val, body: Seq, more: Cases) | Default(body: Seq) | NoDefault

  // ---------- the outside ----------

  /** What the function did to the outside, in order. */
  datatype Event = Performed(op: Op, args: seq<Val>) | Counted(up: bool, value: Val)
  type History = seq<Event>

  /** How a value comes back. */
  datatype Outcome = Outcome(value: Val, failure: Option<Val>, pending: bool)

  /** The outside as a function of what happened so far: how operations come back, and whether they
      suspend first. */
  datatype Host = Host(perform: (History, Op, seq<Val>) -> Outcome, suspends: (History, Op, seq<Val>) -> bool, tag: Val -> Val)

  // ---------- environments ----------

  /** Locals start as zero. */
  function Get(env: Env, v: VarId): Val {
    if v in env then env[v] else 0
  }

  function Eval(env: Env, o: Operand): Val {
    match o
    case Use(v) => Get(env, v)
    case Const(c) => c
  }

  function EvalAll(env: Env, os: seq<Operand>): (vals: seq<Val>)
    ensures |vals| == |os|
  {
    seq(|os|, i requires 0 <= i < |os| => Eval(env, os[i]))
  }

  function EvalOpt(env: Env, o: Option<Operand>): Option<Val> {
    match o
    case None => None
    case Some(x) => Some(Eval(env, x))
  }

  function Bind(env: Env, dst: Option<VarId>, value: Option<Val>): Env {
    if dst.Some? && value.Some? then env[dst.value := value.value] else env
  }

  /** All variables at once. */
  function BindAll(env: Env, vars: seq<VarId>, vals: seq<Val>): Env
    requires |vars| == |vals|
  {
    BindFrom(env, vars, vals, 0)
  }

  function BindFrom(env: Env, vars: seq<VarId>, vals: seq<Val>, i: nat): Env
    requires i <= |vars| == |vals|
    decreases |vars| - i
  {
    if i == |vars| then env else BindFrom(env[vars[i] := vals[i]], vars, vals, i + 1)
  }

  // ---------- running ----------

  datatype Exit =
    | Yielded(value: Option<Val>)
    | Broke(target: LabelId, value: Option<Val>)
    | Recurred(args: seq<Val>)
    | Returned(value: Option<Val>)
    | Failed(error: Val)
    | Unwound
    | Aborted
    | OutOfFuel

  datatype State = State(env: Env, history: History)
  datatype Done = Done(exit: Exit, s: State)
  datatype Flow = Next(s: State) | Left(exit: Exit, s: State)

  function RunTerm(t: Term, s: State): Done {
    match t
    case Yield(v) => Done(Yielded(EvalOpt(s.env, v)), s)
    case Return(v) => Done(Returned(EvalOpt(s.env, v)), s)
    case Fail(e) => Done(Failed(Eval(s.env, e)), s)
    case Break(l, v) => Done(Broke(l, EvalOpt(s.env, v)), s)
    case Recur(args) => Done(Recurred(EvalAll(s.env, args)), s)
    case Unwind => Done(Unwound, s)
    case Unreachable => Done(Aborted, s)
  }

  /** Runs a sequence; `fuel` bounds the iterations of loops on any way through it. */
  function RunSeq(host: Host, fuel: nat, q: Seq, s: State): Done
    decreases fuel, q, 0
  {
    match q
    case End(t) => RunTerm(t, s)
    case Then(stmt, rest) =>
      match RunStmt(host, fuel, stmt, s) {
        case Next(s') => RunSeq(host, fuel, rest, s')
        case Left(exit, s') => Done(exit, s')
      }
  }

  /** What a nested sequence's yield gives, the statement binds. */
  function After(d: Done, dst: Option<VarId>): Flow {
    if d.exit.Yielded? then Next(d.s.(env := Bind(d.s.env, dst, d.exit.value))) else Left(d.exit, d.s)
  }

  /** The state when a value has come back. */
  function Back(host: Host, stmt: Stmt, s: State): (State, Outcome)
    requires stmt.Let?
  {
    var vals := EvalAll(s.env, stmt.args);
    var o := host.perform(s.history, stmt.op, vals);
    (State(Bind(s.env, stmt.dst, Some(o.value)), s.history + [Performed(stmt.op, vals)]), o)
  }

  function Scrutinee(host: Host, env: Env, on: SwitchOn): Val {
    match on
    case Tag(v) => host.tag(Get(env, v))
    case Lit(v) => Get(env, v)
  }

  function RunStmt(host: Host, fuel: nat, stmt: Stmt, s: State): Flow
    decreases fuel, stmt, 1
  {
    match stmt
    case Let(dst, op, args, onDefect, onFail, onSuspend) =>
      var (s', o) := Back(host, stmt, s);
      if onDefect.Landing? && o.pending then
        var d := RunSeq(host, fuel, onDefect.body, s');
        Left(d.exit, d.s)
      else if onFail.Handle? && o.failure.Some? then
        var d := RunSeq(host, fuel, onFail.body, s'.(env := s'.env[onFail.error := o.failure.value]));
        Left(d.exit, d.s)
      else Next(s')
    case If(id, dst, cond, whenTrue, whenFalse) =>
      After(if Eval(s.env, cond) != 0 then RunSeq(host, fuel, whenTrue, s) else RunSeq(host, fuel, whenFalse, s), dst)
    case Switch(id, dst, on, cases) =>
      After(RunCases(host, fuel, cases, Scrutinee(host, s.env, on), s), dst)
    case Loop(id, dst, vars, inits, body) =>
      if |vars| != |inits| then Left(Aborted, s)
      else After(RunLoop(host, fuel, vars, body, s.(env := BindAll(s.env, vars, EvalAll(s.env, inits)))), dst)
    case Block(id, dst, target, body) =>
      var d := RunSeq(host, fuel, body, s);
      if d.exit.Broke? && d.exit.target == target then Next(d.s.(env := Bind(d.s.env, dst, d.exit.value)))
      else After(d, dst)
    case Count(up, v) =>
      Next(s.(history := s.history + [Counted(up, Get(s.env, v))]))
  }

  function RunCases(host: Host, fuel: nat, cases: Cases, value: Val, s: State): Done
    decreases fuel, cases, 0
  {
    match cases
    case Case(key, body, more) => if key == value then RunSeq(host, fuel, body, s) else RunCases(host, fuel, more, value, s)
    case Default(body) => RunSeq(host, fuel, body, s)
    case NoDefault => Done(Aborted, s)
  }

  function RunLoop(host: Host, fuel: nat, vars: seq<VarId>, body: Seq, s: State): Done
    decreases fuel, body, 1
  {
    var d := RunSeq(host, fuel, body, s);
    if !d.exit.Recurred? then d
    else if |d.exit.args| != |vars| then Done(Aborted, d.s)
    else if fuel == 0 then Done(OutOfFuel, d.s)
    else RunLoop(host, fuel - 1, vars, body, d.s.(env := BindAll(d.s.env, vars, d.exit.args)))
  }
}
