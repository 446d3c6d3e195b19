/** The C the emitter writes, and how it runs: nested statements with labels and gotos, and state
    machines that return when they are suspended and are entered again with their frame. */
module Machine {
  import opened Wrappers
  import opened Ir

  /** Labels: after a statement, at the head of a loop, at a resume point. */
  datatype Name = EndOf(id: nat) | HeadOf(id: nat) | ResumeAt(state: nat)

  datatype Test = Nonzero(o: Operand) | Pending | Failing | Suspending

  datatype C =
    | Assign(v: VarId, o: Operand)
    | Temp(i: nat, o: Operand)               // ty ti = o;
    | FromTemp(v: VarId, i: nat)             // v = ti;
    | Perform(dst: Option<VarId>, op: Op, args: seq<Operand>)
    | Recount(up: bool, v: VarId)            // em_dup, em_drop
    | When(test: Test, yes: seq<C>, no: seq<C>)
    | Select(on: SwitchOn, arms: seq<Arm>, default: seq<C>)
    | Braces(body: seq<C>)
    | Label(name: Name)
    | Goto(name: Name)
    | TakeFailure(v: VarId)                  // v = em_failure; em_failure = NULL;
    | SetFailure(o: Operand)                 // em_failure = o;
    | Leave(value: Option<Operand>)          // return
    | Abort                                  // em_unreachable();
    | PushFrame(state: nat, saved: seq<VarId>)

  datatype Arm = Arm(key: Val, body: seq<C>)

  /** What a frame of `state` restores and where the input goes. */
  datatype ResumePoint = ResumePoint(state: nat, saved: seq<VarId>, dst: Option<VarId>)
  datatype Function = Function(body: seq<C>, resumes: seq<ResumePoint>)

  datatype Frame = Frame(state: nat, values: seq<Val>)

  /** Locals, temporaries, and the runtime's slots: the pending failure, whether a defect is pending,
      the suspension being captured, the frame pushed for it. */
  datatype Regs = Regs(env: Env, temps: map<nat, Val>, failure: Option<Val>, pending: bool,
                       suspended: Option<Outcome>, frame: Option<Frame>, history: History)

  datatype Config =
    | Running(code: seq<C>, kont: seq<seq<C>>, r: Regs)
    | Waiting(frame: Frame, outcome: Outcome, history: History)    // with the runtime, until resumed
    | Finished(value: Option<Val>, failure: Option<Val>, history: History)
    | Crashed(history: History)

  // ---------- labels ----------

  /** The rest of a switch from an arm on: C falls through. */
  function Arms(arms: seq<Arm>, default: seq<C>): seq<C>
    decreases arms
  {
    if arms == [] then [Braces(default)] else [Braces(arms[0].body)] + Arms(arms[1..], default)
  }

  function ArmsFor(arms: seq<Arm>, default: seq<C>, value: Val): seq<C>
    decreases arms
  {
    if arms == [] then [Braces(default)]
    else if arms[0].key == value then Arms(arms, default)
    else ArmsFor(arms[1..], default, value)
  }

  datatype Place = Nowhere | Place(code: seq<C>, kont: seq<seq<C>>)

  /** Where control is right after label `n`, which may be inside nested statements. */
  function Find(code: seq<C>, kont: seq<seq<C>>, n: Name): Place
    decreases code, 1
  {
    if code == [] then Nowhere
    else if code[0] == Label(n) then Place(code[1..], kont)
    else
      var inside := FindIn(code[0], [code[1..]] + kont, n);
      if inside.Place? then inside else Find(code[1..], kont, n)
  }

  function FindIn(c: C, kont: seq<seq<C>>, n: Name): Place
    decreases c, 0
  {
    match c
    case When(_, yes, no) =>
      var inside := Find(yes, kont, n);
      if inside.Place? then inside else Find(no, kont, n)
    case Select(_, arms, default) =>
      var inside := FindArms(arms, default, kont, n);
      if inside.Place? then inside else Find(default, [[]] + kont, n)
    case Braces(body) => Find(body, kont, n)
    case _ => Nowhere
  }

  function FindArms(arms: seq<Arm>, default: seq<C>, kont: seq<seq<C>>, n: Name): Place
    decreases arms, 0
  {
    if arms == [] then Nowhere
    else
      var inside := Find(arms[0].body, [Arms(arms[1..], default)] + kont, n);
      if inside.Place? then inside else FindArms(arms[1..], default, kont, n)
  }

  // ---------- steps ----------

  function Jump(f: Function, n: Name, r: Regs): Config {
    match Find(f.body, [], n)
    case Place(code, kont) => Running(code, kont, r)
    case Nowhere => Crashed(r.history)
  }

  function Holds(t: Test, r: Regs): bool {
    match t
    case Nonzero(o) => Eval(r.env, o) != 0
    case Pending => r.pending
    case Failing => r.failure.Some?
    case Suspending => r.suspended.Some?
  }

  function Failure(op: Op, o: Outcome): Option<Val> {
    if op.fallible then o.failure else None
  }

  /** Calls the operation; a suspended one returns any value. */
  function AfterPerform(host: Host, dst: Option<VarId>, op: Op, args: seq<Operand>, r: Regs): Regs {
    var vals := EvalAll(r.env, args);
    var o := host.perform(r.history, op, vals);
    var o' := o.(failure := Failure(op, o));
    var history := r.history + [Performed(op, vals)];
    if op.maySuspend && host.suspends(r.history, op, vals) then
      r.(env := Bind(r.env, dst, Some(0)), suspended := Some(o'), history := history)
    else
      r.(env := Bind(r.env, dst, Some(o'.value)), failure := o'.failure, pending := o'.pending, history := history)
  }

  function Values(env: Env, vars: seq<VarId>): (vals: seq<Val>)
    ensures |vals| == |vars|
  {
    seq(|vars|, i requires 0 <= i < |vars| => Get(env, vars[i]))
  }

  function Return(o: Option<Operand>, r: Regs): Config {
    if r.suspended.Some? && r.frame.Some? then Waiting(r.frame.value, r.suspended.value, r.history)
    else Finished(EvalOpt(r.env, o), r.failure, r.history)
  }

  /** The entry of the function with a frame: restores the saved variables, takes the input, jumps to
      the resume point. */
  function Resume(f: Function, resumes: seq<ResumePoint>, frame: Frame, outcome: Outcome, history: History): Config
    decreases resumes
  {
    if resumes == [] then Crashed(history)
    else
      var p := resumes[0];
      if p.state != frame.state then Resume(f, resumes[1..], frame, outcome, history)
      else if |p.saved| != |frame.values| then Crashed(history)
      else
        var env := Bind(BindAll(map[], p.saved, frame.values), p.dst, Some(outcome.value));
        Jump(f, ResumeAt(p.state), Regs(env, map[], outcome.failure, outcome.pending, None, None, history))
  }

  /** One statement. */
  function Exec(host: Host, f: Function, c: C, rest: seq<C>, kont: seq<seq<C>>, r: Regs): Config {
    match c
    case Assign(v, o) => Running(rest, kont, r.(env := r.env[v := Eval(r.env, o)]))
    case Temp(i, o) => Running(rest, kont, r.(temps := r.temps[i := Eval(r.env, o)]))
    case FromTemp(v, i) => Running(rest, kont, r.(env := r.env[v := if i in r.temps then r.temps[i] else 0]))
    case Perform(dst, op, args) => Running(rest, kont, AfterPerform(host, dst, op, args, r))
    case Recount(up, v) => Running(rest, kont, r.(history := r.history + [Counted(up, Get(r.env, v))]))
    case When(test, yes, no) => Running(if Holds(test, r) then yes else no, [rest] + kont, r)
    case Select(on, arms, default) => Running(ArmsFor(arms, default, Scrutinee(host, r.env, on)), [rest] + kont, r)
    case Braces(body) => Running(body, [rest] + kont, r)
    case Label(_) => Running(rest, kont, r)
    case Goto(n) => Jump(f, n, r)
    case TakeFailure(v) => Running(rest, kont, r.(env := Bind(r.env, Some(v), r.failure), failure := None))
    case SetFailure(o) => Running(rest, kont, r.(failure := Some(Eval(r.env, o))))
    case Leave(value) => Return(value, r)
    case Abort => Crashed(r.history)
    case PushFrame(state, saved) => Running(rest, kont, r.(frame := Some(Frame(state, Values(r.env, saved)))))
  }

  function Step(host: Host, f: Function, m: Config): Config {
    match m
    case Running(code, kont, r) =>
      if code != [] then Exec(host, f, code[0], code[1..], kont, r)
      else if kont != [] then Running(kont[0], kont[1..], r)
      else Crashed(r.history)
    case Waiting(frame, outcome, history) => Resume(f, f.resumes, frame, outcome, history)
    case _ => m
  }

  function Steps(host: Host, f: Function, m: Config, n: nat): Config
    decreases n
  {
    if n == 0 then m else Steps(host, f, Step(host, f, m), n - 1)
  }

  lemma {:induction false} StepsAdd(host: Host, f: Function, m: Config, i: nat, j: nat)
    ensures Steps(host, f, m, i + j) == Steps(host, f, Steps(host, f, m, i), j)
    decreases i
  {
    if i > 0 {
      StepsAdd(host, f, Step(host, f, m), i - 1, j);
    }
  }

  lemma StepHead(host: Host, f: Function, c: C, rest: seq<C>, kont: seq<seq<C>>, r: Regs)
    ensures Steps(host, f, Running([c] + rest, kont, r), 1) == Exec(host, f, c, rest, kont, r)
  {
    assert ([c] + rest)[1..] == rest;
    assert Steps(host, f, Exec(host, f, c, rest, kont, r), 0) == Exec(host, f, c, rest, kont, r);
  }

  /** The end of a nested statement. */
  lemma StepOut(host: Host, f: Function, rest: seq<C>, kont: seq<seq<C>>, r: Regs)
    ensures Steps(host, f, Running([], [rest] + kont, r), 1) == Running(rest, kont, r)
  {
    assert ([rest] + kont)[1..] == kont;
    assert Steps(host, f, Running(rest, kont, r), 0) == Running(rest, kont, r);
  }
}
