/** The ways through structured code, and which variables each reads and writes on the way.  Conditions are
    not looked at: a way may take either branch, any case, any number of rounds. */
module Paths {
  import opened Wrappers
  import opened Ir

  datatype Access = Reads(v: VarId) | Writes(v: VarId)

  /** Where a way goes: behind the statement, to the statement a `yield` is for, behind a block, back to
      the head of the innermost loop; or it is not followed further, at the latest when it leaves the
      function. */
  datatype Way = Falls | Yields | Breaks(target: LabelId) | Recurs | Stops

  function ReadsOf(os: seq<Operand>): seq<Access> {
    if os == [] then [] else (if os[0].Use? then [Reads(os[0].v)] else []) + ReadsOf(os[1..])
  }

  function ReadsOpt(o: Option<Operand>): seq<Access> {
    if o.Some? then ReadsOf([o.value]) else []
  }

  function WritesOf(vars: seq<VarId>): seq<Access> {
    if vars == [] then [] else [Writes(vars[0])] + WritesOf(vars[1..])
  }

  function WritesOpt(dst: Option<VarId>): seq<Access> {
    if dst.Some? then [Writes(dst.value)] else []
  }

  predicate PathTerm(t: Term, trace: seq<Access>, way: Way) {
    match t
    case Yield(v) => trace == ReadsOpt(v) && way == Yields
    case Return(v) => trace == ReadsOpt(v) && way == Stops
    case Fail(e) => trace == ReadsOf([e]) && way == Stops
    case Break(l, v) => trace == ReadsOpt(v) && way == Breaks(l)
    case Recur(args) => trace == ReadsOf(args) && way == Recurs
    case Unwind => trace == [] && way == Stops
    case Unreachable => trace == [] && way == Stops
  }

  ghost predicate PathSeq(q: Seq, trace: seq<Access>, way: Way)
    decreases q, 0, 0
  {
    way != Falls &&
    ((trace == [] && way == Stops)
     || match q
        case End(t) => PathTerm(t, trace, way)
        case Then(stmt, rest) =>
          || PathStmt(stmt, trace, way)
          || exists a, b :: trace == a + b && PathStmt(stmt, a, Falls) && PathSeq(rest, b, way))
  }

  /** Behind a nested sequence: its `yield` gives the statement its value. */
  predicate Leads(dst: Option<VarId>, inside: seq<Access>, way: Way, trace: seq<Access>, out: Way) {
    if way == Yields then trace == inside + WritesOpt(dst) && out == Falls else trace == inside && out == way
  }

  ghost predicate PathStmt(stmt: Stmt, trace: seq<Access>, way: Way)
    decreases stmt, 1, 0
  {
    match stmt
    case Let(_, _, args, _, _, _) => exists back :: trace == ReadsOf(args) + back && PathBack(stmt, back, way)
    case If(_, dst, cond, whenTrue, whenFalse) =>
      exists w, y :: (PathSeq(whenTrue, w, y) || PathSeq(whenFalse, w, y)) && Leads(dst, ReadsOf([cond]) + w, y, trace, way)
    case Switch(_, dst, on, cases) =>
      exists w, y :: PathCases(cases, w, y) && Leads(dst, [Reads(on.v)] + w, y, trace, way)
    case Loop(_, dst, vars, inits, body) =>
      exists n: nat, w, y :: PathLoop(vars, body, n, w, y) && Leads(dst, ReadsOf(inits) + (WritesOf(vars) + w), y, trace, way)
    case Block(_, dst, target, body) =>
      exists w, y :: PathSeq(body, w, y) && Leads(dst, w, if y == Breaks(target) then Yields else y, trace, way)
    case Count(_, v) => trace == [Reads(v)] && way == Falls
  }

  /** After a value comes back: it goes to its destination; or there is none, and a landing runs instead. */
  ghost predicate PathBack(stmt: Stmt, trace: seq<Access>, way: Way)
    requires stmt.Let?
    decreases stmt, 0, 0
  {
    || (trace == WritesOpt(stmt.dst) && way == Falls)
    || (stmt.onDefect.Landing? && PathSeq(stmt.onDefect.body, trace, way))
    || (stmt.onFail.Handle? && exists w :: trace == [Writes(stmt.onFail.error)] + w && PathSeq(stmt.onFail.body, w, way))
  }

  ghost predicate PathCases(cases: Cases, trace: seq<Access>, way: Way)
    decreases cases, 0, 0
  {
    match cases
    case Case(_, body, more) => PathSeq(body, trace, way) || PathCases(more, trace, way)
    case Default(body) => PathSeq(body, trace, way)
    case NoDefault => trace == [] && way == Stops
  }

  /** `n` rounds that go back to the head, and one more. */
  ghost predicate PathLoop(vars: seq<VarId>, body: Seq, n: nat, trace: seq<Access>, way: Way)
    decreases body, 1, n
  {
    if n == 0 then way != Recurs && PathSeq(body, trace, way)
    else exists a, b :: trace == a + (WritesOf(vars) + b) && PathSeq(body, a, Recurs) && PathLoop(vars, body, n - 1, b, way)
  }

  // ---------- what a way does to one variable ----------

  /** The first access to `v`. */
  function First(trace: seq<Access>, v: VarId): Option<Access> {
    if trace == [] then None else if trace[0].v == v then Some(trace[0]) else First(trace[1..], v)
  }

  /** What is live where code may go: after its yield, at the head of the innermost loop, after the blocks
      around it. */
  datatype LiveCtx = LiveCtx(yieldLive: set<VarId>, head: set<VarId>, afterLabel: map<LabelId, set<VarId>>)

  function LiveAt(way: Way, after: set<VarId>, c: LiveCtx): set<VarId> {
    match way
    case Falls => after
    case Yields => c.yieldLive
    case Breaks(l) => if l in c.afterLabel then c.afterLabel[l] else {}
    case Recurs => c.head
    case Stops => {}
  }

  /** The way reads `v` before it writes it, or does neither and goes where `v` is live. */
  predicate Wants(trace: seq<Access>, way: Way, v: VarId, after: set<VarId>, c: LiveCtx) {
    match First(trace, v)
    case None => v in LiveAt(way, after, c)
    case Some(access) => access.Reads?
  }

  ghost predicate NeedsSeq(q: Seq, v: VarId, c: LiveCtx) {
    exists t, x :: PathSeq(q, t, x) && Wants(t, x, v, {}, c)
  }

  ghost predicate NeedsStmt(stmt: Stmt, v: VarId, after: set<VarId>, c: LiveCtx) {
    exists t, x :: PathStmt(stmt, t, x) && Wants(t, x, v, after, c)
  }

  ghost predicate NeedsBack(stmt: Stmt, v: VarId, after: set<VarId>, c: LiveCtx)
    requires stmt.Let?
  {
    exists t, x :: PathBack(stmt, t, x) && Wants(t, x, v, after, c)
  }

  ghost predicate NeedsCases(cases: Cases, v: VarId, c: LiveCtx) {
    exists t, x :: PathCases(cases, t, x) && Wants(t, x, v, {}, c)
  }

  ghost predicate NeedsLoop(vars: seq<VarId>, body: Seq, v: VarId, c: LiveCtx) {
    exists n: nat, t, x :: PathLoop(vars, body, n, t, x) && Wants(t, x, v, {}, c)
  }

  // ---------- traces one after the other ----------

  lemma {:induction false} FirstConcat(a: seq<Access>, b: seq<Access>, v: VarId)
    ensures First(a + b, v) == if First(a, v).Some? then First(a, v) else First(b, v)
  {
    if a == [] {
      assert a + b == b;
    } else {
      assert (a + b)[1..] == a[1..] + b;
      FirstConcat(a[1..], b, v);
    }
  }

  lemma {:induction false} FirstWrites(vars: seq<VarId>, v: VarId)
    ensures First(WritesOf(vars), v) == if v in vars then Some(Writes(v)) else None
  {
    if vars != [] {
      assert WritesOf(vars)[1..] == WritesOf(vars[1..]);
      FirstWrites(vars[1..], v);
    }
  }

  lemma FirstOne(x: Access, v: VarId)
    ensures First([x], v) == if x.v == v then Some(x) else None
  {
    assert First([x][1..], v) == None;
  }

  lemma FirstWritesOpt(dst: Option<VarId>, v: VarId)
    ensures First(WritesOpt(dst), v) == if dst == Some(v) then Some(Writes(v)) else None
  {
    if dst.Some? {
      FirstOne(Writes(dst.value), v);
    }
  }

  lemma PathNothing(q: Seq)
    ensures PathSeq(q, [], Stops)
  {
  }
}
