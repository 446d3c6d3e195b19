/** Which variables are needed later: the backward analysis that says what a suspension must save. */
module Liveness {
  import opened Wrappers
  import opened Ir
  import opened Paths

  function Uses(o: Operand): set<VarId> {
    match o
    case Use(v) => {v}
    case Const(_) => {}
  }

  function UsesOpt(o: Option<Operand>): set<VarId> {
    match o
    case None => {}
    case Some(x) => Uses(x)
  }

  function UsesAll(os: seq<Operand>): set<VarId> {
    if os == [] then {} else Uses(os[0]) + UsesAll(os[1..])
  }

  function Defined(dst: Option<VarId>): set<VarId> {
    match dst
    case None => {}
    case Some(v) => {v}
  }

  function AllOf(vars: seq<VarId>): set<VarId> {
    set v | v in vars
  }

  function LiveTerm(t: Term, c: LiveCtx): set<VarId> {
    match t
    case Yield(v) => c.yieldLive + UsesOpt(v)
    case Return(v) => UsesOpt(v)
    case Fail(e) => Uses(e)
    case Break(l, v) => (if l in c.afterLabel then c.afterLabel[l] else {}) + UsesOpt(v)
    case Recur(args) => c.head + UsesAll(args)
    case Unwind => {}
    case Unreachable => {}
  }

  function LiveSeq(q: Seq, c: LiveCtx): set<VarId>
    decreases q, 0
  {
    match q
    case End(t) => LiveTerm(t, c)
    case Then(stmt, rest) => LiveStmt(stmt, LiveSeq(rest, c), c)
  }

  /** Live after a value on any way on, its landings included. */
  function LiveOn(stmt: Stmt, after: set<VarId>, c: LiveCtx): set<VarId>
    requires stmt.Let?
    decreases stmt, 0
  {
    (after - Defined(stmt.dst)) +
    (if stmt.onFail.Handle? then LiveSeq(stmt.onFail.body, c) - {stmt.onFail.error} else {}) +
    (if stmt.onDefect.Landing? then LiveSeq(stmt.onDefect.body, c) else {})
  }

  function LiveStmt(stmt: Stmt, after: set<VarId>, c: LiveCtx): set<VarId>
    decreases stmt, 1
  {
    match stmt
    case Let(_, _, args, _, _, _) => LiveOn(stmt, after, c) + UsesAll(args)
    case If(_, dst, cond, whenTrue, whenFalse) =>
      var inner := c.(yieldLive := after - Defined(dst));
      LiveSeq(whenTrue, inner) + LiveSeq(whenFalse, inner) + Uses(cond)
    case Switch(_, dst, on, cases) => LiveCases(cases, c.(yieldLive := after - Defined(dst))) + {on.v}
    case Loop(_, dst, vars, inits, body) => LoopHead(vars, body, after - Defined(dst), c) + UsesAll(inits)
    case Block(_, dst, target, body) =>
      LiveSeq(body, c.(yieldLive := after - Defined(dst), afterLabel := c.afterLabel[target := after - Defined(dst)]))
    case Count(_, v) => after + {v}
  }

  function LiveCases(cases: Cases, c: LiveCtx): set<VarId>
    decreases cases, 0
  {
    match cases
    case Case(_, body, more) => LiveSeq(body, c) + LiveCases(more, c)
    case Default(body) => LiveSeq(body, c)
    case NoDefault => {}
  }

  /** What is live at the head of a loop besides its variables. */
  function LoopHead(vars: seq<VarId>, body: Seq, yieldLive: set<VarId>, c: LiveCtx): set<VarId>
    decreases body, 1
  {
    LiveSeq(body, c.(yieldLive := yieldLive, head := {})) - AllOf(vars)
  }

  /** Inside the loop. */
  function LoopCtx(vars: seq<VarId>, body: Seq, yieldLive: set<VarId>, c: LiveCtx): LiveCtx {
    c.(yieldLive := yieldLive, head := LoopHead(vars, body, yieldLive, c))
  }

  // ---------- the fixpoint ----------

  /** `d` has everything `c` has, and at most `extra` more. */
  ghost predicate Grown(c: LiveCtx, d: LiveCtx, extra: set<VarId>) {
    && c.yieldLive <= d.yieldLive <= c.yieldLive + extra
    && c.head <= d.head <= c.head + extra
    && c.afterLabel.Keys == d.afterLabel.Keys
    && forall l :: l in c.afterLabel ==> c.afterLabel[l] <= d.afterLabel[l] <= c.afterLabel[l] + extra
  }

  /** More live later means at least as much live now, and no more than that. */
  lemma {:induction false} LiveGrows(q: Seq, c: LiveCtx, d: LiveCtx, extra: set<VarId>)
    requires Grown(c, d, extra)
    ensures LiveSeq(q, c) <= LiveSeq(q, d) <= LiveSeq(q, c) + extra
    decreases q
  {
    if q.Then? {
      LiveGrows(q.rest, c, d, extra);
      LiveStmtGrows(q.stmt, LiveSeq(q.rest, c), LiveSeq(q.rest, d), c, d, extra);
    }
  }

  lemma {:induction false} LiveStmtGrows(stmt: Stmt, after: set<VarId>, after': set<VarId>, c: LiveCtx, d: LiveCtx, extra: set<VarId>)
    requires Grown(c, d, extra) && after <= after' <= after + extra
    ensures LiveStmt(stmt, after, c) <= LiveStmt(stmt, after', d) <= LiveStmt(stmt, after, c) + extra
    decreases stmt
  {
    match stmt
    case Let(dst, _, _, onDefect, onFail, _) =>
      if onFail.Handle? {
        LiveGrows(onFail.body, c, d, extra);
      }
      if onDefect.Landing? {
        LiveGrows(onDefect.body, c, d, extra);
      }
    case If(_, dst, _, whenTrue, whenFalse) =>
      var c', d' := c.(yieldLive := after - Defined(dst)), d.(yieldLive := after' - Defined(dst));
      LiveGrows(whenTrue, c', d', extra);
      LiveGrows(whenFalse, c', d', extra);
    case Switch(_, dst, _, cases) =>
      LiveCasesGrow(cases, c.(yieldLive := after - Defined(dst)), d.(yieldLive := after' - Defined(dst)), extra);
    case Loop(_, dst, vars, _, body) =>
      LiveGrows(body, c.(yieldLive := after - Defined(dst), head := {}), d.(yieldLive := after' - Defined(dst), head := {}), extra);
    case Block(_, dst, target, body) =>
      var a, a' := after - Defined(dst), after' - Defined(dst);
      LiveGrows(body, c.(yieldLive := a, afterLabel := c.afterLabel[target := a]), d.(yieldLive := a', afterLabel := d.afterLabel[target := a']), extra);
    case Count(_, _) =>
  }

  lemma {:induction false} LiveCasesGrow(cases: Cases, c: LiveCtx, d: LiveCtx, extra: set<VarId>)
    requires Grown(c, d, extra)
    ensures LiveCases(cases, c) <= LiveCases(cases, d) <= LiveCases(cases, c) + extra
    decreases cases
  {
    match cases
    case Case(_, body, more) =>
      LiveGrows(body, c, d, extra);
      LiveCasesGrow(more, c, d, extra);
    case Default(body) => LiveGrows(body, c, d, extra);
    case NoDefault =>
  }

  /** What is live at the head is live at the head: the analysis of a loop is stable. */
  lemma LoopHeadStable(vars: seq<VarId>, body: Seq, yieldLive: set<VarId>, c: LiveCtx)
    ensures var inner := LoopCtx(vars, body, yieldLive, c);
            LiveSeq(body, inner) - AllOf(vars) == inner.head
  {
    var head := LoopHead(vars, body, yieldLive, c);
    LiveGrows(body, c.(yieldLive := yieldLive, head := {}), LoopCtx(vars, body, yieldLive, c), head);
  }

  // ---------- exactly what is needed ----------

  lemma {:induction false} FirstReads(os: seq<Operand>, v: VarId)
    ensures First(ReadsOf(os), v) == if v in UsesAll(os) then Some(Reads(v)) else None
  {
    if os != [] {
      var head := if os[0].Use? then [Reads(os[0].v)] else [];
      FirstConcat(head, ReadsOf(os[1..]), v);
      FirstReads(os[1..], v);
      if os[0].Use? {
        FirstOne(Reads(os[0].v), v);
      }
    }
  }

  lemma FirstReadsOne(o: Operand, v: VarId)
    ensures First(ReadsOf([o]), v) == if v in Uses(o) then Some(Reads(v)) else None
  {
    FirstReads([o], v);
    assert UsesAll([o]) == Uses(o) + UsesAll([]);
  }

  lemma FirstReadsOpt(o: Option<Operand>, v: VarId)
    ensures First(ReadsOpt(o), v) == if v in UsesOpt(o) then Some(Reads(v)) else None
  {
    if o.Some? {
      FirstReadsOne(o.value, v);
    }
  }

  /** A variable is live if and only if some way needs it: it is read there before it is written, or the way
      leaves to where it is live. */
  lemma {:induction false} LiveExactly(q: Seq, c: LiveCtx, v: VarId)
    ensures v in LiveSeq(q, c) <==> NeedsSeq(q, v, c)
    decreases q, 0
  {
    match q
    case End(t) => TermExactly(t, c, v);
    case Then(stmt, rest) =>
      LiveExactly(rest, c, v);
      LiveStmtExactly(stmt, LiveSeq(rest, c), c, v);
      NeedsThen(stmt, rest, LiveSeq(rest, c), c, v);
  }

  lemma TermExactly(t: Term, c: LiveCtx, v: VarId)
    ensures v in LiveTerm(t, c) <==> NeedsSeq(End(t), v, c)
  {
    var (trace, way) := TermPath(t);
    TermFirst(t, v);
    assert PathSeq(End(t), trace, way);
    if v !in LiveTerm(t, c) {
      forall u, x | PathSeq(End(t), u, x) ensures !Wants(u, x, v, {}, c) {
        assert (u == [] && x == Stops) || (u == trace && x == way);
      }
    } else {
      assert Wants(trace, way, v, {}, c);
    }
  }

  function TermPath(t: Term): (r: (seq<Access>, Way))
    ensures PathTerm(t, r.0, r.1) && forall u, x :: PathTerm(t, u, x) ==> u == r.0 && x == r.1
  {
    match t
    case Yield(v) => (ReadsOpt(v), Yields)
    case Return(v) => (ReadsOpt(v), Stops)
    case Fail(e) => (ReadsOf([e]), Stops)
    case Break(l, v) => (ReadsOpt(v), Breaks(l))
    case Recur(args) => (ReadsOf(args), Recurs)
    case Unwind => ([], Stops)
    case Unreachable => ([], Stops)
  }

  lemma TermFirst(t: Term, v: VarId)
    ensures forall c: LiveCtx :: v in LiveTerm(t, c) <==> Wants(TermPath(t).0, TermPath(t).1, v, {}, c)
  {
    match t
    case Yield(o) => FirstReadsOpt(o, v);
    case Return(o) => FirstReadsOpt(o, v);
    case Fail(e) => FirstReadsOne(e, v);
    case Break(l, o) => FirstReadsOpt(o, v);
    case Recur(args) => FirstReads(args, v);
    case _ =>
  }

  /** What a sequence needs is what its first statement needs, with what the rest needs live after it. */
  lemma NeedsThen(stmt: Stmt, rest: Seq, after: set<VarId>, c: LiveCtx, v: VarId)
    requires v in after <==> NeedsSeq(rest, v, c)
    ensures NeedsSeq(Then(stmt, rest), v, c) <==> NeedsStmt(stmt, v, after, c)
  {
    if NeedsStmt(stmt, v, after, c) {
      var a, x :| PathStmt(stmt, a, x) && Wants(a, x, v, after, c);
      if x != Falls {
        assert PathSeq(Then(stmt, rest), a, x) && Wants(a, x, v, {}, c);
      } else {
        var b, y := [], Stops;
        PathNothing(rest);
        if First(a, v).None? {
          b, y :| PathSeq(rest, b, y) && Wants(b, y, v, {}, c);
        }
        FirstConcat(a, b, v);
        assert PathSeq(Then(stmt, rest), a + b, y) && Wants(a + b, y, v, {}, c);
      }
    }
    if NeedsSeq(Then(stmt, rest), v, c) {
      var t, y :| PathSeq(Then(stmt, rest), t, y) && Wants(t, y, v, {}, c);
      if y != Falls && PathStmt(stmt, t, y) {
        assert Wants(t, y, v, after, c);
      } else {
        var a, b :| t == a + b && PathStmt(stmt, a, Falls) && PathSeq(rest, b, y);
        FirstConcat(a, b, v);
        assert First(a, v).None? ==> Wants(b, y, v, {}, c);
        assert Wants(a, Falls, v, after, c);
      }
    }
  }

  /** What a nested sequence needs, `before` being read ahead of it. */
  lemma LeadsWants(dst: Option<VarId>, before: seq<Access>, w: seq<Access>, y: Way, t: seq<Access>, x: Way, after: set<VarId>, c: LiveCtx, v: VarId)
    requires Leads(dst, before + w, y, t, x) && y != Falls
    ensures Wants(t, x, v, after, c) <==>
            First(before, v) == Some(Reads(v)) || (First(before, v).None? && Wants(w, y, v, {}, c.(yieldLive := after - Defined(dst))))
  {
    FirstIs(before, v);
    FirstConcat(before, w, v);
    FirstConcat(before + w, WritesOpt(dst), v);
    FirstWritesOpt(dst, v);
  }

  lemma {:induction false} FirstIs(t: seq<Access>, v: VarId)
    ensures First(t, v).Some? ==> First(t, v).value.v == v
  {
    if t != [] {
      FirstIs(t[1..], v);
    }
  }

  function LeadsTo(dst: Option<VarId>, inside: seq<Access>, y: Way): (r: (seq<Access>, Way))
    ensures Leads(dst, inside, y, r.0, r.1)
  {
    if y == Yields then (inside + WritesOpt(dst), Falls) else (inside, y)
  }

  lemma NeedsIf(stmt: Stmt, after: set<VarId>, c: LiveCtx, v: VarId)
    requires stmt.If?
    ensures var d := c.(yieldLive := after - Defined(stmt.dst));
            NeedsStmt(stmt, v, after, c) <==> v in Uses(stmt.cond) || NeedsSeq(stmt.whenTrue, v, d) || NeedsSeq(stmt.whenFalse, v, d)
  {
    var d, before := c.(yieldLive := after - Defined(stmt.dst)), ReadsOf([stmt.cond]);
    FirstReadsOne(stmt.cond, v);
    if NeedsStmt(stmt, v, after, c) {
      var t, x :| PathStmt(stmt, t, x) && Wants(t, x, v, after, c);
      var w, y :| (PathSeq(stmt.whenTrue, w, y) || PathSeq(stmt.whenFalse, w, y)) && Leads(stmt.dst, before + w, y, t, x);
      LeadsWants(stmt.dst, before, w, y, t, x, after, c, v);
    }
    forall w, y | (PathSeq(stmt.whenTrue, w, y) || PathSeq(stmt.whenFalse, w, y)) && (v in Uses(stmt.cond) || Wants(w, y, v, {}, d))
      ensures NeedsStmt(stmt, v, after, c)
    {
      var (t, x) := LeadsTo(stmt.dst, before + w, y);
      LeadsWants(stmt.dst, before, w, y, t, x, after, c, v);
      assert PathStmt(stmt, t, x);
    }
    PathNothing(stmt.whenTrue);
  }

  lemma NeedsSwitch(stmt: Stmt, after: set<VarId>, c: LiveCtx, v: VarId)
    requires stmt.Switch?
    ensures NeedsStmt(stmt, v, after, c) <==> v == stmt.on.v || NeedsCases(stmt.cases, v, c.(yieldLive := after - Defined(stmt.dst)))
  {
    var d, before := c.(yieldLive := after - Defined(stmt.dst)), [Reads(stmt.on.v)];
    FirstOne(Reads(stmt.on.v), v);
    if NeedsStmt(stmt, v, after, c) {
      var t, x :| PathStmt(stmt, t, x) && Wants(t, x, v, after, c);
      var w, y :| PathCases(stmt.cases, w, y) && Leads(stmt.dst, before + w, y, t, x);
      CasesNeverFall(stmt.cases, w, y);
      LeadsWants(stmt.dst, before, w, y, t, x, after, c, v);
    }
    forall w, y | PathCases(stmt.cases, w, y) && (v == stmt.on.v || Wants(w, y, v, {}, d)) ensures NeedsStmt(stmt, v, after, c) {
      CasesNeverFall(stmt.cases, w, y);
      var (t, x) := LeadsTo(stmt.dst, before + w, y);
      LeadsWants(stmt.dst, before, w, y, t, x, after, c, v);
      assert PathStmt(stmt, t, x);
    }
    CasesNothing(stmt.cases);
  }

  lemma {:induction false} CasesNeverFall(cases: Cases, w: seq<Access>, y: Way)
    requires PathCases(cases, w, y)
    ensures y != Falls
  {
    if cases.Case? && !PathSeq(cases.body, w, y) {
      CasesNeverFall(cases.more, w, y);
    }
  }

  lemma CasesNothing(cases: Cases)
    ensures PathCases(cases, [], Stops)
  {
    if !cases.NoDefault? {
      PathNothing(cases.body);
    }
  }

  lemma BlockPath(stmt: Stmt, t: seq<Access>, x: Way) returns (w: seq<Access>, y: Way)
    requires stmt.Block? && PathStmt(stmt, t, x)
    ensures PathSeq(stmt.body, w, y) && Leads(stmt.dst, w, if y == Breaks(stmt.target) then Yields else y, t, x)
  {
    match stmt
    case Block(_, dst, target, body) =>
      w, y :| PathSeq(body, w, y) && Leads(dst, w, if y == Breaks(target) then Yields else y, t, x);
  }

  lemma LoopPath(stmt: Stmt, t: seq<Access>, x: Way) returns (n: nat, w: seq<Access>, y: Way)
    requires stmt.Loop? && PathStmt(stmt, t, x)
    ensures PathLoop(stmt.vars, stmt.body, n, w, y) && Leads(stmt.dst, ReadsOf(stmt.inits) + (WritesOf(stmt.vars) + w), y, t, x)
  {
    match stmt
    case Loop(_, dst, vars, inits, body) =>
      n, w, y :| PathLoop(vars, body, n, w, y) && Leads(dst, ReadsOf(inits) + (WritesOf(vars) + w), y, t, x);
  }

  lemma NeedsBlock(stmt: Stmt, after: set<VarId>, c: LiveCtx, v: VarId)
    requires stmt.Block?
    ensures var a := after - Defined(stmt.dst);
            NeedsStmt(stmt, v, after, c) <==> NeedsSeq(stmt.body, v, c.(yieldLive := a, afterLabel := c.afterLabel[stmt.target := a]))
  {
    var a := after - Defined(stmt.dst);
    var d, e := c.(yieldLive := a), c.(yieldLive := a, afterLabel := c.afterLabel[stmt.target := a]);
    forall w, y | PathSeq(stmt.body, w, y) ensures Wants(w, y, v, {}, e) <==> Wants(w, if y == Breaks(stmt.target) then Yields else y, v, {}, d) {
    }
    if NeedsStmt(stmt, v, after, c) {
      var t, x :| PathStmt(stmt, t, x) && Wants(t, x, v, after, c);
      var w, y := BlockPath(stmt, t, x);
      assert [] + w == w;
      LeadsWants(stmt.dst, [], w, if y == Breaks(stmt.target) then Yields else y, t, x, after, c, v);
    }
    if NeedsSeq(stmt.body, v, e) {
      var w, y :| PathSeq(stmt.body, w, y) && Wants(w, y, v, {}, e);
      var (t, x) := LeadsTo(stmt.dst, w, if y == Breaks(stmt.target) then Yields else y);
      assert [] + w == w;
      LeadsWants(stmt.dst, [], w, if y == Breaks(stmt.target) then Yields else y, t, x, after, c, v);
      assert PathStmt(stmt, t, x);
    }
  }

  // ---------- loops ----------

  /** A loop needs, besides its own variables, what one round of its body does: a round that goes back to
      the head has not touched what a later round needs. */
  lemma NeedsRound(vars: seq<VarId>, body: Seq, c: LiveCtx, v: VarId)
    requires v !in vars
    ensures NeedsLoop(vars, body, v, c) <==> NeedsSeq(body, v, c.(head := {}))
  {
    var d := c.(head := {});
    if NeedsLoop(vars, body, v, c) {
      var n: nat, t, x :| PathLoop(vars, body, n, t, x) && Wants(t, x, v, {}, c);
      RoundWants(vars, body, n, t, x, c, v);
    }
    if NeedsSeq(body, v, d) {
      var t, x :| PathSeq(body, t, x) && Wants(t, x, v, {}, d);
      if x == Recurs {
        PathNothing(body);
        assert PathLoop(vars, body, 0, [], Stops);
        var u := t + (WritesOf(vars) + []);
        FirstConcat(t, WritesOf(vars) + [], v);
        assert PathLoop(vars, body, 1, u, Stops) && Wants(u, Stops, v, {}, c);
      } else {
        assert PathLoop(vars, body, 0, t, x) && Wants(t, x, v, {}, c);
      }
    }
  }

  lemma {:induction false} RoundWants(vars: seq<VarId>, body: Seq, n: nat, t: seq<Access>, x: Way, c: LiveCtx, v: VarId)
    requires v !in vars && PathLoop(vars, body, n, t, x) && Wants(t, x, v, {}, c)
    ensures NeedsSeq(body, v, c.(head := {}))
    decreases n
  {
    hide *;
    if n == 0 {
      LastRound(vars, body, t, x, c, v);
    } else {
      var a, b := FirstRound(vars, body, n, t, x);
      RoundFirst(vars, a, b, x, c, v);
      if First(a, v).Some? {
        WantsNeeds(body, a, Recurs, v, c.(head := {}));
      } else {
        RoundWants(vars, body, n - 1, b, x, c, v);
      }
    }
  }

  lemma LastRound(vars: seq<VarId>, body: Seq, t: seq<Access>, x: Way, c: LiveCtx, v: VarId)
    requires PathLoop(vars, body, 0, t, x)
    ensures x != Falls && (Wants(t, x, v, {}, c) ==> NeedsSeq(body, v, c.(head := {})))
  {
    assert Wants(t, x, v, {}, c) ==> Wants(t, x, v, {}, c.(head := {}));
  }

  lemma FirstRound(vars: seq<VarId>, body: Seq, n: nat, t: seq<Access>, x: Way) returns (a: seq<Access>, b: seq<Access>)
    requires n > 0 && PathLoop(vars, body, n, t, x)
    ensures t == a + (WritesOf(vars) + b) && PathSeq(body, a, Recurs) && PathLoop(vars, body, n - 1, b, x)
  {
    a, b :| t == a + (WritesOf(vars) + b) && PathSeq(body, a, Recurs) && PathLoop(vars, body, n - 1, b, x);
  }

  lemma WantsNeeds(q: Seq, t: seq<Access>, x: Way, v: VarId, c: LiveCtx)
    requires PathSeq(q, t, x) && Wants(t, x, v, {}, c)
    ensures NeedsSeq(q, v, c)
  {
  }

  lemma RoundFirst(vars: seq<VarId>, a: seq<Access>, b: seq<Access>, x: Way, c: LiveCtx, v: VarId)
    requires v !in vars && Wants(a + (WritesOf(vars) + b), x, v, {}, c)
    ensures if First(a, v).Some? then Wants(a, Recurs, v, {}, c.(head := {})) else Wants(b, x, v, {}, c)
  {
    FirstConcat(a, WritesOf(vars) + b, v);
    FirstConcat(WritesOf(vars), b, v);
    FirstWrites(vars, v);
  }

  lemma {:induction false} LoopNeverFalls(vars: seq<VarId>, body: Seq, n: nat, t: seq<Access>, x: Way)
    requires PathLoop(vars, body, n, t, x)
    ensures x != Falls
    decreases n
  {
    hide *;
    if n == 0 {
      LastRound(vars, body, t, x, LiveCtx({}, {}, map[]), 0);
    } else {
      var a, b := FirstRound(vars, body, n, t, x);
      LoopNeverFalls(vars, body, n - 1, b, x);
    }
  }

  /** Before the first round the initial values are read and the variables written. */
  lemma LoopWants(stmt: Stmt, n: nat, w: seq<Access>, y: Way, t: seq<Access>, x: Way, after: set<VarId>, c: LiveCtx, v: VarId)
    requires stmt.Loop? && PathLoop(stmt.vars, stmt.body, n, w, y) && Leads(stmt.dst, ReadsOf(stmt.inits) + (WritesOf(stmt.vars) + w), y, t, x)
    ensures Wants(t, x, v, after, c) <==>
            v in UsesAll(stmt.inits) || (v !in stmt.vars && Wants(w, y, v, {}, c.(yieldLive := after - Defined(stmt.dst))))
  {
    LoopNeverFalls(stmt.vars, stmt.body, n, w, y);
    hide *;
    var before := ReadsOf(stmt.inits) + WritesOf(stmt.vars);
    FirstConcat(ReadsOf(stmt.inits), WritesOf(stmt.vars), v);
    FirstReads(stmt.inits, v);
    FirstWrites(stmt.vars, v);
    assert before + w == ReadsOf(stmt.inits) + (WritesOf(stmt.vars) + w);
    LeadsWants(stmt.dst, before, w, y, t, x, after, c, v);
  }

  lemma LoopIsPath(stmt: Stmt, n: nat, w: seq<Access>, y: Way, t: seq<Access>, x: Way)
    requires stmt.Loop? && PathLoop(stmt.vars, stmt.body, n, w, y) && Leads(stmt.dst, ReadsOf(stmt.inits) + (WritesOf(stmt.vars) + w), y, t, x)
    ensures PathStmt(stmt, t, x)
  {
  }

  lemma NeedsLoopStmt(stmt: Stmt, after: set<VarId>, c: LiveCtx, v: VarId)
    requires stmt.Loop?
    ensures NeedsStmt(stmt, v, after, c) <==>
            v in UsesAll(stmt.inits) || (v !in stmt.vars && NeedsLoop(stmt.vars, stmt.body, v, c.(yieldLive := after - Defined(stmt.dst))))
  {
    var d, vars, body := c.(yieldLive := after - Defined(stmt.dst)), stmt.vars, stmt.body;
    PathNothing(body);
    assert PathLoop(vars, body, 0, [], Stops);
    hide PathStmt, PathLoop, Leads, Wants;
    if NeedsStmt(stmt, v, after, c) {
      var t, x :| PathStmt(stmt, t, x) && Wants(t, x, v, after, c);
      var n, w, y := LoopPath(stmt, t, x);
      LoopWants(stmt, n, w, y, t, x, after, c, v);
    }
    forall n: nat, w, y | PathLoop(vars, body, n, w, y) && (v in UsesAll(stmt.inits) || (v !in vars && Wants(w, y, v, {}, d)))
      ensures NeedsStmt(stmt, v, after, c)
    {
      var (t, x) := LeadsTo(stmt.dst, ReadsOf(stmt.inits) + (WritesOf(vars) + w), y);
      LoopWants(stmt, n, w, y, t, x, after, c, v);
      LoopIsPath(stmt, n, w, y, t, x);
    }
  }

  /** What is live at a loop head is what some number of rounds needs. */
  lemma LoopHeadExactly(vars: seq<VarId>, body: Seq, yieldLive: set<VarId>, c: LiveCtx, v: VarId)
    ensures v in LoopHead(vars, body, yieldLive, c) <==> v !in vars && NeedsLoop(vars, body, v, c.(yieldLive := yieldLive))
    decreases body, 1
  {
    LiveExactly(body, c.(yieldLive := yieldLive, head := {}), v);
    if v !in vars {
      NeedsRound(vars, body, c.(yieldLive := yieldLive), v);
      assert c.(yieldLive := yieldLive).(head := {}) == c.(yieldLive := yieldLive, head := {});
    }
  }

  // ---------- statements ----------

  lemma NeedsLet(stmt: Stmt, after: set<VarId>, c: LiveCtx, v: VarId)
    requires stmt.Let?
    ensures NeedsStmt(stmt, v, after, c) <==> v in UsesAll(stmt.args) || NeedsBack(stmt, v, after, c)
  {
    var before := ReadsOf(stmt.args);
    FirstReads(stmt.args, v);
    if NeedsStmt(stmt, v, after, c) {
      var t, x :| PathStmt(stmt, t, x) && Wants(t, x, v, after, c);
      var back :| t == before + back && PathBack(stmt, back, x);
      FirstConcat(before, back, v);
      assert v !in UsesAll(stmt.args) ==> Wants(back, x, v, after, c);
    }
    forall back, x | PathBack(stmt, back, x) && (v in UsesAll(stmt.args) || Wants(back, x, v, after, c)) ensures NeedsStmt(stmt, v, after, c) {
      FirstConcat(before, back, v);
      assert PathStmt(stmt, before + back, x) && Wants(before + back, x, v, after, c);
    }
    assert PathBack(stmt, WritesOpt(stmt.dst), Falls);
  }

  lemma NeedsOn(stmt: Stmt, after: set<VarId>, c: LiveCtx, v: VarId)
    requires stmt.Let?
    ensures NeedsBack(stmt, v, after, c) <==>
            || v in after - Defined(stmt.dst)
            || (stmt.onDefect.Landing? && NeedsSeq(stmt.onDefect.body, v, c))
            || (stmt.onFail.Handle? && v != stmt.onFail.error && NeedsSeq(stmt.onFail.body, v, c))
  {
    FirstWritesOpt(stmt.dst, v);
    if NeedsBack(stmt, v, after, c) {
      var t, x :| PathBack(stmt, t, x) && Wants(t, x, v, after, c);
      if stmt.onFail.Handle? {
        forall w | t == [Writes(stmt.onFail.error)] + w && PathSeq(stmt.onFail.body, w, x)
          ensures v != stmt.onFail.error && Wants(w, x, v, {}, c)
        {
          FirstOne(Writes(stmt.onFail.error), v);
          FirstConcat([Writes(stmt.onFail.error)], w, v);
        }
      }
      assert stmt.onDefect.Landing? && PathSeq(stmt.onDefect.body, t, x) ==> Wants(t, x, v, {}, c);
    }
    assert PathBack(stmt, WritesOpt(stmt.dst), Falls);
    assert v in after - Defined(stmt.dst) ==> Wants(WritesOpt(stmt.dst), Falls, v, after, c);
    if stmt.onDefect.Landing? && NeedsSeq(stmt.onDefect.body, v, c) {
      var t, x :| PathSeq(stmt.onDefect.body, t, x) && Wants(t, x, v, {}, c);
      assert PathBack(stmt, t, x) && Wants(t, x, v, after, c);
    }
    if stmt.onFail.Handle? && v != stmt.onFail.error && NeedsSeq(stmt.onFail.body, v, c) {
      var w, x :| PathSeq(stmt.onFail.body, w, x) && Wants(w, x, v, {}, c);
      var t := [Writes(stmt.onFail.error)] + w;
      FirstOne(Writes(stmt.onFail.error), v);
      FirstConcat([Writes(stmt.onFail.error)], w, v);
      assert PathBack(stmt, t, x) && Wants(t, x, v, after, c);
    }
  }

  /** What a suspension has to save besides borrowed arguments: exactly what is needed once the value is
      back, on any way on. */
  lemma LiveOnExactly(stmt: Stmt, after: set<VarId>, c: LiveCtx, v: VarId)
    requires stmt.Let?
    ensures v in LiveOn(stmt, after, c) <==> NeedsBack(stmt, v, after, c)
    decreases stmt, 0
  {
    NeedsOn(stmt, after, c, v);
    if stmt.onDefect.Landing? {
      LiveExactly(stmt.onDefect.body, c, v);
    }
    if stmt.onFail.Handle? {
      LiveExactly(stmt.onFail.body, c, v);
    }
  }

  lemma {:induction false} LiveStmtExactly(stmt: Stmt, after: set<VarId>, c: LiveCtx, v: VarId)
    ensures v in LiveStmt(stmt, after, c) <==> NeedsStmt(stmt, v, after, c)
    decreases stmt, 1
  {
    match stmt
    case Let(_, _, args, _, _, _) =>
      NeedsLet(stmt, after, c, v);
      LiveOnExactly(stmt, after, c, v);
    case If(_, dst, _, whenTrue, whenFalse) =>
      NeedsIf(stmt, after, c, v);
      LiveExactly(whenTrue, c.(yieldLive := after - Defined(dst)), v);
      LiveExactly(whenFalse, c.(yieldLive := after - Defined(dst)), v);
    case Switch(_, dst, _, cases) =>
      NeedsSwitch(stmt, after, c, v);
      LiveCasesExactly(cases, c.(yieldLive := after - Defined(dst)), v);
    case Loop(_, dst, vars, _, body) =>
      NeedsLoopStmt(stmt, after, c, v);
      LoopHeadExactly(vars, body, after - Defined(dst), c, v);
    case Block(_, dst, target, body) =>
      var a := after - Defined(dst);
      NeedsBlock(stmt, after, c, v);
      LiveExactly(body, c.(yieldLive := a, afterLabel := c.afterLabel[target := a]), v);
    case Count(_, u) =>
      FirstOne(Reads(u), v);
      assert PathStmt(stmt, [Reads(u)], Falls);
      assert v in after + {u} ==> Wants([Reads(u)], Falls, v, after, c);
  }

  lemma {:induction false} LiveCasesExactly(cases: Cases, c: LiveCtx, v: VarId)
    ensures v in LiveCases(cases, c) <==> NeedsCases(cases, v, c)
    decreases cases, 0
  {
    match cases
    case Case(_, body, more) =>
      LiveExactly(body, c, v);
      LiveCasesExactly(more, c, v);
      CaseNeeds(cases, c, v);
    case Default(body) =>
      LiveExactly(body, c, v);
      assert forall t, x :: PathCases(cases, t, x) <==> PathSeq(body, t, x);
    case NoDefault =>
      assert forall t, x :: PathCases(cases, t, x) ==> !Wants(t, x, v, {}, c);
  }

  lemma CaseNeeds(cases: Cases, c: LiveCtx, v: VarId)
    requires cases.Case?
    ensures NeedsCases(cases, v, c) <==> NeedsSeq(cases.body, v, c) || NeedsCases(cases.more, v, c)
  {
    assert forall t, x :: PathCases(cases, t, x) <==> PathSeq(cases.body, t, x) || PathCases(cases.more, t, x);
  }

  /** The loop of the analysis: it stops after at most two rounds, at that stable set. */
  method HeadFixpoint(vars: seq<VarId>, body: Seq, yieldLive: set<VarId>, c: LiveCtx) returns (head: set<VarId>)
    ensures head == LoopHead(vars, body, yieldLive, c)
    ensures forall v :: v in head <==> v !in vars && NeedsLoop(vars, body, v, c.(yieldLive := yieldLive))
  {
    forall v ensures v in LoopHead(vars, body, yieldLive, c) <==> v !in vars && NeedsLoop(vars, body, v, c.(yieldLive := yieldLive)) {
      LoopHeadExactly(vars, body, yieldLive, c, v);
    }
    head := {};
    ghost var rounds := 2;
    LoopHeadStable(vars, body, yieldLive, c);
    while true
      invariant rounds == 2 ==> head == {}
      invariant rounds < 2 ==> head == LoopHead(vars, body, yieldLive, c)
      invariant rounds >= 1
      decreases rounds
    {
      var live := LiveSeq(body, c.(yieldLive := yieldLive, head := head)) - AllOf(vars);
      if live == head {
        break;
      }
      head := live;
      rounds := rounds - 1;
    }
  }
}
