/** When no enum grows, laying out a type meets finitely many instances. */
module Finiteness {
  import opened Powers
  import opened Types
  import opened Expansion

  // ---------- ranks ----------

  /** Slots with a growing edge whose way on leads to `s`. */
  ghost function Sources(core: Core, edges: set<Edge>, s: Slot): set<Slot> {
    set u | u in Slots(core) && exists e :: e in edges && e.grows && e.source == u && Path(edges, e.target, s)
  }

  ghost function Rank(core: Core, edges: set<Edge>, s: Slot): nat {
    |Sources(core, edges, s)|
  }

  ghost predicate Proper(core: Core, edges: set<Edge>) {
    forall e :: e in edges ==> e.source in Slots(core)
  }

  lemma SubsetCard<T>(a: set<T>, b: set<T>)
    requires a <= b
    ensures |a| <= |b|
  {
    if a != b {
      SmallerSet(a, b);
    }
  }

  /** Ranks never fall along an edge, and rise along a growing one: nothing grows on a cycle. */
  lemma RankRises(core: Core, edges: set<Edge>, e: Edge)
    requires e in edges && Proper(core, edges) && forall d :: !GrowsBack(edges, d)
    ensures Rank(core, edges, e.source) + (if e.grows then 1 else 0) <= Rank(core, edges, e.target)
  {
    var a, b := Sources(core, edges, e.source), Sources(core, edges, e.target);
    forall u | u in a ensures u in b {
      var f :| f in edges && f.grows && f.source == u && Path(edges, f.target, e.source);
      PathEnd(edges, f.target, e);
    }
    if e.grows {
      assert PathIn(edges, 0, e.target, e.target);
      assert Path(edges, e.target, e.target);
      assert e.source in b;
      if e.source in a {
        assert GrowsBack(edges, e.source.owner);
      }
      SubsetCard(a + {e.source}, b);
    } else {
      SubsetCard(a, b);
    }
  }

  // ---------- what the traversal of a type meets ----------

  /** `u` is an application the traversal of `t` meets. */
  ghost predicate Within(t: Type, u: Type, exposed: set<Slot>)
    decreases t
  {
    (t.Enum? && u == t) || exists i :: 0 <= i < |Parts(t)| && Follows(t, i, exposed) && Within(Parts(t)[i], u, exposed)
  }

  /** A followed part of the traversal. */
  lemma WithinPart(t: Type, i: nat, u: Type, exposed: set<Slot>)
    requires i < |Parts(t)| && Follows(t, i, exposed) && Within(Parts(t)[i], u, exposed)
    ensures Within(t, u, exposed)
  {
  }

  lemma {:induction false} WithinTransitive(t: Type, u: Type, v: Type, exposed: set<Slot>)
    requires Within(t, u, exposed) && Within(u, v, exposed)
    ensures Within(t, v, exposed)
    decreases t
  {
    if !(t.Enum? && u == t) {
      var i :| 0 <= i < |Parts(t)| && Follows(t, i, exposed) && Within(Parts(t)[i], u, exposed);
      WithinTransitive(Parts(t)[i], u, v, exposed);
    }
  }

  lemma {:induction false} DirectWithin(t: Type, u: Type, exposed: set<Slot>)
    requires Direct(t, u)
    ensures u.Enum? && Within(t, u, exposed)
    decreases t
  {
    if !t.Enum? {
      var p :| p in Parts(t) && Direct(p, u);
      DirectWithin(p, u, exposed);
      var i :| 0 <= i < |Parts(t)| && Parts(t)[i] == p;
      WithinPart(t, i, u, exposed);
    }
  }

  /** Parts met in a substituted type: an application of the type itself, substituted, or something in
      the argument given for an exposed parameter. */
  lemma {:induction false} WithinSubst(t: Type, args: seq<Type>, u: Type, exposed: set<Slot>)
    requires Within(Subst(t, args), u, exposed)
    ensures (exists a :: Within(t, a, exposed) && a.Enum? && u == Subst(a, args)) ||
            (exists q: nat :: q in ExposedParameters(t, exposed) && q < |args| && Within(args[q], u, exposed))
    decreases t
  {
    if t.Param? {
      if t.index < |args| {
        assert t.index in ExposedParameters(t, exposed);
      }
    } else {
      SubstParts(t, args);
      var s := Subst(t, args);
      if s.Enum? && u == s {
        assert Within(t, t, exposed);
      } else {
        var i :| 0 <= i < |Parts(s)| && Follows(s, i, exposed) && Within(Parts(s)[i], u, exposed);
        WithinSubst(Parts(t)[i], args, u, exposed);
        if a :| Within(Parts(t)[i], a, exposed) && a.Enum? && u == Subst(a, args) {
          WithinPart(t, i, a, exposed);
        } else {
          ExposedPart(t, 0, i, exposed);
        }
      }
    }
  }

  lemma {:induction false} ExposedPart(t: Type, i: nat, j: nat, exposed: set<Slot>)
    requires i <= j < |Parts(t)| && Follows(t, j, exposed)
    ensures ExposedParameters(Parts(t)[j], exposed) <= ExposedFrom(t, i, exposed)
    decreases j - i
  {
    if i < j {
      ExposedPart(t, i + 1, j, exposed);
    }
  }

  /** The edges of an application that is met are collected. */
  lemma {:induction false} OwnEdgesIn(core: Core, t: Type, u: Type, owner: EnumId, exposed: set<Slot>)
    requires Within(t, u, exposed) && u.Enum?
    ensures OwnEdges(core, u, owner) <= Applications(core, t, owner, exposed)
    decreases t
  {
    if !(t.Enum? && u == t) {
      var i :| 0 <= i < |Parts(t)| && Follows(t, i, exposed) && Within(Parts(t)[i], u, exposed);
      OwnEdgesIn(core, Parts(t)[i], u, owner, exposed);
      ApplicationsPart(core, t, 0, i, owner, exposed);
    }
  }

  lemma {:induction false} ApplicationsPart(core: Core, t: Type, i: nat, j: nat, owner: EnumId, exposed: set<Slot>)
    requires i <= j < |Parts(t)| && Follows(t, j, exposed)
    ensures Applications(core, Parts(t)[j], owner, exposed) <= ApplicationsFrom(core, t, i, owner, exposed)
    decreases j - i
  {
    if i < j {
      ApplicationsPart(core, t, i + 1, j, owner, exposed);
    }
  }

  // ---------- sizes of substituted types ----------

  lemma {:induction false} SizeSubst(t: Type, args: seq<Type>, bound: nat)
    requires bound >= 1
    requires forall o :: o in Occurrences(t, true) && o.index < |args| ==> Size(args[o.index]) <= bound
    ensures Size(Subst(t, args)) <= Times(Size(t), bound)
    decreases t, |Parts(t)| + 1
  {
    if t.Param? {
      assert Occurrence(t.index, true) in Occurrences(t, true);
    } else {
      SizeSubstFrom(t, args, 0, bound);
      SumBelow(Size(Subst(t, args)), 1, SizeFrom(Subst(t, args), 0), Size(t), 1, SizeFrom(t, 0), bound);
    }
  }

  lemma {:induction false} SizeSubstFrom(t: Type, args: seq<Type>, i: nat, bound: nat)
    requires bound >= 1 && !t.Param? && i <= |Parts(t)| && |Parts(Subst(t, args))| == |Parts(t)|
    requires forall o :: o in OccurrencesFrom(t, i) && o.index < |args| ==> Size(args[o.index]) <= bound
    ensures SizeFrom(Subst(t, args), i) <= Times(SizeFrom(t, i), bound)
    decreases t, |Parts(t)| - i
  {
    if i < |Parts(t)| {
      SubstPart(t, args, i);
      PartNext(t, i);
      PartNext(Subst(t, args), i);
      hide *;
      SizeSubst(Parts(t)[i], args, bound);
      SizeSubstFrom(t, args, i + 1, bound);
      SumBelow(SizeFrom(Subst(t, args), i), Size(Subst(Parts(t)[i], args)), SizeFrom(Subst(t, args), i + 1),
               SizeFrom(t, i), Size(Parts(t)[i]), SizeFrom(t, i + 1), bound);
    } else {
      MulSign(SizeFrom(t, i), bound);
    }
  }

  lemma SubstPart(t: Type, args: seq<Type>, i: nat)
    requires !t.Param? && i < |Parts(t)|
    ensures |Parts(Subst(t, args))| == |Parts(t)| && Parts(Subst(t, args))[i] == Subst(Parts(t)[i], args)
  {
    SubstParts(t, args);
  }

  lemma PartNext(t: Type, i: nat)
    requires i < |Parts(t)|
    ensures SizeFrom(t, i) == Size(Parts(t)[i]) + SizeFrom(t, i + 1)
    ensures !t.Param? ==> Occurrences(Parts(t)[i], true) <= OccurrencesFrom(t, i) && OccurrencesFrom(t, i + 1) <= OccurrencesFrom(t, i)
  {
  }

  function Times(size: nat, bound: nat): nat {
    size * bound
  }

  lemma SumBelow(sum: nat, a: nat, b: nat, total: nat, x: nat, y: nat, bound: nat)
    requires sum == a + b && total == x + y && a <= Times(x, bound) && b <= Times(y, bound)
    ensures sum <= Times(total, bound)
  {
    MulDistribute(x, y, bound);
  }

  // ---------- the bound ----------

  /** Larger than every type in a field. */
  ghost predicate Covers(core: Core, scale: nat) {
    scale >= 1 && forall d, f :: d in core && f in d.fields ==> Size(f) <= scale
  }

  /** How large an argument for `s` can be: a constant times a power of the largest field, with the rank
      as exponent. */
  ghost function Bound(core: Core, edges: set<Edge>, scale: nat, start: nat, s: Slot): nat {
    MulSign(start, Pow(scale, Rank(core, edges, s)));
    start * Pow(scale, Rank(core, edges, s))
  }

  /** The arguments of an application are within the bound. */
  ghost predicate Small(core: Core, edges: set<Edge>, scale: nat, start: nat, u: Type) {
    u.Enum? ==> forall i :: 0 <= i < |u.args| ==> Size(u.args[i]) <= Bound(core, edges, scale, start, Slot(u.id, i))
  }

  /** Everything met in `t` is within the bound. */
  ghost predicate AllSmall(core: Core, edges: set<Edge>, exposed: set<Slot>, scale: nat, start: nat, t: Type) {
    forall u {:trigger Within(t, u, exposed)} :: Within(t, u, exposed) ==> Small(core, edges, scale, start, u)
  }

  /** What the analysis has found, and that nothing grows on a cycle. */
  ghost predicate Bounded(core: Core, exposed: set<Slot>, edges: set<Edge>, scale: nat, start: nat) {
    && WfCore(core) && Closed(core, exposed) && edges == EdgesFrom(core, 0, exposed) && Proper(core, edges)
    && (forall d :: !GrowsBack(edges, d)) && Covers(core, scale) && start >= scale
  }

  lemma PowGrows(scale: nat, start: nat, m: nat, n: nat)
    requires scale >= 1 && m <= n
    ensures start <= start * Pow(scale, n) && start * Pow(scale, m) <= start * Pow(scale, n)
  {
    hide Pow;
    PowMonotone(scale, m, n);
    MulMonotone(Pow(scale, m), Pow(scale, n), start);
    MulMonotone(1, Pow(scale, n), start);
  }

  /** One argument of a substituted application. */
  lemma ArgumentSmall(core: Core, exposed: set<Slot>, edges: set<Edge>, scale: nat, start: nat, t: Type, f: Type, a: Type, i: nat)
    requires Bounded(core, exposed, edges, scale, start)
    requires t.Enum? && Wf(core, t, 0) && Small(core, edges, scale, start, t) && f in core[t.id].fields
    requires Within(f, a, exposed) && a.Enum? && i < |a.args| && Wf(core, a, core[t.id].params) && Size(a.args[i]) <= scale
    ensures Size(Subst(a.args[i], t.args)) <= Bound(core, edges, scale, start, Slot(a.id, i))
  {
    hide Pow, Size, Rank, GrowsBack, Path, OccurrencesFrom, Closed, WfCore;
    var arg, target := a.args[i], Slot(a.id, i);
    OwnEdgesIn(core, f, a, t.id, exposed);
    EdgesIn(core, 0, t.id, f, exposed);
    assert arg in Parts(a);
    if arg.Param? {
      var e := Edge(Slot(t.id, arg.index), target, false);
      assert Occurrence(arg.index, false) in Occurrences(arg, false);
      assert e in OwnEdges(core, a, t.id);
      RankRises(core, edges, e);
      PowGrows(scale, start, Rank(core, edges, e.source), Rank(core, edges, target));
    } else {
      GrowingArgument(core, exposed, edges, scale, start, t, f, a, i);
    }
  }

  /** What is given for a parameter that grows is a step smaller. */
  lemma GivenSmall(core: Core, edges: set<Edge>, scale: nat, start: nat, t: Type, e: Edge)
    requires e in edges && e.grows && Proper(core, edges) && (forall d :: !GrowsBack(edges, d)) && scale >= 1
    requires t.Enum? && t.id == e.source.owner && e.source.index < |t.args| && Small(core, edges, scale, start, t)
    ensures Rank(core, edges, e.target) >= 1
    ensures Size(t.args[e.source.index]) <= start * Pow(scale, Rank(core, edges, e.target) - 1)
  {
    hide Pow, Size, Rank, GrowsBack, Proper;
    RankRises(core, edges, e);
    PowGrows(scale, start, Rank(core, edges, e.source), Rank(core, edges, e.target) - 1);
  }

  lemma GrowingArgument(core: Core, exposed: set<Slot>, edges: set<Edge>, scale: nat, start: nat, t: Type, f: Type, a: Type, i: nat)
    requires Bounded(core, exposed, edges, scale, start)
    requires t.Enum? && Wf(core, t, 0) && Small(core, edges, scale, start, t) && f in core[t.id].fields
    requires a.Enum? && i < |a.args| && !a.args[i].Param? && Wf(core, a, core[t.id].params) && Size(a.args[i]) <= scale
    requires OwnEdges(core, a, t.id) <= edges
    ensures Size(Subst(a.args[i], t.args)) <= Bound(core, edges, scale, start, Slot(a.id, i))
  {
    var arg := a.args[i];
    var rank := Rank(core, edges, Slot(a.id, i));
    GrowingSources(core, exposed, edges, scale, start, t, f, a, i);
    OccurrencesBelow(core, arg, core[t.id].params);
    assert |t.args| == core[t.id].params && scale >= 1 && start >= scale;
    hide *;
    if Occurrences(arg, true) == {} {
      SizeSubst(arg, t.args, 1);
      PowGrows(scale, start, 0, rank);
    } else {
      var o :| o in Occurrences(arg, true);
      BoundPositive(scale, start, rank - 1);
      SizeSubst(arg, t.args, start * Pow(scale, rank - 1));
      BoundStep(Size(Subst(arg, t.args)), Size(arg), scale, start, rank);
    }
    BoundIs(core, edges, scale, start, Slot(a.id, i));
  }

  lemma BoundPositive(scale: nat, start: nat, n: nat)
    requires scale >= 1 && start >= 1
    ensures start * Pow(scale, n) >= 1
  {
    hide Pow;
    PowGrows(scale, start, 0, n);
  }

  lemma BoundStep(size: nat, factor: nat, scale: nat, start: nat, rank: nat)
    requires rank >= 1 && factor <= scale && size <= Times(factor, start * Pow(scale, rank - 1))
    ensures size <= start * Pow(scale, rank)
  {
    hide Pow;
    MulMonotone(factor, scale, start * Pow(scale, rank - 1));
    PowNext(start, scale, rank - 1);
  }

  lemma BoundIs(core: Core, edges: set<Edge>, scale: nat, start: nat, s: Slot)
    ensures Bound(core, edges, scale, start, s) == start * Pow(scale, Rank(core, edges, s))
  {
  }

  /** Every parameter that occurs in an argument that is more than a parameter is given something a step
      smaller than that argument's bound. */
  lemma GrowingSources(core: Core, exposed: set<Slot>, edges: set<Edge>, scale: nat, start: nat, t: Type, f: Type, a: Type, i: nat)
    requires Bounded(core, exposed, edges, scale, start)
    requires t.Enum? && Wf(core, t, 0) && Small(core, edges, scale, start, t) && f in core[t.id].fields
    requires a.Enum? && i < |a.args| && !a.args[i].Param? && Wf(core, a, core[t.id].params)
    requires OwnEdges(core, a, t.id) <= edges
    ensures var rank := Rank(core, edges, Slot(a.id, i));
            forall o :: o in Occurrences(a.args[i], true) && o.index < |t.args| ==> rank >= 1 && Size(t.args[o.index]) <= start * Pow(scale, rank - 1)
  {
    hide Pow, Size, Rank, GrowsBack, Path, Closed, WfCore, Small, OccurrencesFrom;
    var arg, target := a.args[i], Slot(a.id, i);
    var rank := Rank(core, edges, target);
    assert Occurrences(arg, false) == Occurrences(arg, true) == OccurrencesFrom(arg, 0);
    forall o | o in Occurrences(arg, true) && o.index < |t.args|
      ensures rank >= 1 && Size(t.args[o.index]) <= start * Pow(scale, rank - 1)
    {
      OccurrencesWrapped(arg, 0, o);
      GivenSmall(core, edges, scale, start, t, Edge(Slot(t.id, o.index), target, true));
    }
  }

  lemma OccurrencesBelow(core: Core, t: Type, params: nat)
    requires Wf(core, t, params)
    ensures forall o :: o in Occurrences(t, true) ==> o.index < params
  {
    forall o | o in Occurrences(t, true) ensures o.index < params {
      OccurrenceBelow(core, t, params, o);
    }
  }

  lemma {:induction false} OccurrencesWrapped(t: Type, i: nat, o: Occurrence)
    requires i <= |Parts(t)| && o in OccurrencesFrom(t, i)
    ensures o.wrapped
    decreases t, |Parts(t)| - i
  {
    if o in Occurrences(Parts(t)[i], true) {
      if !Parts(t)[i].Param? {
        OccurrencesWrapped(Parts(t)[i], 0, o);
      }
    } else {
      OccurrencesWrapped(t, i + 1, o);
    }
  }

  lemma {:induction false} OccurrenceBelow(core: Core, t: Type, params: nat, o: Occurrence)
    requires Wf(core, t, params) && o in Occurrences(t, true)
    ensures o.index < params
    decreases t, |Parts(t)| + 1
  {
    if !t.Param? {
      OccurrenceFromBelow(core, t, 0, params, o);
    }
  }

  lemma {:induction false} OccurrenceFromBelow(core: Core, t: Type, i: nat, params: nat, o: Occurrence)
    requires Wf(core, t, params) && i <= |Parts(t)| && o in OccurrencesFrom(t, i)
    ensures o.index < params
    decreases t, |Parts(t)| - i
  {
    if o in Occurrences(Parts(t)[i], true) {
      OccurrenceBelow(core, Parts(t)[i], params, o);
    } else {
      OccurrenceFromBelow(core, t, i + 1, params, o);
    }
  }

  lemma {:induction false} WithinWf(core: Core, t: Type, params: nat, u: Type, exposed: set<Slot>)
    requires Wf(core, t, params) && Within(t, u, exposed)
    ensures Wf(core, u, params) && Size(u) <= Size(t)
    decreases t
  {
    if !(t.Enum? && u == t) {
      var i :| 0 <= i < |Parts(t)| && Follows(t, i, exposed) && Within(Parts(t)[i], u, exposed);
      WithinWf(core, Parts(t)[i], params, u, exposed);
      PartSmaller(t, 0, i);
    }
  }

  /** From an instance within the bound, its fields lead to such instances only. */
  lemma FieldsSmall(core: Core, exposed: set<Slot>, edges: set<Edge>, scale: nat, start: nat, t: Type, u: Type)
    requires Bounded(core, exposed, edges, scale, start)
    requires Wf(core, t, 0) && AllSmall(core, edges, exposed, scale, start, t) && InField(core, t, u)
    ensures u.Enum? && Wf(core, u, 0) && AllSmall(core, edges, exposed, scale, start, u)
  {
    hide Size, Bound, GrowsBack, Path, Covers, Small;
    var f :| f in core[t.id].fields && Direct(Subst(f, t.args), u);
    assert core[t.id] in core;
    var s := Subst(f, t.args);
    DirectWithin(s, u, exposed);
    assert forall b :: b in t.args ==> b in Parts(t);
    SubstWf(core, f, core[t.id].params, t.args);
    WithinWf(core, s, 0, u, exposed);
    forall v {:trigger Within(u, v, exposed)} | Within(u, v, exposed) ensures Small(core, edges, scale, start, v) {
      WithinTransitive(s, u, v, exposed);
      MetSmall(core, exposed, edges, scale, start, t, f, v);
    }
  }

  lemma MetSmall(core: Core, exposed: set<Slot>, edges: set<Edge>, scale: nat, start: nat, t: Type, f: Type, v: Type)
    requires Bounded(core, exposed, edges, scale, start)
    requires t.Enum? && Wf(core, t, 0) && AllSmall(core, edges, exposed, scale, start, t)
    requires f in core[t.id].fields && Wf(core, f, core[t.id].params) && Within(Subst(f, t.args), v, exposed)
    ensures Small(core, edges, scale, start, v)
  {
    hide Size, Bound, GrowsBack, Path, Occurrences;
    WithinSubst(f, t.args, v, exposed);
    if a :| Within(f, a, exposed) && a.Enum? && v == Subst(a, t.args) {
      WithinWf(core, f, core[t.id].params, a, exposed);
      assert core[t.id] in core;
      assert Within(t, t, exposed);
      SubstParts(a, t.args);
      forall i | 0 <= i < |v.args| ensures Size(v.args[i]) <= Bound(core, edges, scale, start, Slot(v.id, i)) {
        PartBelow(a, i);
        assert Parts(v)[i] == Subst(a.args[i], t.args);
        ArgumentSmall(core, exposed, edges, scale, start, t, f, a, i);
      }
    } else {
      var q: nat :| q in ExposedParameters(f, exposed) && q < |t.args| && Within(t.args[q], v, exposed);
      assert Slot(t.id, q) in exposed;
      WithinPart(t, q, v, exposed);
    }
  }

  lemma PartBelow(t: Type, i: nat)
    requires i < |Parts(t)|
    ensures Size(Parts(t)[i]) < Size(t)
  {
    PartSmaller(t, 0, i);
  }

  // ---------- finitely many ----------

  lemma {:induction false} VisitedSmall(core: Core, exposed: set<Slot>, edges: set<Edge>, scale: nat, start: nat, t: Type, n: nat, u: Type)
    requires Bounded(core, exposed, edges, scale, start)
    requires Wf(core, t, 0) && AllSmall(core, edges, exposed, scale, start, t) && Visited(core, t, n, u)
    ensures u.Enum? && Wf(core, u, 0) && AllSmall(core, edges, exposed, scale, start, u)
    decreases n
  {
    hide Bounded, Small, Bound, Size;
    if n == 0 {
      DirectWithin(t, u, exposed);
      WithinWf(core, t, 0, u, exposed);
      forall v {:trigger Within(u, v, exposed)} | Within(u, v, exposed) ensures Small(core, edges, scale, start, v) {
        WithinTransitive(t, u, v, exposed);
      }
    } else {
      var m :| Visited(core, t, n - 1, m) && InField(core, m, u);
      VisitedSmall(core, exposed, edges, scale, start, t, n - 1, m);
      FieldsSmall(core, exposed, edges, scale, start, m, u);
    }
  }

  /** Tags that occur. */
  function Tags(t: Type): set<nat>
    decreases t, |Parts(t)| + 1
  {
    (if t.Plain? then {t.tag} else {}) + TagsFrom(t, 0)
  }

  function TagsFrom(t: Type, i: nat): set<nat>
    requires i <= |Parts(t)|
    decreases t, |Parts(t)| - i
  {
    if i == |Parts(t)| then {} else Tags(Parts(t)[i]) + TagsFrom(t, i + 1)
  }

  lemma {:induction false} TagsPart(t: Type, i: nat, j: nat)
    requires i <= j < |Parts(t)|
    ensures Tags(Parts(t)[j]) <= TagsFrom(t, i)
    decreases j - i
  {
    if i < j {
      TagsPart(t, i + 1, j);
    }
  }

  lemma {:induction false} TagsAll(t: Type, i: nat, tags: set<nat>)
    requires i <= |Parts(t)| && forall p :: p in Parts(t) ==> Tags(p) <= tags
    ensures TagsFrom(t, i) <= tags
    decreases |Parts(t)| - i
  {
    if i < |Parts(t)| {
      TagsAll(t, i + 1, tags);
    }
  }

  lemma {:induction false} TagsSubst(t: Type, args: seq<Type>, tags: set<nat>)
    requires Tags(t) <= tags && forall a :: a in args ==> Tags(a) <= tags
    ensures Tags(Subst(t, args)) <= tags
    decreases t
  {
    if !t.Param? {
      SubstParts(t, args);
      var s := Subst(t, args);
      forall p | p in Parts(s) ensures Tags(p) <= tags {
        var i :| 0 <= i < |Parts(s)| && Parts(s)[i] == p;
        TagsPart(t, 0, i);
        TagsSubst(Parts(t)[i], args, tags);
      }
      TagsAll(s, 0, tags);
    }
  }

  lemma {:induction false} TagsDirect(t: Type, u: Type)
    requires Direct(t, u)
    ensures Tags(u) <= Tags(t)
    decreases t
  {
    if !t.Enum? {
      var p :| p in Parts(t) && Direct(p, u);
      var i :| 0 <= i < |Parts(t)| && Parts(t)[i] == p;
      TagsDirect(p, u);
      TagsPart(t, 0, i);
    }
  }

  ghost predicate TagsCover(core: Core, tags: set<nat>) {
    forall d, f :: d in core && f in d.fields ==> Tags(f) <= tags
  }

  lemma {:induction false} VisitedTags(core: Core, tags: set<nat>, t: Type, n: nat, u: Type)
    requires TagsCover(core, tags) && Tags(t) <= tags && Visited(core, t, n, u)
    ensures Tags(u) <= tags
    decreases n
  {
    if n == 0 {
      TagsDirect(t, u);
    } else {
      var m :| Visited(core, t, n - 1, m) && InField(core, m, u);
      VisitedTags(core, tags, t, n - 1, m);
      var f :| f in core[m.id].fields && Direct(Subst(f, m.args), u);
      assert core[m.id] in core;
      forall a | a in m.args ensures Tags(a) <= tags {
        var i :| 0 <= i < |Parts(m)| && Parts(m)[i] == a;
        TagsPart(m, 0, i);
      }
      TagsSubst(f, m.args, tags);
      TagsDirect(Subst(f, m.args), u);
    }
  }

  /** All lists of at most `k` types from `all`. */
  function ListsOver(k: nat, all: set<Type>): set<seq<Type>> {
    if k == 0 then {[]} else {[]} + set t, l | t in all && l in ListsOver(k - 1, all) :: [t] + l
  }

  lemma {:induction false} InLists(l: seq<Type>, k: nat, all: set<Type>)
    requires |l| <= k && forall t :: t in l ==> t in all
    ensures l in ListsOver(k, all)
    decreases k
  {
    if l != [] {
      InLists(l[1..], k - 1, all);
      assert l == [l[0]] + l[1..];
    }
  }

  /** All closed types of at most `n` nodes over the given symbols. */
  function Universe(n: nat, enums: nat, tags: set<nat>): set<Type> {
    if n == 0 then {}
    else
      var smaller := Universe(n - 1, enums, tags);
      var lists := ListsOver(n - 1, smaller);
      (set k | k in tags :: Plain(k)) + (set l | l in lists :: Tuple(l)) + (set l | l in lists :: Fn(l)) +
      (set t | t in smaller :: List(t)) + (set t | t in smaller :: Cell(t)) + set d, l | 0 <= d < enums && l in lists :: Enum(d, l)
  }

  lemma {:induction false} FewParts(t: Type, i: nat)
    requires i <= |Parts(t)|
    ensures |Parts(t)| - i <= SizeFrom(t, i)
    decreases |Parts(t)| - i
  {
    if i < |Parts(t)| {
      FewParts(t, i + 1);
    }
  }

  lemma {:induction false} InUniverse(core: Core, t: Type, n: nat, tags: set<nat>)
    requires Wf(core, t, 0) && Size(t) <= n && Tags(t) <= tags
    ensures t in Universe(n, |core|, tags)
    decreases n
  {
    hide ListsOver, Universe;
    var smaller := Universe(n - 1, |core|, tags);
    forall p | p in Parts(t) ensures p in smaller {
      var i :| 0 <= i < |Parts(t)| && Parts(t)[i] == p;
      PartSmaller(t, 0, i);
      TagsPart(t, 0, i);
      InUniverse(core, p, n - 1, tags);
    }
    FewParts(t, 0);
    InLists(Parts(t), n - 1, smaller);
    Composed(t, n, |core|, tags);
  }

  lemma Composed(t: Type, n: nat, enums: nat, tags: set<nat>)
    requires n > 0 && !t.Param? && (t.Enum? ==> t.id < enums) && (t.Plain? ==> t.tag in tags)
    requires var smaller := Universe(n - 1, enums, tags);
             (forall p :: p in Parts(t) ==> p in smaller) && Parts(t) in ListsOver(n - 1, smaller)
    ensures t in Universe(n, enums, tags)
  {
    hide ListsOver;
    match t
    case List(e) => assert e in Parts(t);
    case Cell(e) => assert e in Parts(t);
    case _ =>
  }

  lemma {:induction false} SizeAtMost(t: Type, i: nat, bound: nat)
    requires i <= |Parts(t)| && forall p :: p in Parts(t) ==> Size(p) <= bound
    ensures SizeFrom(t, i) <= (|Parts(t)| - i) * bound
    decreases |Parts(t)| - i
  {
    if i < |Parts(t)| {
      assert Parts(t)[i] in Parts(t);
      SizeAtMost(t, i + 1, bound);
      MulDistribute(1, |Parts(t)| - i - 1, bound);
    } else {
      MulSign(0, bound);
    }
  }

  // ---------- the theorem ----------

  /** An edge comes from an application that is met in a field. */
  lemma {:induction false} ApplicationsCome(core: Core, t: Type, owner: EnumId, e: Edge, exposed: set<Slot>) returns (a: Type)
    requires e in Applications(core, t, owner, exposed)
    ensures a.Enum? && Within(t, a, exposed) && e in OwnEdges(core, a, owner)
    decreases t, |Parts(t)| + 1
  {
    if e in OwnEdges(core, t, owner) {
      a := t;
    } else {
      var i;
      i, a := ApplicationsFromCome(core, t, 0, owner, e, exposed);
      WithinPart(t, i, a, exposed);
    }
  }

  lemma {:induction false} ApplicationsFromCome(core: Core, t: Type, i: nat, owner: EnumId, e: Edge, exposed: set<Slot>) returns (j: nat, a: Type)
    requires i <= |Parts(t)| && e in ApplicationsFrom(core, t, i, owner, exposed)
    ensures j < |Parts(t)| && Follows(t, j, exposed) && a.Enum? && Within(Parts(t)[j], a, exposed) && e in OwnEdges(core, a, owner)
    decreases t, |Parts(t)| - i
  {
    if Follows(t, i, exposed) && e in Applications(core, Parts(t)[i], owner, exposed) {
      j := i;
      a := ApplicationsCome(core, Parts(t)[i], owner, e, exposed);
    } else {
      j, a := ApplicationsFromCome(core, t, i + 1, owner, e, exposed);
    }
  }

  lemma EdgesProper(core: Core, exposed: set<Slot>)
    ensures Proper(core, EdgesFrom(core, 0, exposed))
  {
    forall e | e in EdgesFrom(core, 0, exposed) ensures e.source in Slots(core) {
      var d, f := EdgesCome(core, 0, e, exposed);
      var a := ApplicationsCome(core, f, d, e, exposed);
    }
  }

  function FieldsSize(fields: seq<Type>): nat {
    if fields == [] then 0 else Size(fields[0]) + FieldsSize(fields[1..])
  }

  function CoreSize(core: Core): nat {
    if core == [] then 1 else FieldsSize(core[0].fields) + CoreSize(core[1..])
  }

  lemma {:induction false} FieldFits(fields: seq<Type>, f: Type)
    requires f in fields
    ensures Size(f) <= FieldsSize(fields)
    decreases |fields|
  {
    if f != fields[0] {
      FieldFits(fields[1..], f);
    }
  }

  lemma {:induction false} DefinitionFits(core: Core, d: Definition, f: Type)
    requires d in core && f in d.fields
    ensures Size(f) <= CoreSize(core)
    decreases |core|
  {
    if d == core[0] {
      FieldFits(d.fields, f);
    } else {
      DefinitionFits(core[1..], d, f);
    }
  }

  lemma {:induction false} CoreCovers(core: Core)
    ensures Covers(core, CoreSize(core))
  {
    CoreSizePositive(core);
    forall d, f | d in core && f in d.fields ensures Size(f) <= CoreSize(core) {
      DefinitionFits(core, d, f);
    }
  }

  lemma {:induction false} CoreSizePositive(core: Core)
    ensures CoreSize(core) >= 1
    decreases |core|
  {
    if core != [] {
      CoreSizePositive(core[1..]);
    }
  }

  function FieldsTags(fields: seq<Type>): set<nat> {
    if fields == [] then {} else Tags(fields[0]) + FieldsTags(fields[1..])
  }

  function CoreTags(core: Core): set<nat> {
    if core == [] then {} else FieldsTags(core[0].fields) + CoreTags(core[1..])
  }

  lemma {:induction false} FieldTagged(fields: seq<Type>, f: Type)
    requires f in fields
    ensures Tags(f) <= FieldsTags(fields)
    decreases |fields|
  {
    if f != fields[0] {
      FieldTagged(fields[1..], f);
    }
  }

  lemma {:induction false} DefinitionTagged(core: Core, d: Definition, f: Type)
    requires d in core && f in d.fields
    ensures Tags(f) <= CoreTags(core)
    decreases |core|
  {
    if d == core[0] {
      FieldTagged(d.fields, f);
    } else {
      DefinitionTagged(core[1..], d, f);
    }
  }

  function MostParams(core: Core): nat {
    if core == [] then 0 else core[0].params + MostParams(core[1..])
  }

  lemma {:induction false} ParamsFit(core: Core, d: nat)
    requires d < |core|
    ensures core[d].params <= MostParams(core)
    decreases d
  {
    if d > 0 {
      ParamsFit(core[1..], d - 1);
    }
  }

  lemma StartSmall(core: Core, exposed: set<Slot>, edges: set<Edge>, scale: nat, start: nat, t: Type)
    requires Wf(core, t, 0) && Size(t) <= start && scale >= 1
    ensures AllSmall(core, edges, exposed, scale, start, t)
  {
    hide Rank, Size, Pow;
    forall u {:trigger Within(t, u, exposed)} | Within(t, u, exposed) ensures Small(core, edges, scale, start, u) {
      WithinWf(core, t, 0, u, exposed);
      if u.Enum? {
        forall i | 0 <= i < |u.args| ensures Size(u.args[i]) <= Bound(core, edges, scale, start, Slot(u.id, i)) {
          PartBelow(u, i);
          PowGrows(scale, start, 0, Rank(core, edges, Slot(u.id, i)));
        }
      }
    }
  }

  /** The largest instance. */
  lemma InstanceSize(core: Core, edges: set<Edge>, scale: nat, start: nat, u: Type)
    requires u.Enum? && Wf(core, u, 0) && Small(core, edges, scale, start, u) && scale >= 1
    ensures Size(u) <= 1 + MostParams(core) * (start * Pow(scale, |Slots(core)|))
  {
    hide Pow, Sources, SizeFrom;
    var most := start * Pow(scale, |Slots(core)|);
    PowPositive(scale, |Slots(core)|);
    MulSign(start, Pow(scale, |Slots(core)|));
    forall p | p in Parts(u) ensures Size(p) <= most {
      var i :| 0 <= i < |Parts(u)| && Parts(u)[i] == p;
      var rank := Rank(core, edges, Slot(u.id, i));
      SourcesWithin(core, edges, Slot(u.id, i));
      PowGrows(scale, start, rank, |Slots(core)|);
    }
    SizeAtMost(u, 0, most);
    ParamsFit(core, u.id);
    MulMonotone(|u.args|, MostParams(core), most);
  }

  lemma SourcesWithin(core: Core, edges: set<Edge>, s: Slot)
    ensures |Sources(core, edges, s)| <= |Slots(core)|
  {
    SubsetCard(Sources(core, edges, s), Slots(core));
  }

  /** If no enum is expanding, laying out any closed type meets finitely many instances. */
  lemma FinitelyMany(core: Core, exposed: set<Slot>, t: Type) returns (all: set<Type>)
    requires WfCore(core) && Closed(core, exposed) && Wf(core, t, 0)
    requires forall d :: !GrowsBack(EdgesFrom(core, 0, exposed), d)
    ensures forall n: nat, u: Type {:trigger Visited(core, t, n, u)} :: Visited(core, t, n, u) ==> u in all
  {
    hide Pow, Size, GrowsBack, Small, Universe, EdgesFrom;
    var edges, scale := EdgesFrom(core, 0, exposed), CoreSize(core);
    var start := scale + Size(t);
    var tags := CoreTags(core) + Tags(t);
    var limit := 1 + MostParams(core) * (start * Pow(scale, |Slots(core)|));
    EdgesProper(core, exposed);
    CoreCovers(core);
    StartSmall(core, exposed, edges, scale, start, t);
    forall d, f | d in core && f in d.fields ensures Tags(f) <= tags {
      DefinitionTagged(core, d, f);
    }
    MulSign(start, Pow(scale, |Slots(core)|));
    MulSign(MostParams(core), start * Pow(scale, |Slots(core)|));
    all := Universe(limit, |core|, tags);
    forall n: nat, u: Type {:trigger Visited(core, t, n, u)} | Visited(core, t, n, u) ensures u in all {
      VisitedSmall(core, exposed, edges, scale, start, t, n, u);
      assert Within(u, u, exposed);
      InstanceSize(core, edges, scale, start, u);
      VisitedTags(core, tags, t, n, u);
      InUniverse(core, u, limit, tags);
    }
  }
}
