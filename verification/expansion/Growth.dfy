/** When an enum is expanding, some type has instances without end: the analysis is exact. */
module Growth {
  import opened Types
  import opened Expansion
  import opened Finiteness

  /** Laying out `start` meets `u`. */
  ghost predicate Met(core: Core, start: Type, u: Type) {
    exists n: nat :: Visited(core, start, n, u)
  }

  /** Laying out `start` meets what `t` has directly. */
  ghost predicate MeetsAll(core: Core, start: Type, t: Type) {
    forall u {:trigger Direct(t, u)} :: Direct(t, u) ==> Met(core, start, u)
  }

  lemma FieldsMet(core: Core, start: Type, t: Type, f: Type)
    requires Met(core, start, t) && t.Enum? && t.id < |core| && f in core[t.id].fields
    ensures MeetsAll(core, start, Subst(f, t.args))
  {
    var n: nat :| Visited(core, start, n, t);
    forall u {:trigger Direct(Subst(f, t.args), u)} | Direct(Subst(f, t.args), u) ensures Met(core, start, u) {
      assert InField(core, t, u);
      assert Visited(core, start, n + 1, u);
    }
  }

  lemma {:induction false} StageCome(core: Core, k: nat, s: Slot) returns (j: nat, f: Type)
    requires s in Stage(core, k)
    ensures j < k && s.owner < |core| && f in core[s.owner].fields && s.index in ExposedParameters(f, Stage(core, j)) && s.index < core[s.owner].params
    decreases k
  {
    if s in Stage(core, k - 1) {
      j, f := StageCome(core, k - 1, s);
    } else {
      j := k - 1;
      f := RoundFrom(core, 0, s, Stage(core, k - 1));
    }
  }

  lemma {:induction false} ExposedFromCome(t: Type, i: nat, q: nat, exposed: set<Slot>) returns (j: nat)
    requires i <= |Parts(t)| && q in ExposedFrom(t, i, exposed)
    ensures j < |Parts(t)| && Follows(t, j, exposed) && q in ExposedParameters(Parts(t)[j], exposed)
    decreases |Parts(t)| - i
  {
    if Follows(t, i, exposed) && q in ExposedParameters(Parts(t)[i], exposed) {
      j := i;
    } else {
      j := ExposedFromCome(t, i + 1, q, exposed);
    }
  }

  lemma DirectPart(t: Type, i: nat, u: Type)
    requires i < |Parts(t)| && !t.Enum? && Direct(Parts(t)[i], u)
    ensures Direct(t, u)
  {
    assert Parts(t)[i] in Parts(t);
  }

  /** What is given for an exposed parameter is laid out. */
  lemma {:induction false} ExposedMet(core: Core, start: Type, k: nat, g: Type, args: seq<Type>, q: nat)
    requires WfCore(core) && Wf(core, g, |args|) && q < |args| && q in ExposedParameters(g, Stage(core, k))
    requires MeetsAll(core, start, Subst(g, args))
    ensures MeetsAll(core, start, args[q])
    decreases k, g
  {
    if !g.Param? {
      var i := ExposedFromCome(g, 0, q, Stage(core, k));
      var s := Subst(g, args);
      SubstParts(g, args);
      assert Parts(g)[i] in Parts(g);
      if g.Enum? {
        assert Direct(s, s);
        var j, h := StageCome(core, k, Slot(g.id, i));
        FieldsMet(core, start, s, h);
        assert core[g.id] in core;
        ExposedMet(core, start, j, h, s.args, i);
        assert s.args[i] == Subst(Parts(g)[i], args);
      } else {
        forall u {:trigger Direct(Parts(s)[i], u)} | Direct(Parts(s)[i], u) ensures Met(core, start, u) {
          DirectPart(s, i, u);
        }
      }
      ExposedMet(core, start, k, Parts(g)[i], args, q);
    }
  }

  /** Everything the traversal meets is laid out. */
  lemma {:induction false} WithinMet(core: Core, start: Type, k: nat, t: Type, u: Type)
    requires WfCore(core) && Wf(core, t, 0) && MeetsAll(core, start, t) && Within(t, u, Stage(core, k))
    ensures Met(core, start, u)
    decreases t
  {
    if t.Enum? && u == t {
      assert Direct(t, t);
    } else {
      var i :| 0 <= i < |Parts(t)| && Follows(t, i, Stage(core, k)) && Within(Parts(t)[i], u, Stage(core, k));
      assert Parts(t)[i] in Parts(t);
      if t.Enum? {
        assert Direct(t, t);
        var j, h := StageCome(core, k, Slot(t.id, i));
        FieldsMet(core, start, t, h);
        assert core[t.id] in core;
        ExposedMet(core, start, j, h, t.args, i);
      } else {
        forall v {:trigger Direct(Parts(t)[i], v)} | Direct(Parts(t)[i], v) ensures Met(core, start, v) {
          DirectPart(t, i, v);
        }
      }
      WithinMet(core, start, k, Parts(t)[i], u);
    }
  }

  lemma {:induction false} WithinSubstituted(t: Type, a: Type, args: seq<Type>, exposed: set<Slot>)
    requires Within(t, a, exposed) && a.Enum?
    ensures Within(Subst(t, args), Subst(a, args), exposed)
    decreases t
  {
    if !(t.Enum? && a == t) {
      var i :| 0 <= i < |Parts(t)| && Follows(t, i, exposed) && Within(Parts(t)[i], a, exposed);
      SubstParts(t, args);
      WithinSubstituted(Parts(t)[i], a, args, exposed);
      WithinPart(Subst(t, args), i, Subst(a, args), exposed);
    }
  }

  /** A substituted type holds what is given for the parameters that occur in it. */
  lemma {:induction false} SizeHolds(t: Type, wrapped: bool, o: Occurrence, args: seq<Type>)
    requires o in Occurrences(t, wrapped) && o.index < |args|
    ensures Size(args[o.index]) <= Size(Subst(t, args)) && (!t.Param? ==> Size(args[o.index]) < Size(Subst(t, args)))
    decreases t, |Parts(t)| + 1
  {
    if !t.Param? {
      var i := OccurrencesFromCome(t, 0, o);
      SizeHolds(Parts(t)[i], true, o, args);
      SubstParts(t, args);
      PartBelow(Subst(t, args), i);
    }
  }

  lemma {:induction false} OccurrencesFromCome(t: Type, i: nat, o: Occurrence) returns (j: nat)
    requires i <= |Parts(t)| && o in OccurrencesFrom(t, i)
    ensures j < |Parts(t)| && o in Occurrences(Parts(t)[j], true)
    decreases |Parts(t)| - i
  {
    if o in Occurrences(Parts(t)[i], true) {
      j := i;
    } else {
      j := OccurrencesFromCome(t, i + 1, o);
    }
  }

  /** An instance of enum `s.owner` that is met, with at least `size` nodes given for `s`. */
  ghost predicate Reached(core: Core, start: Type, s: Slot, size: nat) {
    exists t :: Holds(core, start, s, size, t)
  }

  ghost predicate Holds(core: Core, start: Type, s: Slot, size: nat, t: Type) {
    Met(core, start, t) && t.Enum? && t.id == s.owner && Wf(core, t, 0) && s.index < |t.args| && size <= Size(t.args[s.index])
  }

  /** Along an edge the size is kept, and a growing edge adds to it. */
  lemma EdgeCarries(core: Core, start: Type, k: nat, e: Edge, size: nat)
    requires WfCore(core) && e in EdgesFrom(core, 0, Stage(core, k)) && Reached(core, start, e.source, size)
    ensures Reached(core, start, e.target, size + if e.grows then 1 else 0)
  {
    hide Size, EdgesFrom, Applications, Stage;
    var t :| Holds(core, start, e.source, size, t);
    var d, f := EdgesCome(core, 0, e, Stage(core, k));
    var a := ApplicationsCome(core, f, d, e, Stage(core, k));
    assert core[d] in core && f in core[d].fields;
    var i, o :| 0 <= i < |a.args| && o in Occurrences(a.args[i], false) && e == Edge(Slot(d, o.index), Slot(a.id, i), o.wrapped);
    FieldsMet(core, start, t, f);
    assert forall b :: b in t.args ==> b in Parts(t);
    SubstWf(core, f, core[d].params, t.args);
    WithinSubstituted(f, a, t.args, Stage(core, k));
    WithinMet(core, start, k, Subst(f, t.args), Subst(a, t.args));
    WithinWf(core, f, core[d].params, a, Stage(core, k));
    SubstWf(core, a, core[d].params, t.args);
    SubstParts(a, t.args);
    SizeHolds(a.args[i], false, o, t.args);
    var u := Subst(a, t.args);
    assert Parts(u)[i] == Subst(a.args[i], t.args);
    assert Holds(core, start, e.target, size + if e.grows then 1 else 0, u);
  }

  lemma {:induction false} PathCarries(core: Core, start: Type, k: nat, n: nat, a: Slot, b: Slot, size: nat)
    requires WfCore(core) && PathIn(EdgesFrom(core, 0, Stage(core, k)), n, a, b) && Reached(core, start, a, size)
    ensures Reached(core, start, b, size)
    decreases n
  {
    hide Reached, EdgesFrom, Stage;
    if n > 0 {
      var e :| e in EdgesFrom(core, 0, Stage(core, k)) && e.source == a && PathIn(EdgesFrom(core, 0, Stage(core, k)), n - 1, e.target, b);
      EdgeCarries(core, start, k, e, size);
      ReachedLess(core, start, e.target, size + (if e.grows then 1 else 0), size);
      PathCarries(core, start, k, n - 1, e.target, b, size);
    }
  }

  lemma ReachedLess(core: Core, start: Type, s: Slot, size: nat, less: nat)
    requires Reached(core, start, s, size) && less <= size
    ensures Reached(core, start, s, less)
  {
    var t :| Holds(core, start, s, size, t);
    assert Holds(core, start, s, less, t);
  }

  /** Every round on the cycle makes the argument larger. */
  lemma {:induction false} GrowsForever(core: Core, start: Type, k: nat, e: Edge, size: nat)
    requires WfCore(core) && e in EdgesFrom(core, 0, Stage(core, k)) && e.grows && Path(EdgesFrom(core, 0, Stage(core, k)), e.target, e.source)
    requires Reached(core, start, e.source, 0)
    ensures Reached(core, start, e.source, size)
    decreases size
  {
    hide Reached, EdgesFrom, Stage, PathIn;
    if size > 0 {
      GrowsForever(core, start, k, e, size - 1);
      EdgeCarries(core, start, k, e, size - 1);
      var n: nat :| PathIn(EdgesFrom(core, 0, Stage(core, k)), n, e.target, e.source);
      PathCarries(core, start, k, n, e.target, e.source, size);
    }
  }

  /** The enum applied to plain types. */
  function Simplest(core: Core, d: EnumId): Type
    requires d < |core|
  {
    Enum(d, seq(core[d].params, _ => Plain(0)))
  }

  ghost function LargestIn(all: set<Type>): (largest: nat)
    ensures forall t :: t in all ==> Size(t) <= largest
    decreases |all|
  {
    if all == {} then 0
    else
      var t :| t in all;
      var rest := LargestIn(all - {t});
      if Size(t) > rest then Size(t) else rest
  }

  /** The instances met are finitely many. */
  ghost predicate Finite(core: Core, t: Type) {
    exists all: set<Type> :: Contains(core, t, all)
  }

  ghost predicate Contains(core: Core, t: Type, all: set<Type>) {
    forall n: nat, u: Type {:trigger Visited(core, t, n, u)} :: Visited(core, t, n, u) ==> u in all
  }

  /** An expanding enum applied to plain types has instances without end. */
  lemma InfinitelyMany(core: Core, k: nat, d: EnumId)
    requires WfCore(core) && GrowsBack(EdgesFrom(core, 0, Stage(core, k)), d)
    ensures d < |core| && Wf(core, Simplest(core, d), 0) && !Finite(core, Simplest(core, d))
  {
    hide Stage, EdgesFrom, Path, Size;
    var edges := EdgesFrom(core, 0, Stage(core, k));
    var e :| e in edges && e.grows && e.source.owner == d && Path(edges, e.target, e.source);
    EdgesProper(core, Stage(core, k));
    assert e.source in Slots(core);
    var start := Simplest(core, d);
    assert Direct(start, start) && Visited(core, start, 0, start);
    forall p | p in Parts(start) ensures Wf(core, p, 0) {
      assert p == Plain(0);
    }
    assert Holds(core, start, e.source, 0, start);
    forall all: set<Type> ensures !Contains(core, start, all) {
      var large := LargestIn(all) + 1;
      GrowsForever(core, start, k, e, large);
      var u :| Holds(core, start, e.source, large, u);
      PartBelow(u, e.source.index);
      var n: nat :| Visited(core, start, n, u);
      assert u !in all;
    }
  }

  /** Every closed type is laid out with finitely many instances. */
  ghost predicate AlwaysFinite(core: Core) {
    forall t: Type {:trigger Finite(core, t)} :: Wf(core, t, 0) ==> Finite(core, t)
  }

  ghost predicate NoneExpanding(core: Core, exposed: set<Slot>) {
    forall d :: !GrowsBack(EdgesFrom(core, 0, exposed), d)
  }

  lemma NoneFound(core: Core, exposed: set<Slot>, expanding: set<EnumId>)
    requires forall d :: d in expanding <==> GrowsBack(EdgesFrom(core, 0, exposed), d)
    ensures expanding == {} <==> NoneExpanding(core, exposed)
  {
    if NoneExpanding(core, exposed) {
      assert forall d :: d !in expanding;
    }
  }

  /** The analysis is exact: no enum is expanding if and only if every closed type is laid out with
      finitely many instances. */
  lemma ExpandingExactly(core: Core, exposed: set<Slot>, k: nat)
    requires WfCore(core) && Closed(core, exposed) && exposed == Stage(core, k)
    ensures NoneExpanding(core, exposed) <==> AlwaysFinite(core)
  {
    hide Stage, EdgesFrom, GrowsBack, Wf;
    if NoneExpanding(core, exposed) {
      forall t | Wf(core, t, 0) ensures Finite(core, t) {
        var all := FinitelyMany(core, exposed, t);
        assert Contains(core, t, all);
      }
    } else {
      var d :| GrowsBack(EdgesFrom(core, 0, exposed), d);
      InfinitelyMany(core, k, d);
    }
  }

  lemma LeastIsClosed(core: Core, exposed: set<Slot>)
    requires LeastClosed(core, exposed)
    ensures Closed(core, exposed)
  {
  }

  /** Running the analysis decides it. */
  method Decide(core: Core) returns (finite: bool)
    requires WfCore(core)
    ensures finite <==> AlwaysFinite(core)
  {
    hide EdgesFrom, LeastClosed, AlwaysFinite, NoneExpanding;
    var expanding, exposed, k := ExpandingEnums(core);
    LeastIsClosed(core, exposed);
    ExpandingExactly(core, exposed, k);
    NoneFound(core, exposed, expanding);
    finite := expanding == {};
  }
}
