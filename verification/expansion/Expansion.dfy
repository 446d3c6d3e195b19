/** The analysis that finds enums whose instances grow without bound: which parameters are exposed as
    field types, which parameter flows into which argument, and whether it grows on the way round. */
module Expansion {
  import opened Types

  /** A parameter of an enum. */
  datatype Slot = Slot(owner: EnumId, index: nat)

  /** What is given for `source` reaches `target`, inside something if it grows. */
  datatype Edge = Edge(source: Slot, target: Slot, grows: bool)

  datatype Occurrence = Occurrence(index: nat, wrapped: bool)

  function Slots(core: Core): set<Slot> {
    set d, i | 0 <= d < |core| && 0 <= i < core[d].params :: Slot(d, i)
  }

  /** Whether the traversals go into part `i`: into an enum's argument only if it is exposed. */
  predicate Follows(t: Type, i: nat, exposed: set<Slot>) {
    t.Enum? ==> Slot(t.id, i) in exposed
  }

  // ---------- the traversals ----------

  /** `exposed_parameters` */
  function ExposedParameters(t: Type, exposed: set<Slot>): set<nat>
    decreases t, |Parts(t)| + 1
  {
    if t.Param? then {t.index} else ExposedFrom(t, 0, exposed)
  }

  function ExposedFrom(t: Type, i: nat, exposed: set<Slot>): set<nat>
    requires i <= |Parts(t)|
    decreases t, |Parts(t)| - i
  {
    if i == |Parts(t)| then {}
    else (if Follows(t, i, exposed) then ExposedParameters(Parts(t)[i], exposed) else {}) + ExposedFrom(t, i + 1, exposed)
  }

  /** `parameter_occurrences` */
  function Occurrences(t: Type, wrapped: bool): set<Occurrence>
    decreases t, |Parts(t)| + 1
  {
    if t.Param? then {Occurrence(t.index, wrapped)} else OccurrencesFrom(t, 0)
  }

  function OccurrencesFrom(t: Type, i: nat): set<Occurrence>
    requires i <= |Parts(t)|
    decreases t, |Parts(t)| - i
  {
    if i == |Parts(t)| then {} else Occurrences(Parts(t)[i], true) + OccurrencesFrom(t, i + 1)
  }

  /** The edges of one application in a field of `owner`. */
  function OwnEdges(core: Core, t: Type, owner: EnumId): set<Edge> {
    if !t.Enum? then {}
    else
      set i, o | 0 <= i < |t.args| && o in Occurrences(t.args[i], false) && Slot(t.id, i) in Slots(core) && Slot(owner, o.index) in Slots(core)
        :: Edge(Slot(owner, o.index), Slot(t.id, i), o.wrapped)
  }

  /** `applications` */
  function Applications(core: Core, t: Type, owner: EnumId, exposed: set<Slot>): set<Edge>
    decreases t, |Parts(t)| + 1
  {
    OwnEdges(core, t, owner) + ApplicationsFrom(core, t, 0, owner, exposed)
  }

  function ApplicationsFrom(core: Core, t: Type, i: nat, owner: EnumId, exposed: set<Slot>): set<Edge>
    requires i <= |Parts(t)|
    decreases t, |Parts(t)| - i
  {
    if i == |Parts(t)| then {}
    else
      (if Follows(t, i, exposed) then Applications(core, Parts(t)[i], owner, exposed) else {}) + ApplicationsFrom(core, t, i + 1, owner, exposed)
  }

  // ---------- over all definitions ----------

  function FieldsExposed(core: Core, d: EnumId, i: nat, exposed: set<Slot>): set<Slot>
    requires d < |core| && i <= |core[d].fields|
    decreases |core[d].fields| - i
  {
    if i == |core[d].fields| then {}
    else
      (set q | q in ExposedParameters(core[d].fields[i], exposed) && q < core[d].params :: Slot(d, q)) + FieldsExposed(core, d, i + 1, exposed)
  }

  /** One round of the fixpoint. */
  function Round(core: Core, d: EnumId, exposed: set<Slot>): set<Slot>
    requires d <= |core|
    decreases |core| - d
  {
    if d == |core| then {} else FieldsExposed(core, d, 0, exposed) + Round(core, d + 1, exposed)
  }

  /** Every parameter that is met is in the set already. */
  ghost predicate Closed(core: Core, exposed: set<Slot>) {
    forall d, f, q :: 0 <= d < |core| && f in core[d].fields && q in ExposedParameters(f, exposed) && 0 <= q < core[d].params ==> Slot(d, q) in exposed
  }

  function FieldsEdges(core: Core, d: EnumId, i: nat, exposed: set<Slot>): set<Edge>
    requires d < |core| && i <= |core[d].fields|
    decreases |core[d].fields| - i
  {
    if i == |core[d].fields| then {} else Applications(core, core[d].fields[i], d, exposed) + FieldsEdges(core, d, i + 1, exposed)
  }

  function EdgesFrom(core: Core, d: EnumId, exposed: set<Slot>): set<Edge>
    requires d <= |core|
    decreases |core| - d
  {
    if d == |core| then {} else FieldsEdges(core, d, 0, exposed) + EdgesFrom(core, d + 1, exposed)
  }

  lemma {:induction false} FieldEdgesIn(core: Core, d: EnumId, i: nat, f: Type, exposed: set<Slot>)
    requires d < |core| && i <= |core[d].fields| && f in core[d].fields[i..]
    ensures Applications(core, f, d, exposed) <= FieldsEdges(core, d, i, exposed)
    decreases |core[d].fields| - i
  {
    if core[d].fields[i] != f {
      assert core[d].fields[i..][1..] == core[d].fields[i + 1..];
      FieldEdgesIn(core, d, i + 1, f, exposed);
    }
  }

  lemma {:induction false} EdgesIn(core: Core, from: EnumId, d: EnumId, f: Type, exposed: set<Slot>)
    requires from <= d < |core| && f in core[d].fields
    ensures Applications(core, f, d, exposed) <= EdgesFrom(core, from, exposed)
    decreases d - from
  {
    hide Applications, FieldsEdges;
    if from == d {
      assert core[d].fields[0..] == core[d].fields;
      FieldEdgesIn(core, d, 0, f, exposed);
    } else {
      EdgesIn(core, from + 1, d, f, exposed);
    }
  }

  lemma {:induction false} FieldsExposedIn(core: Core, d: EnumId, i: nat, f: Type, q: nat, exposed: set<Slot>)
    requires d < |core| && i <= |core[d].fields| && f in core[d].fields[i..] && q in ExposedParameters(f, exposed) && q < core[d].params
    ensures Slot(d, q) in FieldsExposed(core, d, i, exposed)
    decreases |core[d].fields| - i
  {
    if core[d].fields[i] != f {
      assert core[d].fields[i..][1..] == core[d].fields[i + 1..];
      FieldsExposedIn(core, d, i + 1, f, q, exposed);
    }
  }

  lemma {:induction false} RoundIn(core: Core, from: EnumId, d: EnumId, f: Type, q: nat, exposed: set<Slot>)
    requires from <= d < |core| && f in core[d].fields && q in ExposedParameters(f, exposed) && q < core[d].params
    ensures Slot(d, q) in Round(core, from, exposed)
    decreases d - from
  {
    if from == d {
      assert core[d].fields[0..] == core[d].fields;
      FieldsExposedIn(core, d, 0, f, q, exposed);
    } else {
      RoundIn(core, from + 1, d, f, q, exposed);
    }
  }

  lemma {:induction false} RoundSlots(core: Core, d: EnumId, exposed: set<Slot>)
    requires d <= |core|
    ensures Round(core, d, exposed) <= Slots(core)
    decreases |core| - d
  {
    if d < |core| {
      FieldsSlots(core, d, 0, exposed);
      RoundSlots(core, d + 1, exposed);
    }
  }

  lemma {:induction false} FieldsSlots(core: Core, d: EnumId, i: nat, exposed: set<Slot>)
    requires d < |core| && i <= |core[d].fields|
    ensures FieldsExposed(core, d, i, exposed) <= Slots(core)
    decreases |core[d].fields| - i
  {
    if i < |core[d].fields| {
      FieldsSlots(core, d, i + 1, exposed);
    }
  }

  // ---------- paths ----------

  ghost predicate PathIn(edges: set<Edge>, n: nat, a: Slot, b: Slot) {
    if n == 0 then a == b else exists e :: e in edges && e.source == a && PathIn(edges, n - 1, e.target, b)
  }

  ghost predicate Path(edges: set<Edge>, a: Slot, b: Slot) {
    exists n: nat :: PathIn(edges, n, a, b)
  }

  lemma {:induction false} PathEndIn(edges: set<Edge>, n: nat, a: Slot, e: Edge)
    requires e in edges && PathIn(edges, n, a, e.source)
    ensures PathIn(edges, n + 1, a, e.target)
    decreases n
  {
    if n == 0 {
      assert PathIn(edges, 0, e.target, e.target);
    } else {
      var f :| f in edges && f.source == a && PathIn(edges, n - 1, f.target, e.source);
      PathEndIn(edges, n - 1, f.target, e);
    }
  }

  lemma PathEnd(edges: set<Edge>, a: Slot, e: Edge)
    requires e in edges && Path(edges, a, e.source)
    ensures Path(edges, a, e.target)
  {
    var n: nat :| PathIn(edges, n, a, e.source);
    PathEndIn(edges, n, a, e);
  }

  /** A set closed under edges that holds `a` holds everything on paths from it. */
  lemma {:induction false} PathsStay(edges: set<Edge>, held: set<Slot>, n: nat, a: Slot, b: Slot)
    requires a in held && forall e :: e in edges && e.source in held ==> e.target in held
    requires PathIn(edges, n, a, b)
    ensures b in held
    decreases n
  {
    if n > 0 {
      var e :| e in edges && e.source == a && PathIn(edges, n - 1, e.target, b);
      PathsStay(edges, held, n - 1, e.target, b);
    }
  }

  /** `d` owns a parameter that grows on a way back to itself. */
  ghost predicate GrowsBack(edges: set<Edge>, d: EnumId) {
    exists e :: e in edges && e.grows && e.source.owner == d && Path(edges, e.target, e.source)
  }

  // ---------- the fixpoint of exposed parameters ----------

  lemma {:induction false} ExposedGrows(t: Type, a: set<Slot>, b: set<Slot>)
    requires a <= b
    ensures ExposedParameters(t, a) <= ExposedParameters(t, b)
    decreases t, |Parts(t)| + 1
  {
    if !t.Param? {
      ExposedFromGrows(t, 0, a, b);
    }
  }

  lemma {:induction false} ExposedFromGrows(t: Type, i: nat, a: set<Slot>, b: set<Slot>)
    requires a <= b && i <= |Parts(t)|
    ensures ExposedFrom(t, i, a) <= ExposedFrom(t, i, b)
    decreases t, |Parts(t)| - i
  {
    if i < |Parts(t)| {
      ExposedGrows(Parts(t)[i], a, b);
      ExposedFromGrows(t, i + 1, a, b);
    }
  }

  /** What one round adds, every closed set with as much has. */
  lemma {:induction false} RoundWithin(core: Core, d: EnumId, exposed: set<Slot>, closed: set<Slot>)
    requires d <= |core| && exposed <= closed && Closed(core, closed)
    ensures Round(core, d, exposed) <= closed
    decreases |core| - d
  {
    if d < |core| {
      FieldsWithin(core, d, 0, exposed, closed);
      RoundWithin(core, d + 1, exposed, closed);
    }
  }

  lemma {:induction false} FieldsWithin(core: Core, d: EnumId, i: nat, exposed: set<Slot>, closed: set<Slot>)
    requires d < |core| && i <= |core[d].fields| && exposed <= closed && Closed(core, closed)
    ensures FieldsExposed(core, d, i, exposed) <= closed
    decreases |core[d].fields| - i
  {
    if i < |core[d].fields| {
      ExposedGrows(core[d].fields[i], exposed, closed);
      FieldsWithin(core, d, i + 1, exposed, closed);
    }
  }

  /** The least set of parameters closed under exposure. */
  ghost predicate LeastClosed(core: Core, exposed: set<Slot>) {
    && Closed(core, exposed) && exposed <= Slots(core)
    && forall s: set<Slot> {:trigger Closed(core, s)} :: Closed(core, s) ==> exposed <= s
  }

  /** What `k` rounds have found. */
  function Stage(core: Core, k: nat): set<Slot> {
    if k == 0 then {} else Stage(core, k - 1) + Round(core, 0, Stage(core, k - 1))
  }

  method Exposed(core: Core) returns (exposed: set<Slot>, ghost rounds: nat)
    ensures LeastClosed(core, exposed) && exposed == Stage(core, rounds)
  {
    hide Round, Slots, Closed;
    exposed, rounds := {}, 0;
    while true
      invariant exposed == Stage(core, rounds)
      invariant exposed <= Slots(core)
      invariant forall s: set<Slot> {:trigger Closed(core, s)} :: Closed(core, s) ==> exposed <= s
      decreases |Slots(core) - exposed|
    {
      var next := NextRound(core, exposed);
      RoundSlots(core, 0, exposed);
      forall s: set<Slot> {:trigger Closed(core, s)} | Closed(core, s) ensures next <= s {
        RoundWithin(core, 0, exposed, s);
      }
      if next == exposed {
        break;
      }
      assert Slots(core) - next < Slots(core) - exposed;
      SmallerSet(Slots(core) - next, Slots(core) - exposed);
      exposed, rounds := next, rounds + 1;
    }
    RoundsDone(core, exposed);
  }

  lemma RoundsDone(core: Core, exposed: set<Slot>)
    requires exposed + Round(core, 0, exposed) == exposed
    ensures Closed(core, exposed)
  {
    forall d, f, q | 0 <= d < |core| && f in core[d].fields && q in ExposedParameters(f, exposed) && 0 <= q < core[d].params
      ensures Slot(d, q) in exposed
    {
      RoundIn(core, 0, d, f, q, exposed);
    }
  }

  lemma SmallerSet<T>(a: set<T>, b: set<T>)
    requires a < b
    ensures |a| < |b|
  {
    assert b == a + (b - a);
    assert b - a != {};
  }

  method NextRound(core: Core, exposed: set<Slot>) returns (next: set<Slot>)
    ensures next == exposed + Round(core, 0, exposed)
  {
    next := exposed;
    for d := 0 to |core|
      invariant next + Round(core, d, exposed) == exposed + Round(core, 0, exposed)
    {
      for i := 0 to |core[d].fields|
        invariant next + FieldsExposed(core, d, i, exposed) + Round(core, d + 1, exposed) == exposed + Round(core, 0, exposed)
      {
        next := next + set q | q in ExposedParameters(core[d].fields[i], exposed) && q < core[d].params :: Slot(d, q);
      }
    }
  }

  // ---------- the edges and the search ----------

  method CollectEdges(core: Core, exposed: set<Slot>) returns (edges: set<Edge>)
    ensures edges == EdgesFrom(core, 0, exposed)
  {
    hide FieldsEdges;
    edges := {};
    for d := 0 to |core|
      invariant edges + EdgesFrom(core, d, exposed) == EdgesFrom(core, 0, exposed)
    {
      edges := CollectFields(core, d, exposed, edges);
    }
  }

  method CollectFields(core: Core, d: EnumId, exposed: set<Slot>, before: set<Edge>) returns (edges: set<Edge>)
    requires d < |core|
    ensures edges == before + FieldsEdges(core, d, 0, exposed)
  {
    hide Applications;
    edges := before;
    for i := 0 to |core[d].fields|
      invariant edges + FieldsEdges(core, d, i, exposed) == before + FieldsEdges(core, d, 0, exposed)
    {
      edges := edges + Applications(core, core[d].fields[i], d, exposed);
    }
  }

  /** Whether `source` can be reached from `target`. */
  method Reaches(edges: set<Edge>, target: Slot, source: Slot) returns (found: bool)
    ensures found <==> Path(edges, target, source)
  {
    ghost var nodes := {target} + set e | e in edges :: e.target;
    var pending, seen := {target}, {};
    assert PathIn(edges, 0, target, target);
    while pending != {}
      invariant pending <= nodes && seen <= nodes && source !in seen && target in seen + pending
      invariant forall n :: n in seen + pending ==> Path(edges, target, n)
      invariant forall e :: e in edges && e.source in seen ==> e.target in seen + pending
      decreases |nodes - seen|, |pending|
    {
      var node :| node in pending;
      pending := pending - {node};
      if node == source {
        return true;
      }
      if node !in seen {
        forall e | e in edges && e.source == node ensures Path(edges, target, e.target) {
          PathEnd(edges, target, e);
        }
        assert nodes - (seen + {node}) < nodes - seen;
        SmallerSet(nodes - (seen + {node}), nodes - seen);
        seen := seen + {node};
        pending := pending + set e | e in edges && e.source == node :: e.target;
      }
    }
    if Path(edges, target, source) {
      var n: nat :| PathIn(edges, n, target, source);
      PathsStay(edges, seen, n, target, source);
    }
    found := false;
  }

  /** `expanding_enums`: exactly the enums with a parameter that grows on a way back to itself. */
  method ExpandingEnums(core: Core) returns (expanding: set<EnumId>, ghost exposed: set<Slot>, ghost rounds: nat)
    ensures LeastClosed(core, exposed) && exposed == Stage(core, rounds)
    ensures forall d :: d in expanding <==> GrowsBack(EdgesFrom(core, 0, exposed), d)
  {
    var known;
    known, rounds := Exposed(core);
    exposed := known;
    var edges := CollectEdges(core, known);
    expanding := {};
    var rest := edges;
    while rest != {}
      invariant rest <= edges
      invariant forall d :: d in expanding <==> exists e :: e in edges - rest && e.grows && e.source.owner == d && Path(edges, e.target, e.source)
      decreases |rest|
    {
      var edge :| edge in rest;
      ghost var before := rest;
      rest := rest - {edge};
      assert edges - rest == edges - before + {edge};
      if edge.grows {
        var found := Reaches(edges, edge.target, edge.source);
        if found {
          expanding := expanding + {edge.source.owner};
        }
      }
    }
    assert edges - rest == edges;
  }

  // ---------- where members come from ----------

  lemma {:induction false} RoundFrom(core: Core, from: EnumId, s: Slot, exposed: set<Slot>) returns (f: Type)
    requires from <= |core| && s in Round(core, from, exposed)
    ensures s.owner < |core| && f in core[s.owner].fields && s.index in ExposedParameters(f, exposed) && s.index < core[s.owner].params
    decreases |core| - from
  {
    if s in FieldsExposed(core, from, 0, exposed) {
      f := FieldsExposedFrom(core, from, 0, s, exposed);
    } else {
      f := RoundFrom(core, from + 1, s, exposed);
    }
  }

  lemma {:induction false} FieldsExposedFrom(core: Core, d: EnumId, i: nat, s: Slot, exposed: set<Slot>) returns (f: Type)
    requires d < |core| && i <= |core[d].fields| && s in FieldsExposed(core, d, i, exposed)
    ensures s.owner == d && f in core[d].fields && s.index in ExposedParameters(f, exposed) && s.index < core[d].params
    decreases |core[d].fields| - i
  {
    f := core[d].fields[i];
    if s in FieldsExposed(core, d, i + 1, exposed) {
      f := FieldsExposedFrom(core, d, i + 1, s, exposed);
    }
  }

  lemma {:induction false} EdgesCome(core: Core, from: EnumId, e: Edge, exposed: set<Slot>) returns (d: EnumId, f: Type)
    requires from <= |core| && e in EdgesFrom(core, from, exposed)
    ensures d < |core| && f in core[d].fields && e in Applications(core, f, d, exposed)
    decreases |core| - from
  {
    if e in FieldsEdges(core, from, 0, exposed) {
      d := from;
      f := FieldEdgesCome(core, from, 0, e, exposed);
    } else {
      d, f := EdgesCome(core, from + 1, e, exposed);
    }
  }

  lemma {:induction false} FieldEdgesCome(core: Core, d: EnumId, i: nat, e: Edge, exposed: set<Slot>) returns (f: Type)
    requires d < |core| && i <= |core[d].fields| && e in FieldsEdges(core, d, i, exposed)
    ensures f in core[d].fields && e in Applications(core, f, d, exposed)
    decreases |core[d].fields| - i
  {
    f := core[d].fields[i];
    if e !in Applications(core, f, d, exposed) {
      f := FieldEdgesCome(core, d, i + 1, e, exposed);
    }
  }
}
