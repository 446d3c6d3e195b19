/** Types, generic enum definitions, and what substituting arguments into variant fields visits. */
module Types {

  type EnumId = nat

  datatype Type =
    | Param(index: nat)
    | Enum(id: EnumId, args: seq<Type>)
    | Tuple(parts: seq<Type>)
    | List(element: Type)
    | Cell(element: Type)
    | Fn(parts: seq<Type>)             // the parameters, then the result
    | Plain(tag: nat)                  // without type arguments

  /** A generic enum: how many parameters it has, and the types of its variants' fields. */
  datatype Definition = Definition(params: nat, fields: seq<Type>)
  type Core = seq<Definition>

  /** The types directly inside. */
  function Parts(t: Type): (parts: seq<Type>)
    ensures forall p :: p in parts ==> p < t
  {
    match t
    case Param(_) => []
    case Enum(_, args) => args
    case Tuple(parts) => parts
    case List(element) => [element]
    case Cell(element) => [element]
    case Fn(parts) => parts
    case Plain(_) => []
  }

  function WithParts(t: Type, parts: seq<Type>): Type
    requires |parts| == |Parts(t)|
  {
    match t
    case Param(_) => t
    case Enum(id, _) => Enum(id, parts)
    case Tuple(_) => Tuple(parts)
    case List(_) => List(parts[0])
    case Cell(_) => Cell(parts[0])
    case Fn(_) => Fn(parts)
    case Plain(_) => t
  }

  // ---------- well-formed types ----------

  /** Every enum is applied to its number of arguments, and parameters are below `params`. */
  predicate Wf(core: Core, t: Type, params: nat)
    decreases t
  {
    && (t.Param? ==> t.index < params)
    && (t.Enum? ==> t.id < |core| && |t.args| == core[t.id].params)
    && forall p :: p in Parts(t) ==> Wf(core, p, params)
  }

  predicate WfCore(core: Core) {
    forall d, f :: d in core && f in d.fields ==> Wf(core, f, d.params)
  }

  function Subst(t: Type, args: seq<Type>): Type
    decreases t
  {
    if t.Param? then (if t.index < |args| then args[t.index] else t)
    else WithParts(t, seq(|Parts(t)|, i requires 0 <= i < |Parts(t)| => Subst(Parts(t)[i], args)))
  }

  lemma SubstParts(t: Type, args: seq<Type>)
    requires !t.Param?
    ensures |Parts(Subst(t, args))| == |Parts(t)|
    ensures forall i :: 0 <= i < |Parts(t)| ==> Parts(Subst(t, args))[i] == Subst(Parts(t)[i], args)
    ensures Subst(t, args) == WithParts(t, Parts(Subst(t, args)))
  {
  }

  /** Substituting closed arguments gives a closed type. */
  lemma {:induction false} SubstWf(core: Core, t: Type, params: nat, args: seq<Type>)
    requires Wf(core, t, params) && |args| == params && forall a :: a in args ==> Wf(core, a, 0)
    ensures Wf(core, Subst(t, args), 0)
    decreases t
  {
    if !t.Param? {
      SubstParts(t, args);
      var s := Subst(t, args);
      forall p | p in Parts(s) ensures Wf(core, p, 0) {
        var i :| 0 <= i < |Parts(s)| && Parts(s)[i] == p;
        SubstWf(core, Parts(t)[i], params, args);
      }
    }
  }

  // ---------- what layout visits ----------

  /** The enum applications met without going into the arguments of enums. */
  ghost predicate Direct(t: Type, u: Type)
    decreases t
  {
    if t.Enum? then u == t else exists p :: p in Parts(t) && Direct(p, u)
  }

  /** `u` is an enum application in a field of instance `t`. */
  ghost predicate InField(core: Core, t: Type, u: Type) {
    t.Enum? && t.id < |core| && exists f :: f in core[t.id].fields && Direct(Subst(f, t.args), u)
  }

  /** Laying out `start` meets instance `u`, through the fields of `n` instances. */
  ghost predicate Visited(core: Core, start: Type, n: nat, u: Type) {
    if n == 0 then Direct(start, u) else exists t :: Visited(core, start, n - 1, t) && InField(core, t, u)
  }

  // ---------- sizes ----------

  function Size(t: Type): (size: nat)
    ensures size > 0
    decreases t, |Parts(t)| + 1
  {
    1 + SizeFrom(t, 0)
  }

  function SizeFrom(t: Type, i: nat): nat
    requires i <= |Parts(t)|
    decreases t, |Parts(t)| - i
  {
    if i == |Parts(t)| then 0 else Size(Parts(t)[i]) + SizeFrom(t, i + 1)
  }

  lemma {:induction false} PartSmaller(t: Type, i: nat, j: nat)
    requires i <= j < |Parts(t)|
    ensures Size(Parts(t)[j]) <= SizeFrom(t, i)
    decreases j - i
  {
    if i < j {
      PartSmaller(t, i + 1, j);
    }
  }
}
