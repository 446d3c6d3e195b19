/** What visiting the references of a block does to the headers: `emela_heap_enqueue` behaves
    differently in each of the collector's trace modes. */
module HeapTrace {
  import opened Sequences
  import opened HeapArena

  /** The static storage: the bin heads, one cell per header field and block offset, and per block
      the values `emela_heap_destroy` enumerates in its payload, in order. */
  datatype Memory = Memory(
    bins: seq<int>,
    size: seq<int>,
    previousSize: seq<int>,
    freeNext: seq<int>,
    freePrevious: seq<int>,
    references: seq<int>,
    kind: seq<int>,
    isFree: seq<bool>,
    gcReferences: seq<int>,
    gcState: seq<int>,
    payload: seq<seq<int>>)
  {
    ghost predicate Shape(L: Layout) {
      && L.WellFormed()
      && |bins| == BIN_COUNT
      && |size| == |previousSize| == |freeNext| == |freePrevious| == |references| == |kind| == L.end
      && |isFree| == |gcReferences| == |gcState| == |payload| == L.end
    }
  }

  // The values of `emela_heap_trace_mode`.
  const RELEASE := 0
  const TRIAL := 1
  const MARK := 2
  const DETACH := 3

  /** `queue` is threaded through the `free_next` cells; it runs from `First` to `Last`. */
  ghost predicate Threaded(queue: seq<int>, next: seq<int>) {
    Distinct(queue) && Linked(queue, next, 1)
  }

  function First(queue: seq<int>): int {
    At(queue, 0)
  }

  function Last(queue: seq<int>): int {
    At(queue, |queue| - 1)
  }

  lemma FirstIsQueued(queue: seq<int>)
    requires queue != []
    ensures First(queue) in queue
  {
    assert queue[0] in queue;
  }

  lemma ThreadedNothing(next: seq<int>)
    ensures Threaded([], next)
  {
  }

  lemma ThreadedAppend(queue: seq<int>, next: seq<int>, b: int)
    requires Threaded(queue, next) && 0 <= b < |next| && b !in queue
    ensures Threaded(queue + [b], Put(next[b := NULL], Last(queue), b))
  {
    var queue', next' := queue + [b], Put(next[b := NULL], Last(queue), b);
    forall k | 0 <= k < |queue'|
      ensures LinkedAt(queue', next', 1, k)
    {
      if k < |queue| {
        assert LinkedAt(queue, next, 1, k) && queue[k] in queue;
      }
    }
  }

  lemma ThreadedPop(queue: seq<int>, next: seq<int>)
    requires Threaded(queue, next) && First(queue) != NULL
    ensures |queue| > 0 && 0 <= First(queue) < |next| && First(queue) == queue[0] && queue[0] !in queue[1..]
    ensures forall b :: b in queue <==> b == queue[0] || b in queue[1..]
    ensures Threaded(queue[1..], next) && First(queue[1..]) == next[queue[0]]
    ensures Last(queue[1..]) == if next[queue[0]] == NULL then NULL else Last(queue)
  {
    var rest := queue[1..];
    assert queue == [queue[0]] + rest;
    assert LinkedAt(queue, next, 1, 0);
    forall k | 0 <= k < |rest|
      ensures LinkedAt(rest, next, 1, k)
    {
      assert LinkedAt(queue, next, 1, k + 1);
    }
    if |rest| > 0 {
      assert LinkedAt(queue, next, 1, 1);
    }
  }

  // ---------- visiting references ----------

  /** The headers and the blocks queued so far. */
  datatype Trace = Trace(m: Memory, queue: seq<int>)

  /** The visit meets no invalid reference. */
  predicate VisitOk(t: Trace, L: Layout, mode: int, value: int)
    requires t.m.Shape(L)
  {
    var h := value - L.headerSize;
    value == NULL ||
    (0 <= h < L.end && !t.m.isFree[h] && t.m.references[h] != 0 && (mode == TRIAL ==> t.m.gcReferences[h] != 0))
  }

  function Visit(t: Trace, L: Layout, mode: int, value: int): (t': Trace)
    requires t.m.Shape(L) && VisitOk(t, L, mode, value)
    ensures t'.m.Shape(L)
  {
    var h, m := value - L.headerSize, t.m;
    if value == NULL then t
    else if mode == TRIAL then t.(m := m.(gcReferences := m.gcReferences[h := m.gcReferences[h] - 1]))
    else if mode == MARK then t.(m := m.(gcState := m.gcState[h := if m.gcState[h] == 0 then 1 else m.gcState[h]]))
    else if mode == DETACH && m.gcState[h] == 0 then t
    else
      var left := m.references[h] - 1;
      var m' := m.(references := m.references[h := left]);
      if left != 0 then Trace(m', t.queue)
      else Trace(m'.(freeNext := Put(m.freeNext[h := NULL], Last(t.queue), h)), t.queue + [h])
  }

  predicate VisitsOk(t: Trace, L: Layout, mode: int, refs: seq<int>)
    requires t.m.Shape(L)
    decreases |refs|
  {
    refs == [] || (VisitOk(t, L, mode, refs[0]) && VisitsOk(Visit(t, L, mode, refs[0]), L, mode, refs[1..]))
  }

  function Visits(t: Trace, L: Layout, mode: int, refs: seq<int>): (t': Trace)
    requires t.m.Shape(L) && VisitsOk(t, L, mode, refs)
    ensures t'.m.Shape(L)
    decreases |refs|
  {
    if refs == [] then t else Visits(Visit(t, L, mode, refs[0]), L, mode, refs[1..])
  }

  /** How often `refs` refers to block `b`. */
  function Uses(L: Layout, refs: seq<int>, b: int): nat {
    multiset(refs)[b + L.headerSize]
  }

  lemma UsesStep(L: Layout, refs: seq<int>)
    requires refs != []
    ensures forall b :: Uses(L, refs, b) == (if refs[0] == b + L.headerSize then 1 else 0) + Uses(L, refs[1..], b)
    ensures refs[0] in refs && forall v :: v in refs[1..] ==> v in refs
  {
    assert refs == [refs[0]] + refs[1..];
  }

  lemma MemberStep(refs: seq<int>, v: int)
    requires refs != []
    ensures v in refs <==> v == refs[0] || v in refs[1..]
  {
    assert refs == [refs[0]] + refs[1..];
  }

  /** Every value is NULL or refers to one of `blocks`, all allocated. */
  ghost predicate Targets(m: Memory, L: Layout, blocks: set<int>, refs: seq<int>)
    requires m.Shape(L)
  {
    && (forall b :: b in blocks ==> 0 <= b < L.end && !m.isFree[b])
    && (forall v :: v in refs ==> v == NULL || v - L.headerSize in blocks)
  }

  lemma TargetsStep(m: Memory, L: Layout, blocks: set<int>, refs: seq<int>)
    requires m.Shape(L) && Targets(m, L, blocks, refs) && refs != []
    ensures Targets(m, L, blocks, [refs[0]]) && Targets(m, L, blocks, refs[1..])
    ensures var h := refs[0] - L.headerSize; refs[0] != NULL ==> h in blocks && 0 <= h < L.end && Uses(L, refs, h) > 0
  {
    UsesStep(L, refs);
  }

  lemma TargetsKept(m: Memory, m': Memory, L: Layout, blocks: set<int>, refs: seq<int>)
    requires m.Shape(L) && m'.Shape(L) && Targets(m, L, blocks, refs) && m'.isFree == m.isFree
    ensures Targets(m', L, blocks, refs)
  {
  }

  /** Trial counting takes one count off per reference. */
  lemma {:induction false} TrialVisits(t: Trace, L: Layout, blocks: set<int>, refs: seq<int>)
    requires t.m.Shape(L) && Targets(t.m, L, blocks, refs)
    requires forall b :: b in blocks && Uses(L, refs, b) > 0 ==> t.m.references[b] != 0
    requires forall b :: b in blocks ==> t.m.gcReferences[b] >= Uses(L, refs, b)
    ensures VisitsOk(t, L, TRIAL, refs)
    ensures var t' := Visits(t, L, TRIAL, refs);
            t' == t.(m := t.m.(gcReferences := t'.m.gcReferences)) &&
            forall b :: b in blocks ==> t'.m.gcReferences[b] == t.m.gcReferences[b] - Uses(L, refs, b)
    decreases |refs|
  {
    if refs != [] {
      UsesStep(L, refs);
      TargetsStep(t.m, L, blocks, refs);
      hide Visit, VisitOk, Uses, Targets;
      TrialVisit(t, L, blocks, refs[0]);
      TargetsKept(t.m, Visit(t, L, TRIAL, refs[0]).m, L, blocks, refs[1..]);
      TrialVisits(Visit(t, L, TRIAL, refs[0]), L, blocks, refs[1..]);
    }
  }

  lemma TrialVisit(t: Trace, L: Layout, blocks: set<int>, v: int)
    requires t.m.Shape(L) && Targets(t.m, L, blocks, [v])
    requires v != NULL ==> v - L.headerSize in blocks && t.m.references[v - L.headerSize] != 0 && t.m.gcReferences[v - L.headerSize] > 0
    ensures VisitOk(t, L, TRIAL, v)
    ensures var t' := Visit(t, L, TRIAL, v);
            && t' == t.(m := t.m.(gcReferences := t'.m.gcReferences))
            && forall b :: b in blocks ==> t'.m.gcReferences[b] == t.m.gcReferences[b] - if v == b + L.headerSize then 1 else 0
  {
  }

  /** Marking turns every referenced unmarked block grey. */
  lemma {:induction false} MarkVisits(t: Trace, L: Layout, blocks: set<int>, refs: seq<int>)
    requires t.m.Shape(L) && Targets(t.m, L, blocks, refs)
    requires forall b :: b in blocks && Uses(L, refs, b) > 0 ==> t.m.references[b] != 0
    ensures VisitsOk(t, L, MARK, refs)
    ensures var t' := Visits(t, L, MARK, refs);
            t' == t.(m := t.m.(gcState := t'.m.gcState)) &&
            forall b :: b in blocks ==> t'.m.gcState[b] == if t.m.gcState[b] == 0 && b + L.headerSize in refs then 1 else t.m.gcState[b]
    decreases |refs|
  {
    if refs != [] {
      UsesStep(L, refs);
      TargetsStep(t.m, L, blocks, refs);
      hide Visit, VisitOk, Uses, Targets;
      MarkVisit(t, L, blocks, refs[0]);
      TargetsKept(t.m, Visit(t, L, MARK, refs[0]).m, L, blocks, refs[1..]);
      MarkVisits(Visit(t, L, MARK, refs[0]), L, blocks, refs[1..]);
      forall w ensures w in refs <==> w == refs[0] || w in refs[1..] {
        MemberStep(refs, w);
      }
    }
  }

  lemma MarkVisit(t: Trace, L: Layout, blocks: set<int>, v: int)
    requires t.m.Shape(L) && Targets(t.m, L, blocks, [v])
    requires v != NULL ==> v - L.headerSize in blocks && t.m.references[v - L.headerSize] != 0
    ensures VisitOk(t, L, MARK, v)
    ensures var t' := Visit(t, L, MARK, v);
            && t' == t.(m := t.m.(gcState := t'.m.gcState))
            && forall b :: b in blocks ==> t'.m.gcState[b] == if t.m.gcState[b] == 0 && v == b + L.headerSize then 1 else t.m.gcState[b]
  {
  }

  /** Detaching a dead block takes its references off the marked blocks only, and queues none of
      them as long as they stay referenced. */
  lemma {:induction false} DetachVisits(t: Trace, L: Layout, blocks: set<int>, refs: seq<int>)
    requires t.m.Shape(L) && Targets(t.m, L, blocks, refs)
    requires forall b :: b in blocks && t.m.gcState[b] == 0 && Uses(L, refs, b) > 0 ==> t.m.references[b] != 0
    requires forall b :: b in blocks && t.m.gcState[b] != 0 ==> t.m.references[b] > Uses(L, refs, b)
    ensures VisitsOk(t, L, DETACH, refs)
    ensures var t' := Visits(t, L, DETACH, refs);
            t' == t.(m := t.m.(references := t'.m.references)) &&
            forall b :: b in blocks ==>
              t'.m.references[b] == t.m.references[b] - if t.m.gcState[b] == 0 then 0 else Uses(L, refs, b)
    decreases |refs|
  {
    if refs != [] {
      UsesStep(L, refs);
      TargetsStep(t.m, L, blocks, refs);
      hide Visit, VisitOk, Uses, Targets;
      DetachVisit(t, L, blocks, refs[0]);
      TargetsKept(t.m, Visit(t, L, DETACH, refs[0]).m, L, blocks, refs[1..]);
      DetachVisits(Visit(t, L, DETACH, refs[0]), L, blocks, refs[1..]);
    }
  }

  lemma DetachVisit(t: Trace, L: Layout, blocks: set<int>, v: int)
    requires t.m.Shape(L) && Targets(t.m, L, blocks, [v])
    requires var h := v - L.headerSize;
             v != NULL ==> h in blocks && t.m.references[h] != 0 && (t.m.gcState[h] != 0 ==> t.m.references[h] > 1)
    ensures VisitOk(t, L, DETACH, v)
    ensures var t' := Visit(t, L, DETACH, v);
            && t' == t.(m := t.m.(references := t'.m.references))
            && forall b :: b in blocks ==> t'.m.references[b] == t.m.references[b] - if t.m.gcState[b] != 0 && v == b + L.headerSize then 1 else 0
  {
  }

  /** Releasing takes every reference off, and queues exactly the blocks that lose their last one. */
  lemma {:induction false} ReleaseVisits(t: Trace, L: Layout, blocks: set<int>, refs: seq<int>)
    requires t.m.Shape(L) && Targets(t.m, L, blocks, refs)
    requires forall b :: b in blocks ==> t.m.references[b] >= Uses(L, refs, b)
    requires Threaded(t.queue, t.m.freeNext) && forall b :: b in t.queue ==> b in blocks && t.m.references[b] == 0
    ensures VisitsOk(t, L, RELEASE, refs)
    ensures var t' := Visits(t, L, RELEASE, refs);
            && t'.m == t.m.(references := t'.m.references, freeNext := t'.m.freeNext)
            && (forall b :: b in blocks ==> t'.m.references[b] == t.m.references[b] - Uses(L, refs, b))
            && Threaded(t'.queue, t'.m.freeNext)
            && (forall b :: b in t'.queue <==> b in t.queue || (b in blocks && t.m.references[b] != 0 && t'.m.references[b] == 0))
            && (forall b :: 0 <= b < L.end && b !in blocks ==> t'.m.freeNext[b] == t.m.freeNext[b])
    decreases |refs|
  {
    if refs != [] {
      UsesStep(L, refs);
      TargetsStep(t.m, L, blocks, refs);
      TargetsInside(t.m, L, blocks, refs);
      hide Visit, VisitOk, Uses, Targets, Threaded;
      ReleaseVisit(t, L, blocks, refs[0]);
      TargetsKept(t.m, Visit(t, L, RELEASE, refs[0]).m, L, blocks, refs[1..]);
      ReleaseVisits(Visit(t, L, RELEASE, refs[0]), L, blocks, refs[1..]);
    }
  }

  lemma TargetsInside(m: Memory, L: Layout, blocks: set<int>, refs: seq<int>)
    requires m.Shape(L) && Targets(m, L, blocks, refs)
    ensures forall b :: b in blocks ==> 0 <= b < L.end && !m.isFree[b]
  {
  }

  lemma ReleaseVisit(t: Trace, L: Layout, blocks: set<int>, v: int)
    requires t.m.Shape(L) && Targets(t.m, L, blocks, [v])
    requires v != NULL ==> 0 <= v - L.headerSize < L.end && t.m.references[v - L.headerSize] > 0
    requires Threaded(t.queue, t.m.freeNext) && forall b :: b in t.queue ==> b in blocks && t.m.references[b] == 0
    ensures VisitOk(t, L, RELEASE, v)
    ensures var t' := Visit(t, L, RELEASE, v);
            && t'.m == t.m.(references := t'.m.references, freeNext := t'.m.freeNext)
            && (forall b :: b in blocks ==> t'.m.references[b] == t.m.references[b] - if v == b + L.headerSize then 1 else 0)
            && Threaded(t'.queue, t'.m.freeNext)
            && (forall b :: b in t'.queue <==> b in t.queue || (b in blocks && t.m.references[b] != 0 && t'.m.references[b] == 0))
            && (forall b :: 0 <= b < L.end && b !in blocks ==> t'.m.freeNext[b] == t.m.freeNext[b])
  {
    assert v in [v];
    if v != NULL {
      var h := v - L.headerSize;
      if t.m.references[h] == 1 {
        ThreadedAppend(t.queue, t.m.freeNext, h);
        if t.queue != [] {
          assert Last(t.queue) in t.queue;
        }
      }
    }
  }
}
