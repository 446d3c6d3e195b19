/** The ownership graph of the fixed heap: allocated blocks, the references stored in their
    payloads (what `emela_heap_destroy` enumerates), and the references held outside the heap. */
module HeapGraph {
  import opened HeapArena

  /** `payload[b]` lists the values stored in block `b` (NULL included); `external` holds one copy
      of a value per reference owned outside the heap.  The value of block `b` is the address
      right after its header. */
  datatype Graph = Graph(blocks: set<int>, payload: seq<seq<int>>, external: multiset<int>, header: nat) {

    function Value(b: int): int {
      b + header
    }

    /** Someone outside the heap holds `v`. */
    ghost predicate Held(v: int) {
      external[v] > 0
    }

    ghost predicate Closed() {
      && (forall b :: b in blocks ==> 0 <= b < |payload|)
      && (forall b, v {:trigger v in payload[b]} :: b in blocks && v in payload[b] ==> v == NULL || v - header in blocks)
      && (forall v {:trigger Held(v)} :: Held(v) ==> v - header in blocks)
    }

    /** All references stored in blocks below offset `n`. */
    ghost function InRefs(n: nat): multiset<int>
      requires n <= |payload|
    {
      if n == 0 then multiset{} else InRefs(n - 1) + (if n - 1 in blocks then multiset(payload[n - 1]) else multiset{})
    }

    /** How many references to block `b` exist, inside and outside the heap. */
    ghost function Count(b: int): nat {
      external[Value(b)] + InRefs(|payload|)[Value(b)]
    }

    ghost predicate Edge(b: int, c: int) {
      b in blocks && 0 <= b < |payload| && c in blocks && Value(c) in payload[b]
    }

    /** `b` can be reached from an external reference in `steps` hops. */
    ghost predicate ReachableIn(steps: nat, b: int) {
      b in blocks &&
      if steps == 0 then external[Value(b)] > 0
      else exists c :: ReachableIn(steps - 1, c) && Edge(c, b)
    }

    ghost predicate Reachable(b: int) {
      exists steps: nat :: ReachableIn(steps, b)
    }

    /** The blocks that must survive. */
    ghost function Live(): set<int> {
      set b | b in blocks && Reachable(b)
    }

    /** References only ever lead to smaller ranks. */
    ghost predicate RankedBy(rank: map<int, nat>) {
      forall b, c :: Edge(b, c) ==> b in rank && c in rank && rank[c] < rank[b]
    }

    ghost predicate Acyclic() {
      exists rank :: RankedBy(rank)
    }

    ghost function Drop(b: int): Graph {
      this.(blocks := blocks - {b})
    }
  }

  /** Every allocated block's reference count is exactly the number of references to it. */
  ghost predicate Exact(g: Graph, references: seq<int>) {
    forall b {:trigger Counted(g, references, b)} :: b in g.blocks ==> Counted(g, references, b)
  }

  ghost predicate Counted(g: Graph, references: seq<int>, b: int) {
    0 <= b < |references| && references[b] == g.Count(b)
  }

  lemma ExactAt(g: Graph, references: seq<int>, b: int)
    requires Exact(g, references) && b in g.blocks
    ensures 0 <= b < |references| && references[b] == g.Count(b)
  {
    assert Counted(g, references, b);
  }

  lemma ExactFrame(g: Graph, references: seq<int>, references': seq<int>)
    requires Exact(g, references) && |references'| == |references|
    requires forall b :: b in g.blocks && 0 <= b < |references| ==> references'[b] == references[b]
    ensures Exact(g, references')
  {
    forall b | b in g.blocks ensures Counted(g, references', b) {
      ExactAt(g, references, b);
    }
  }

  // ---------- counting references ----------

  /** A walk from block `m` to the next one passes all references of `m` and no others. */
  lemma {:induction false} InRefsGap(g: Graph, m: nat, n: nat)
    requires m <= n <= |g.payload|
    requires forall b :: m <= b < n ==> b !in g.blocks
    ensures g.InRefs(n) == g.InRefs(m)
  {
    if m < n {
      InRefsGap(g, m, n - 1);
    }
  }

  lemma InRefsNone(g: Graph)
    ensures g.InRefs(0) == multiset{}
  {
  }

  lemma InRefsStep(g: Graph, b: nat, next: nat)
    requires b in g.blocks && b < next <= |g.payload|
    requires forall c :: b < c < next ==> c !in g.blocks
    ensures g.InRefs(next) == g.InRefs(b) + multiset(g.payload[b])
  {
    InRefsGap(g, b + 1, next);
  }

  lemma {:induction false} InRefsMonotone(g: Graph, m: nat, n: nat)
    requires m <= n <= |g.payload|
    ensures g.InRefs(m) <= g.InRefs(n)
  {
    if m < n {
      InRefsMonotone(g, m, n - 1);
    }
  }

  /** Splitting the blocks splits the references they hold. */
  lemma {:induction false} InRefsSplit(g: Graph, part: set<int>, n: nat)
    requires part <= g.blocks && n <= |g.payload|
    ensures g.InRefs(n) == g.(blocks := part).InRefs(n) + g.(blocks := g.blocks - part).InRefs(n)
  {
    if n > 0 {
      InRefsSplit(g, part, n - 1);
    }
  }

  lemma {:induction false} InRefsAlone(g: Graph, b: nat, n: nat)
    requires b < n <= |g.payload|
    ensures g.(blocks := {b}).InRefs(n) == multiset(g.payload[b])
  {
    var alone := g.(blocks := {b});
    InRefsGap(alone, 0, b);
    InRefsGap(alone, b + 1, n);
  }

  /** Taking one block away takes away exactly the references it holds. */
  lemma InRefsDrop(g: Graph, b: nat)
    requires b in g.blocks && b < |g.payload|
    ensures g.InRefs(|g.payload|) == g.Drop(b).InRefs(|g.payload|) + multiset(g.payload[b])
  {
    InRefsSplit(g, {b}, |g.payload|);
    InRefsAlone(g, b, |g.payload|);
  }

  lemma {:induction false} InRefsFrame(g: Graph, h: Graph, n: nat)
    requires g.blocks == h.blocks && n <= |g.payload| && n <= |h.payload|
    requires forall b :: b in g.blocks && 0 <= b < n ==> g.payload[b] == h.payload[b]
    ensures g.InRefs(n) == h.InRefs(n)
  {
    if n > 0 {
      InRefsFrame(g, h, n - 1);
    }
  }

  lemma {:induction false} InRefsMember(g: Graph, n: nat, v: int)
    requires n <= |g.payload|
    ensures v in g.InRefs(n) <==> exists b :: b in g.blocks && 0 <= b < n && v in g.payload[b]
  {
    if n > 0 {
      InRefsMember(g, n - 1, v);
      assert g.InRefs(n)[v] == g.InRefs(n - 1)[v] + if n - 1 in g.blocks then multiset(g.payload[n - 1])[v] else 0;
      if n - 1 in g.blocks {
        assert v in multiset(g.payload[n - 1]) <==> v in g.payload[n - 1];
      }
    }
  }

  /** A block counted as referenced is a root or has a predecessor in the heap. */
  lemma CountedMeansReferenced(g: Graph, b: int)
    requires g.Closed() && b in g.blocks
    ensures g.Count(b) > 0 <==> g.external[g.Value(b)] > 0 || exists c :: g.Edge(c, b)
  {
    var n, v := |g.payload|, g.Value(b);
    InRefsMember(g, n, v);
    if v in g.InRefs(n) {
      var c :| c in g.blocks && 0 <= c < n && v in g.payload[c];
      assert g.Edge(c, b);
    }
    if c :| g.Edge(c, b) {
      assert c in g.blocks && 0 <= c < n && v in g.payload[c];
      assert v in g.InRefs(n);
    }
  }

  lemma ExactAfterAllocate(g: Graph, h: Graph, references: seq<int>, references': seq<int>, b: int)
    requires g.Closed() && b !in g.blocks && 0 <= b < |g.payload|
    requires h == g.(blocks := g.blocks + {b}, payload := g.payload[b := []], external := g.external + multiset{g.Value(b)})
    requires Exact(g, references) && |references'| == |references| && b < |references| && references'[b] == 1
    requires forall c :: c in g.blocks && 0 <= c < |references| ==> references'[c] == references[c]
    ensures h.Closed() && Exact(h, references')
  {
    CountsAfterAllocate(g, h, b);
    forall c | c in h.blocks ensures Counted(h, references', c) {
      if c != b {
        ExactAt(g, references, c);
      }
    }
  }

  /** A new block holds no references and is held once, from outside. */
  lemma CountsAfterAllocate(g: Graph, h: Graph, b: int)
    requires g.Closed() && b !in g.blocks && 0 <= b < |g.payload|
    requires h == g.(blocks := g.blocks + {b}, payload := g.payload[b := []], external := g.external + multiset{g.Value(b)})
    ensures h.Closed() && h.Count(b) == 1
    ensures forall c {:trigger h.Count(c)} :: c in g.blocks ==> h.Count(c) == g.Count(c)
  {
    var n := |g.payload|;
    InRefsDrop(h, b);
    assert h.Drop(b).blocks == g.blocks;
    InRefsFrame(h.Drop(b), g, n);
    InRefsMember(g, n, g.Value(b));
    assert !g.Held(g.Value(b));
    forall v {:trigger h.Held(v)} | h.Held(v) ensures v - h.header in h.blocks {
      assert g.Held(v) || v == g.Value(b);
    }
    forall c | c in g.blocks && 0 <= c < n ensures g.Value(b) !in g.payload[c] {
    }
  }

  /** Moving references between a payload and the outside keeps every count. */
  lemma ExactAfterStore(g: Graph, h: Graph, references: seq<int>, b: int, refs: seq<int>)
    requires g.Closed() && Exact(g, references) && b in g.blocks && 0 <= b < |g.payload|
    requires h == g.(payload := g.payload[b := refs], external := h.external)
    requires forall v :: v >= 0 ==> h.external[v] + multiset(refs)[v] == g.external[v] + multiset(g.payload[b])[v]
    ensures Exact(h, references)
  {
    hide Graph.InRefs;
    var n := |g.payload|;
    InRefsDrop(g, b);
    InRefsDrop(h, b);
    InRefsFrame(g.Drop(b), h.Drop(b), n);
    forall c | c in h.blocks ensures Counted(h, references, c) {
      ExactAt(g, references, c);
      assert g.Value(c) >= 0;
    }
  }

  lemma ClosedAfterStore(g: Graph, h: Graph, b: int, refs: seq<int>)
    requires g.Closed() && b in g.blocks && 0 <= b < |g.payload|
    requires forall v :: v in refs ==> v == NULL || v - g.header in g.blocks
    requires h == g.(payload := g.payload[b := refs], external := h.external)
    requires forall v :: h.external[v] > 0 ==> v >= 0 && (g.external[v] > 0 || v in g.payload[b])
    ensures h.Closed()
  {
    forall v {:trigger h.Held(v)} | h.Held(v) ensures v - h.header in h.blocks {
      assert g.Held(v) || v in g.payload[b];
    }
  }

  /** Changing who holds references outside the heap by one copy moves one count. */
  lemma ExactAfterExternal(g: Graph, h: Graph, references: seq<int>, references': seq<int>, b: int)
    requires g.Closed() && b in g.blocks && Exact(g, references) && |references'| == |references| && 0 <= b < |references|
    requires h == g.(external := h.external) && references' == references[b := references'[b]]
    requires || (h.external == g.external + multiset{g.Value(b)} && references'[b] == references[b] + 1)
             || (g.external == h.external + multiset{g.Value(b)} && references'[b] == references[b] - 1)
    ensures h.Closed() && Exact(h, references')
  {
    InRefsFrame(g, h, |g.payload|);
    ExactAt(g, references, b);
    forall c | c in h.blocks ensures Counted(h, references', c) {
      ExactAt(g, references, c);
      if c != b {
        assert g.Value(c) != g.Value(b);
        assert h.external[g.Value(c)] == g.external[g.Value(c)];
      }
    }
    ClosedAfterExternal(g, h, b);
  }

  lemma ClosedAfterExternal(g: Graph, h: Graph, b: int)
    requires g.Closed() && b in g.blocks && h == g.(external := h.external)
    requires h.external == g.external + multiset{g.Value(b)} || g.external == h.external + multiset{g.Value(b)}
    ensures h.Closed()
  {
    forall v {:trigger h.Held(v)} | h.Held(v) ensures v - h.header in h.blocks {
      assert g.Held(v) || v == g.Value(b);
    }
  }

  lemma HeldIsBlock(g: Graph, v: int)
    requires g.Closed() && g.external[v] > 0
    ensures v - g.header in g.blocks && g.Value(v - g.header) == v
  {
    assert g.Held(v);
  }

  lemma CountHeld(g: Graph, b: int)
    requires g.Closed() && b in g.blocks && g.external[g.Value(b)] > 0
    ensures g.Count(b) > 0
  {
  }

  // ---------- reachability ----------

  lemma ReachableStep(g: Graph, b: int, c: int)
    requires g.Reachable(b) && g.Edge(b, c)
    ensures g.Reachable(c)
  {
    var steps: nat :| g.ReachableIn(steps, b);
    assert g.ReachableIn(steps + 1, c);
  }

  lemma ReachableRoot(g: Graph, b: int)
    requires b in g.blocks && g.external[g.Value(b)] > 0
    ensures g.Reachable(b)
  {
    assert g.ReachableIn(0, b);
  }

  /** A set that holds the roots and is closed under references holds everything reachable. */
  lemma {:induction false} ClosedSetHoldsReachable(g: Graph, marked: set<int>, steps: nat, b: int)
    requires forall r :: r in g.blocks && g.external[g.Value(r)] > 0 ==> r in marked
    requires forall c, d :: c in marked && g.Edge(c, d) ==> d in marked
    requires g.ReachableIn(steps, b)
    ensures b in marked
  {
    if steps > 0 {
      var c :| g.ReachableIn(steps - 1, c) && g.Edge(c, b);
      ClosedSetHoldsReachable(g, marked, steps - 1, c);
    }
  }

  lemma LiveIsLeast(g: Graph, marked: set<int>)
    requires forall r :: r in g.blocks && g.external[g.Value(r)] > 0 ==> r in marked
    requires forall c, d :: c in marked && g.Edge(c, d) ==> d in marked
    requires forall b :: b in marked ==> b in g.blocks && g.Reachable(b)
    ensures marked == g.Live()
  {
    forall b | b in g.Live() ensures b in marked {
      var steps: nat :| g.ReachableIn(steps, b);
      ClosedSetHoldsReachable(g, marked, steps, b);
    }
    forall b | b in marked ensures b in g.Live() {
      assert g.Reachable(b);
    }
  }

  /** A live block keeps at least one reference that does not come from a dead block. */
  lemma LiveIsHeld(g: Graph, b: int)
    requires g.Closed() && b in g.Live()
    ensures g.(blocks := g.Live()).Count(b) > 0
  {
    var live := g.(blocks := g.Live());
    var steps: nat :| g.ReachableIn(steps, b);
    if steps > 0 {
      var c :| g.ReachableIn(steps - 1, c) && g.Edge(c, b);
      assert g.Reachable(c);
      InRefsMember(live, |g.payload|, g.Value(b));
      assert c in live.blocks && g.Value(b) in live.payload[c];
    }
  }

  lemma UnreferencedIsDead(g: Graph, b: int)
    requires g.Closed() && b in g.blocks && g.Count(b) == 0
    ensures b !in g.Live() && g.Drop(b).Closed()
    ensures forall c :: !g.Edge(c, b)
  {
    CountedMeansReferenced(g, b);
    forall steps: nat ensures !g.ReachableIn(steps, b) {
    }
    forall c, v | c in g.blocks && v in g.payload[c]
      ensures v == g.Value(b) ==> g.Edge(c, b)
    {
    }
    forall v {:trigger g.Drop(b).Held(v)} | g.Drop(b).Held(v) ensures v - g.header in g.Drop(b).blocks {
      assert g.Held(v);
    }
  }

  /** Dropping an unreferenced block changes nothing about which other blocks are live. */
  lemma DropUnreferenced(g: Graph, b: int)
    requires g.Closed() && b in g.blocks && g.Count(b) == 0
    ensures b !in g.Live() && g.Drop(b).Closed() && g.Drop(b).Live() == g.Live()
  {
    UnreferencedIsDead(g, b);
    var h := g.Drop(b);
    forall c, d | c in h.Live() && g.Edge(c, d) ensures d in h.Live() {
      assert h.Edge(c, d);
      ReachableStep(h, c, d);
    }
    forall r | r in g.blocks && g.external[g.Value(r)] > 0 ensures r in h.Live() {
      ReachableRoot(h, r);
    }
    forall c | c in h.Live() ensures c in g.blocks && g.Reachable(c) {
      var steps: nat :| h.ReachableIn(steps, c);
      DropKeepsPaths(g, b, steps, c);
    }
    LiveIsLeast(g, h.Live());
  }

  lemma {:induction false} DropKeepsPaths(g: Graph, b: int, steps: nat, c: int)
    requires g.Drop(b).ReachableIn(steps, c)
    ensures g.ReachableIn(steps, c)
  {
    if steps > 0 {
      var d :| g.Drop(b).ReachableIn(steps - 1, d) && g.Drop(b).Edge(d, c);
      DropKeepsPaths(g, b, steps - 1, d);
      assert g.Edge(d, c);
    }
  }

  /** Without cycles, positive counts are enough: every counted block is live. */
  lemma AcyclicCountedIsLive(g: Graph)
    requires g.Closed() && g.Acyclic()
    requires forall b :: b in g.blocks ==> g.Count(b) > 0
    ensures g.Live() == g.blocks
  {
    var rank :| g.RankedBy(rank);
    forall b | b in g.blocks ensures g.Reachable(b) {
      RankedIsLive(g, rank, b, {b});
    }
  }

  lemma AcyclicPart(g: Graph, part: set<int>)
    requires g.Acyclic() && part <= g.blocks
    ensures g.(blocks := part).Acyclic()
  {
    var rank :| g.RankedBy(rank);
    var h := g.(blocks := part);
    forall b, c | h.Edge(b, c) ensures b in rank && c in rank && rank[c] < rank[b] {
      assert g.Edge(b, c);
    }
    assert h.RankedBy(rank);
  }

  /** Walking references backwards from `b` never revisits a block, so it ends at a root. */
  lemma {:induction false} RankedIsLive(g: Graph, rank: map<int, nat>, b: int, seen: set<int>)
    requires g.Closed() && g.RankedBy(rank)
    requires forall c :: c in g.blocks ==> g.Count(c) > 0
    requires b in seen && seen <= g.blocks
    requires forall c :: c in seen && c != b ==> c in rank && b in rank && rank[c] < rank[b]
    ensures g.Reachable(b)
    decreases g.blocks - seen
  {
    CountedMeansReferenced(g, b);
    if g.external[g.Value(b)] > 0 {
      ReachableRoot(g, b);
    } else {
      var c :| g.Edge(c, b);
      assert c !in seen;
      RankedIsLive(g, rank, c, seen + {c});
      ReachableStep(g, c, b);
    }
  }

  // ---------- what the collector's phases rely on ----------

  /** How often block `c` refers to block `b`. */
  ghost function UsesOf(g: Graph, c: int, b: int): nat {
    if 0 <= c < |g.payload| then multiset(g.payload[c])[g.Value(b)] else 0
  }

  /** A count covers the references already visited and those of the block visited next. */
  lemma CountCovers(g: Graph, references: seq<int>, c: nat, next: nat, b: int)
    requires Exact(g, references) && c in g.blocks && c < next <= |g.payload| && b in g.blocks
    requires forall d :: c < d < next ==> d !in g.blocks
    ensures 0 <= b < |references|
    ensures g.InRefs(next)[g.Value(b)] == g.InRefs(c)[g.Value(b)] + UsesOf(g, c, b)
    ensures references[b] >= g.external[g.Value(b)] + g.InRefs(next)[g.Value(b)]
  {
    ExactAt(g, references, b);
    InRefsStep(g, c, next);
    InRefsMonotone(g, next, |g.payload|);
  }

  /** Releasing an unreferenced block: its own references are covered by the counts, and taking
      them off makes the counts exact for the rest. */
  lemma ReleaseCovered(g: Graph, references: seq<int>, c: int, b: int)
    requires g.Closed() && Exact(g, references) && c in g.blocks && b in g.blocks
    ensures 0 <= b < |references| && references[b] >= UsesOf(g, c, b)
  {
    ExactAt(g, references, b);
    InRefsDrop(g, c);
  }

  lemma ExactAfterRelease(g: Graph, references: seq<int>, references': seq<int>, c: int)
    requires g.Closed() && Exact(g, references) && c in g.blocks
    requires 0 <= c < |references| && references[c] == 0 && |references'| == |references|
    requires forall b :: b in g.blocks && b != c && 0 <= b < |references| ==> references'[b] == references[b] - UsesOf(g, c, b)
    ensures g.Drop(c).Closed() && Exact(g.Drop(c), references') && g.Drop(c).Live() == g.Live()
  {
    ExactAt(g, references, c);
    DropUnreferenced(g, c);
    InRefsDrop(g, c);
    forall b | b in g.Drop(c).blocks ensures Counted(g.Drop(c), references', b) {
      ExactAt(g, references, b);
    }
  }

  /** The dead blocks below offset `n`, as seen by a walk through the arena. */
  ghost function Dead(g: Graph): Graph {
    g.(blocks := g.blocks - g.Live())
  }

  /** A live block's count is what the dead blocks owe it, and more. */
  lemma LiveCountExceedsDead(g: Graph, b: int)
    requires g.Closed() && b in g.Live()
    ensures g.Count(b) == g.(blocks := g.Live()).Count(b) + Dead(g).InRefs(|g.payload|)[g.Value(b)]
    ensures g.Count(b) > Dead(g).InRefs(|g.payload|)[g.Value(b)]
  {
    hide Graph.Reachable, Graph.ReachableIn;
    InRefsSplit(g, g.Live(), |g.payload|);
    LiveIsHeld(g, b);
  }

  /** Detaching: a survivor's count always exceeds what the dead blocks still owe it. */
  lemma SurvivorStaysHeld(g: Graph, references: seq<int>, c: nat, next: nat, b: int)
    requires g.Closed() && Exact(g, references) && b in g.Live()
    requires c in g.blocks && c !in g.Live() && c < next <= |g.payload|
    requires forall d :: c < d < next ==> d !in g.blocks
    ensures 0 <= b < |references|
    ensures Dead(g).InRefs(next)[g.Value(b)] == Dead(g).InRefs(c)[g.Value(b)] + UsesOf(g, c, b)
    ensures references[b] > Dead(g).InRefs(next)[g.Value(b)]
  {
    hide Graph.Reachable, Graph.ReachableIn, Graph.Closed, Graph.InRefs;
    var dead := Dead(g);
    ExactAt(g, references, b);
    LiveCountExceedsDead(g, b);
    InRefsStep(dead, c, next);
    InRefsMonotone(dead, next, |g.payload|);
  }

  /** Once every dead block is detached, the survivors' counts are exact among themselves. */
  lemma ExactAfterDetach(g: Graph, references: seq<int>, references': seq<int>)
    requires g.Closed() && Exact(g, references) && |references'| == |references|
    requires forall b :: b in g.Live() && 0 <= b < |references| ==>
               references'[b] == references[b] - Dead(g).InRefs(|g.payload|)[g.Value(b)]
    ensures g.(blocks := g.Live()).Closed() && Exact(g.(blocks := g.Live()), references')
  {
    hide Graph.Reachable, Graph.ReachableIn;
    var live := g.(blocks := g.Live());
    forall b | b in live.blocks ensures Counted(live, references', b) {
      ExactAt(g, references, b);
      LiveCountExceedsDead(g, b);
    }
    LiveIsClosed(g);
  }

  lemma LiveIsClosed(g: Graph)
    requires g.Closed()
    ensures g.(blocks := g.Live()).Closed()
  {
    var live := g.(blocks := g.Live());
    forall b, v | b in live.blocks && v in live.payload[b] ensures v == NULL || v - g.header in live.blocks {
      if v != NULL {
        assert g.Edge(b, v - g.header);
        ReachableStep(g, b, v - g.header);
      }
    }
    forall v {:trigger live.Held(v)} | live.Held(v) ensures v - g.header in live.blocks {
      assert g.Held(v);
      ReachableRoot(g, v - g.header);
    }
  }

  /** The survivors are live for their own sake. */
  lemma LiveOfLive(g: Graph)
    requires g.Closed()
    ensures g.(blocks := g.Live()).Live() == g.Live()
  {
    var live := g.(blocks := g.Live());
    forall b | b in g.Live() ensures b in live.Live() {
      var steps: nat :| g.ReachableIn(steps, b);
      LivePath(g, steps, b);
    }
  }

  lemma {:induction false} LivePath(g: Graph, steps: nat, b: int)
    requires g.Closed() && g.ReachableIn(steps, b)
    ensures g.(blocks := g.Live()).ReachableIn(steps, b)
  {
    var live := g.(blocks := g.Live());
    assert g.Reachable(b);
    if steps > 0 {
      var c :| g.ReachableIn(steps - 1, c) && g.Edge(c, b);
      LivePath(g, steps - 1, c);
      assert live.Edge(c, b);
    }
  }

  // ---------- marking ----------

  /** Marks are 0 (white), 1 (grey: still to be visited) and 2 (black: visited).  Roots are never
      white, black blocks lead to no white one, and only reachable blocks are marked. */
  ghost predicate MarkOk(g: Graph, state: seq<int>) {
    && (forall b :: b in g.blocks ==> 0 <= b < |state| && 0 <= state[b] <= 2)
    && (forall b :: b in g.blocks && 0 <= b < |state| && g.Held(g.Value(b)) ==> state[b] != 0)
    && (forall b, c :: g.Edge(b, c) && 0 <= b < |state| && 0 <= c < |state| && state[b] == 2 ==> state[c] != 0)
    && (forall b :: b in g.blocks && 0 <= b < |state| && state[b] != 0 ==> g.Reachable(b))
  }

  ghost function Black(g: Graph, state: seq<int>): set<int> {
    set b | b in g.blocks && 0 <= b < |state| && state[b] == 2
  }

  lemma MarkStart(g: Graph, state: seq<int>)
    requires forall b :: b in g.blocks ==> 0 <= b < |state| && state[b] == if g.external[g.Value(b)] != 0 then 1 else 0
    ensures MarkOk(g, state)
  {
    forall b | b in g.blocks && state[b] != 0 ensures g.Reachable(b) {
      ReachableRoot(g, b);
    }
  }

  /** Visiting a grey block blackens it and greys its white targets. */
  lemma MarkStep(g: Graph, state: seq<int>, state': seq<int>, c: int)
    requires g.Closed() && MarkOk(g, state) && c in g.blocks && 0 <= c < |state| && state[c] == 1 && |state'| == |state|
    requires forall b :: b in g.blocks && 0 <= b < |state| ==>
               state'[b] == if b == c then 2 else if state[b] == 0 && g.Edge(c, b) then 1 else state[b]
    ensures MarkOk(g, state') && Black(g, state') == Black(g, state) + {c}
  {
    forall b | b in g.blocks && state'[b] != 0 ensures g.Reachable(b) {
      if state[b] == 0 && b != c {
        ReachableStep(g, c, b);
      }
    }
    forall b, d | g.Edge(b, d) && state'[b] == 2 ensures state'[d] != 0 {
      assert b in g.blocks && d in g.blocks;
    }
  }

  /** When nothing is grey any more, the marked blocks are the live ones. */
  lemma MarkDone(g: Graph, state: seq<int>)
    requires g.Closed() && MarkOk(g, state)
    requires forall b :: b in g.blocks && 0 <= b < |state| ==> state[b] != 1
    ensures forall b :: b in g.blocks && 0 <= b < |state| ==> (state[b] != 0 <==> b in g.Live())
  {
    var marked := set b | b in g.blocks && 0 <= b < |state| && state[b] != 0;
    forall c, d | c in marked && g.Edge(c, d) ensures d in marked {
    }
    forall r | r in g.blocks && g.external[g.Value(r)] > 0 ensures r in marked {
      assert g.Held(g.Value(r));
    }
    LiveIsLeast(g, marked);
  }
}
