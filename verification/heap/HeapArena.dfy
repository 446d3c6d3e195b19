/** The shape of the fixed heap's arena.  A block is named by the offset of its header in
    `emela_heap_storage`, and each header field is a sequence indexed by such offsets, like the
    memory itself: headers of absorbed blocks stay behind in it.  `starts` is the set of offsets
    at which a block currently begins. */
module HeapArena {
  import opened Sequences
  import opened Powers

  const NULL: int := -1
  const BIN_COUNT: nat := 32

  /** The arena's extent and how requests are rounded. */
  datatype Layout = Layout(end: nat, headerSize: nat, alignment: nat, sizeMax: nat) {
    ghost predicate WellFormed() {
      0 < alignment && 0 < headerSize && headerSize % alignment == 0 && end % alignment == 0 &&
      end <= sizeMax && headerSize + alignment <= sizeMax
    }

    /** `emela_heap_initialize` makes a first block only when a header and one unit fit. */
    predicate Room() {
      headerSize + alignment <= end
    }

    /** The block size `emela_heap_allocate` looks for. */
    function Rounded(payloadSize: nat): (total: nat)
      requires WellFormed()
      ensures headerSize + payloadSize <= total < headerSize + payloadSize + alignment
      ensures total % alignment == 0
    {
      var sum := headerSize + payloadSize;
      RoundUp(sum, alignment);
      if sum % alignment == 0 then sum else sum + (alignment - sum % alignment)
    }
  }

  // ---------- rounding ----------

  lemma ModSum(x: int, y: int, m: int)
    requires m > 0 && x % m == 0 && y % m == 0
    ensures (x + y) % m == 0 && (x - y) % m == 0
  {
    var p, q := x / m, y / m;
    assert x == p * m && y == q * m;
    assert x + y == (p + q) * m && x - y == (p - q) * m;
    ModMultiple(p + q, m);
    ModMultiple(p - q, m);
  }

  lemma ModMultiple(p: int, m: int)
    requires m > 0
    ensures (p * m) % m == 0
  {
    var q, r := (p * m) / m, (p * m) % m;
    assert p * m == q * m + r;
    assert (p - q) * m == r;
    MultipleBounds(p - q, m);
  }

  lemma MultipleBounds(k: int, m: int)
    requires m > 0
    ensures k >= 1 ==> k * m >= m
    ensures k <= -1 ==> k * m <= -m
  {
  }

  lemma RoundUp(x: nat, m: nat)
    requires m > 0
    ensures (x + (m - x % m)) % m == 0
  {
    var q := x / m;
    assert x + (m - x % m) == (q + 1) * m;
    ModMultiple(q + 1, m);
  }

  /** A store to memory cell `i`; nothing happens outside the arena. */
  function Put<T>(memory: seq<T>, i: int, value: T): (memory': seq<T>)
    ensures |memory'| == |memory|
    ensures forall j :: 0 <= j < |memory| ==> memory'[j] == if j == i then value else memory[j]
  {
    if 0 <= i < |memory| then memory[i := value] else memory
  }

  // ---------- tiling ----------

  ghost predicate InArena(L: Layout, starts: set<int>) {
    forall b :: b in starts ==> 0 <= b < L.end
  }

  /** Block `b` lies in the arena, and both neighbours agree with its header about where they meet. */
  ghost predicate BlockFits(L: Layout, starts: set<int>, size: seq<int>, previousSize: seq<int>, b: int)
    requires |size| == |previousSize| == L.end && InArena(L, starts) && b in starts
  {
    && L.headerSize <= size[b] && b + size[b] <= L.end
    && (b + size[b] < L.end ==> b + size[b] in starts && previousSize[b + size[b]] == size[b])
    && (b == 0 <==> previousSize[b] == 0)
    && (b != 0 ==> b - previousSize[b] in starts && size[b - previousSize[b]] == previousSize[b])
  }

  /** The blocks cover the arena from 0 to `end` without gaps or overlaps, and every
      `previous_size` is the size of the block just before. */
  ghost predicate Tiled(L: Layout, starts: set<int>, size: seq<int>, previousSize: seq<int>) {
    && L.headerSize > 0
    && |size| == |previousSize| == L.end && InArena(L, starts)
    && 0 in starts
    && (forall b {:trigger BlockFits(L, starts, size, previousSize, b)} ::
          b in starts ==> BlockFits(L, starts, size, previousSize, b))
  }

  /** Tiles do not overlap: a later block starts no earlier than this one ends. */
  lemma {:induction false} TiledApart(L: Layout, starts: set<int>, size: seq<int>, previousSize: seq<int>, b: int, c: int)
    requires Tiled(L, starts, size, previousSize)
    requires b in starts && c in starts && b < c
    ensures b + size[b] <= c
    decreases c
  {
    assert BlockFits(L, starts, size, previousSize, c);
    var p := c - previousSize[c];
    assert BlockFits(L, starts, size, previousSize, p);
    if b < p {
      TiledApart(L, starts, size, previousSize, b, p);
    } else if p < b {
      TiledApart(L, starts, size, previousSize, p, b);
    }
  }

  /** Every byte of a tiled arena belongs to exactly one block. */
  lemma TiledCovers(L: Layout, starts: set<int>, size: seq<int>, previousSize: seq<int>, x: int)
    requires Tiled(L, starts, size, previousSize)
    requires 0 <= x < L.end
    ensures exists b :: b in starts && b <= x < b + size[b]
    ensures forall b, c :: b in starts && c in starts && b <= x < b + size[b] && c <= x < c + size[c] ==> b == c
  {
    var b := 0;
    while x >= b + size[b]
      invariant b in starts && b <= x
      decreases x - b
    {
      assert BlockFits(L, starts, size, previousSize, b);
      b := b + size[b];
    }
    forall b, c | b in starts && c in starts && b <= x < b + size[b] && c <= x < c + size[c]
      ensures b == c
    {
      if b < c {
        TiledApart(L, starts, size, previousSize, b, c);
      } else if c < b {
        TiledApart(L, starts, size, previousSize, c, b);
      }
    }
  }

  /** Joining block `b` with the block `n` right after it keeps the arena tiled. */
  lemma TiledMerge(L: Layout, starts: set<int>, size: seq<int>, previousSize: seq<int>, b: int, n: int)
    requires Tiled(L, starts, size, previousSize)
    requires b in starts && n in starts && n == b + size[b]
    ensures Tiled(L, starts - {n}, size[b := size[b] + size[n]],
                  Put(previousSize, n + size[n], size[b] + size[n]))
  {
    var starts', size' := starts - {n}, size[b := size[b] + size[n]];
    var previousSize' := Put(previousSize, n + size[n], size[b] + size[n]);
    assert BlockFits(L, starts, size, previousSize, b);
    forall c {:trigger BlockFits(L, starts', size', previousSize', c)} | c in starts'
      ensures BlockFits(L, starts', size', previousSize', c)
    {
      MergeFits(L, starts, size, previousSize, b, n, c);
    }
  }

  lemma MergeFits(L: Layout, starts: set<int>, size: seq<int>, previousSize: seq<int>, b: int, n: int, c: int)
    requires Tiled(L, starts, size, previousSize)
    requires b in starts && n in starts && n == b + size[b]
    requires c in starts && c != n
    ensures BlockFits(L, starts - {n}, size[b := size[b] + size[n]],
                      Put(previousSize, n + size[n], size[b] + size[n]), c)
  {
    assert BlockFits(L, starts, size, previousSize, b);
    assert BlockFits(L, starts, size, previousSize, n);
    assert BlockFits(L, starts, size, previousSize, c);
  }

  /** Cutting block `b` after `first` bytes keeps the arena tiled. */
  lemma TiledSplit(L: Layout, starts: set<int>, size: seq<int>, previousSize: seq<int>, b: int, first: int)
    requires Tiled(L, starts, size, previousSize)
    requires b in starts && L.headerSize <= first && L.headerSize <= size[b] - first
    ensures b + size[b] <= L.end && b + first !in starts
    ensures Tiled(L, starts + {b + first}, size[b := first][b + first := size[b] - first],
                  Put(previousSize[b + first := first], b + size[b], size[b] - first))
  {
    assert BlockFits(L, starts, size, previousSize, b);
    var s := b + first;
    if s in starts {
      TiledApart(L, starts, size, previousSize, b, s);
    }
    var starts', size' := starts + {b + first}, size[b := first][b + first := size[b] - first];
    var previousSize' := Put(previousSize[b + first := first], b + size[b], size[b] - first);
    forall c {:trigger BlockFits(L, starts', size', previousSize', c)} | c in starts'
      ensures BlockFits(L, starts', size', previousSize', c)
    {
      SplitFits(L, starts, size, previousSize, b, first, c);
    }
  }

  lemma SplitFits(L: Layout, starts: set<int>, size: seq<int>, previousSize: seq<int>, b: int, first: int, c: int)
    requires Tiled(L, starts, size, previousSize)
    requires b in starts && L.headerSize <= first && L.headerSize <= size[b] - first
    requires b + size[b] <= L.end && b + first !in starts
    requires c in starts || c == b + first
    ensures BlockFits(L, starts + {b + first}, size[b := first][b + first := size[b] - first],
                      Put(previousSize[b + first := first], b + size[b], size[b] - first), c)
  {
    assert BlockFits(L, starts, size, previousSize, b);
    if c in starts {
      assert BlockFits(L, starts, size, previousSize, c);
    }
  }

  // ---------- the whole arena ----------

  ghost predicate Aligned(L: Layout, starts: set<int>, size: seq<int>)
    requires InArena(L, starts) && |size| == L.end && L.alignment > 0
  {
    forall b :: b in starts ==> b % L.alignment == 0 && size[b] % L.alignment == 0
  }

  /** What every allocation and release keeps: used (allocated) and free blocks together tile the arena,
      the `is_free` flags tell them apart, and no two free blocks touch. */
  ghost predicate Arena(L: Layout, used: set<int>, free: set<int>, size: seq<int>, previousSize: seq<int>, isFree: seq<bool>) {
    && L.WellFormed() && |isFree| == L.end
    && Tiled(L, used + free, size, previousSize)
    && Aligned(L, used + free, size)
    && (forall b :: b in used ==> 0 <= b < L.end && !isFree[b])
    && (forall b :: b in free ==> 0 <= b < L.end && isFree[b])
    && (forall b :: b in free ==> b + size[b] !in free)
  }

  /** The arena `emela_heap_initialize` sets up: one free block. */
  lemma ArenaInitial(L: Layout, size: seq<int>, previousSize: seq<int>, isFree: seq<bool>)
    requires L.WellFormed() && L.Room() && |size| == |previousSize| == |isFree| == L.end
    requires size[0] == L.end && previousSize[0] == 0 && isFree[0]
    ensures Arena(L, {}, {0}, size, previousSize, isFree)
  {
    var none: set<int> := {};
    assert none + {0} == {0};
    assert BlockFits(L, {0}, size, previousSize, 0);
    ModMultiple(0, L.alignment);
  }

  /** What a header read during an operation says about the arena. */
  lemma ArenaBlock(L: Layout, used: set<int>, free: set<int>, size: seq<int>, previousSize: seq<int>, isFree: seq<bool>, b: int)
    requires Arena(L, used, free, size, previousSize, isFree) && b in used + free
    ensures 0 <= b < L.end && 0 < size[b] && b + size[b] <= L.end && b % L.alignment == 0
    ensures (b in free <==> isFree[b]) && (b in used <==> b !in free)
    ensures var next := b + size[b];
            && Put(previousSize, next, size[b]) == previousSize
            && (next < L.end ==> next in used + free && (next in free <==> isFree[next]))
            && (next == L.end || b in free ==> next !in free)
    ensures b == 0 <==> previousSize[b] == 0
    ensures b != 0 ==>
              var previous := b - previousSize[b];
              && 0 <= previous < b && previous + size[previous] == b
              && previous in used + free && (previous in free <==> isFree[previous])
              && (b in free ==> previous !in free)
  {
    assert BlockFits(L, used + free, size, previousSize, b);
    if b != 0 {
      assert BlockFits(L, used + free, size, previousSize, b - previousSize[b]);
    }
  }

  /** A walk by block sizes visits the blocks in order and misses none. */
  lemma ArenaNext(L: Layout, used: set<int>, free: set<int>, size: seq<int>, previousSize: seq<int>, isFree: seq<bool>, b: int)
    requires Arena(L, used, free, size, previousSize, isFree) && b in used + free
    ensures 0 <= b < b + size[b] <= L.end
    ensures b + size[b] == L.end || b + size[b] in used + free
    ensures b in used <==> !isFree[b]
    ensures forall c :: b < c < b + size[b] ==> c !in used && c !in free
  {
    ArenaBlock(L, used, free, size, previousSize, isFree, b);
    forall c | b < c < b + size[b] ensures c !in used && c !in free {
      if c in used + free {
        TiledApart(L, used + free, size, previousSize, b, c);
      }
    }
  }

  /** Coalescing two neighbours, one of them free, unless that would make two free blocks touch. */
  lemma ArenaMerge(L: Layout, used: set<int>, free: set<int>, size: seq<int>, previousSize: seq<int>, isFree: seq<bool>, b: int, n: int)
    requires Arena(L, used, free, size, previousSize, isFree)
    requires b in used + free && n in used + free && n == b + size[b]
    requires b in free ==> n + size[n] !in free
    ensures Arena(L, used - {n}, free - {n}, size[b := size[b] + size[n]],
                  Put(previousSize, n + size[n], size[b] + size[n]), isFree)
  {
    var starts := used + free;
    TiledMerge(L, starts, size, previousSize, b, n);
    ModSum(size[b], size[n], L.alignment);
    assert (used - {n}) + (free - {n}) == starts - {n};
    forall c | c in free ensures BlockFits(L, starts, size, previousSize, c) {
    }
    assert BlockFits(L, starts, size, previousSize, n);
  }

  /** A block may become free when neither neighbour is. */
  lemma ArenaRelease(L: Layout, used: set<int>, free: set<int>, size: seq<int>, previousSize: seq<int>, isFree: seq<bool>, b: int)
    requires Arena(L, used, free, size, previousSize, isFree) && b in used + free
    requires b + size[b] !in free
    requires b != 0 ==> b - previousSize[b] !in free
    ensures Arena(L, used - {b}, free + {b}, size, previousSize, isFree[b := true])
  {
    var starts := used + free;
    assert (used - {b}) + (free + {b}) == starts;
    assert BlockFits(L, starts, size, previousSize, b);
    forall c | c in free && c + size[c] == b ensures b != 0 && c == b - previousSize[b] {
      assert BlockFits(L, starts, size, previousSize, c);
    }
  }

  /** A free block may be taken. */
  lemma ArenaTake(L: Layout, used: set<int>, free: set<int>, size: seq<int>, previousSize: seq<int>, isFree: seq<bool>, b: int)
    requires Arena(L, used, free, size, previousSize, isFree) && b in free
    ensures Arena(L, used + {b}, free - {b}, size, previousSize, isFree[b := false])
  {
    assert (used + {b}) + (free - {b}) == used + free;
  }

  /** The tail of an allocated block may be cut off as a free block when the block after it is not
      free. */
  lemma ArenaSplit(L: Layout, used: set<int>, free: set<int>, size: seq<int>, previousSize: seq<int>, isFree: seq<bool>, b: int, first: int)
    requires Arena(L, used, free, size, previousSize, isFree)
    requires b in used && L.headerSize <= first && L.headerSize <= size[b] - first
    requires first % L.alignment == 0 && b + size[b] !in free
    ensures b + size[b] <= L.end && b + first !in used + free
    ensures Arena(L, used, free + {b + first}, size[b := first][b + first := size[b] - first],
                  Put(previousSize[b + first := first], b + size[b], size[b] - first), isFree[b + first := true])
  {
    var starts, s := used + free, b + first;
    TiledSplit(L, starts, size, previousSize, b, first);
    ModSum(size[b], first, L.alignment);
    ModSum(b, first, L.alignment);
    assert used + (free + {s}) == starts + {s};
    forall c | c in free ensures c + size[c] != s {
      assert BlockFits(L, starts, size, previousSize, c);
      if c + size[c] < L.end {
        assert c + size[c] in starts;
      }
    }
  }

  // ---------- size bins ----------

  /** `emela_heap_bin` from a given point of its loop on. */
  function BinFrom(size: nat, bound: nat, index: nat, sizeMax: nat): (bin: nat)
    requires index < BIN_COUNT && 0 < bound
    ensures index <= bin < BIN_COUNT
    decreases BIN_COUNT - index
  {
    if size > bound && index + 1 < BIN_COUNT && bound <= sizeMax / 2 then
      BinFrom(size, 2 * bound, index + 1, sizeMax)
    else
      index
  }

  function BinOf(size: nat, sizeMax: nat): (bin: nat)
    ensures bin < BIN_COUNT
  {
    BinFrom(size, 64, 0, sizeMax)
  }

  lemma {:induction false} BinFromMonotone(small: nat, large: nat, bound: nat, index: nat, sizeMax: nat)
    requires small <= large && index < BIN_COUNT && 0 < bound
    ensures BinFrom(small, bound, index, sizeMax) <= BinFrom(large, bound, index, sizeMax)
    decreases BIN_COUNT - index
  {
    if small > bound && index + 1 < BIN_COUNT && bound <= sizeMax / 2 {
      BinFromMonotone(small, large, 2 * bound, index + 1, sizeMax);
    }
  }

  /** A block large enough for a request is never in a bin below the request's own, so the search
      of `emela_heap_allocate` may start there. */
  lemma BinMonotone(small: nat, large: nat, sizeMax: nat)
    requires small <= large
    ensures BinOf(small, sizeMax) <= BinOf(large, sizeMax)
  {
    BinFromMonotone(small, large, 64, 0, sizeMax);
  }

  /** The size is beyond what bin `i` ends at, and the doubling goes on: bins end at 64, 128, 256, ... bytes,
      as long as the end is within half of `SIZE_MAX`. */
  ghost predicate Beyond(size: nat, sizeMax: nat, i: nat) {
    64 * Pow(2, i) < size && 64 * Pow(2, i) <= sizeMax / 2
  }

  /** Bin `i` is the one of `size`: the first it is not beyond, or the last of the 32. */
  ghost predicate InBin(size: nat, sizeMax: nat, i: nat) {
    i <= 31 && (forall j: nat :: j < i ==> Beyond(size, sizeMax, j)) && (i == 31 || !Beyond(size, sizeMax, i))
  }

  lemma BinExactly(size: nat, sizeMax: nat, i: nat)
    ensures BinOf(size, sizeMax) == i <==> InBin(size, sizeMax, i)
  {
    BinFromIn(size, 64, 0, sizeMax);
    hide Beyond;
    var bin := BinOf(size, sizeMax);
    assert bin < i ==> Beyond(size, sizeMax, bin) || !InBin(size, sizeMax, i);
    assert i < bin ==> Beyond(size, sizeMax, i);
  }

  lemma {:induction false} BinFromIn(size: nat, bound: nat, index: nat, sizeMax: nat)
    requires index < BIN_COUNT && bound == 64 * Pow(2, index)
    requires forall j: nat :: j < index ==> Beyond(size, sizeMax, j)
    ensures bound > 0 && InBin(size, sizeMax, BinFrom(size, bound, index, sizeMax))
    decreases BIN_COUNT - index
  {
    PowPositive(2, index);
    if size > bound && index + 1 < BIN_COUNT && bound <= sizeMax / 2 {
      PowNext(64, 2, index);
      BinFromIn(size, 2 * bound, index + 1, sizeMax);
    }
  }

  // ---------- what the bins hold, in order ----------

  /** A block joins its bin in front. */
  function Inserted(lists: seq<seq<int>>, i: nat, b: int): seq<seq<int>>
    requires i < |lists|
  {
    lists[i := [b] + lists[i]]
  }

  /** A block leaves its bin; nothing happens if it is in none. */
  function Removed(lists: seq<seq<int>>, b: int): seq<seq<int>> {
    seq(|lists|, i requires 0 <= i < |lists| => Without(lists[i], b))
  }

  lemma RemovedAt(lists: seq<seq<int>>, i: nat, k: nat)
    requires i < |lists| && k < |lists[i]| && Distinct(lists[i])
    requires forall j :: 0 <= j < |lists| && j != i ==> lists[i][k] !in lists[j]
    ensures Removed(lists, lists[i][k]) == lists[i := WithoutAt(lists[i], k)]
  {
    var b := lists[i][k];
    WithoutIs(lists[i], k);
    forall j | 0 <= j < |lists| && j != i ensures Without(lists[j], b) == lists[j] {
      WithoutNone(lists[j], b);
    }
  }

  lemma RemovedNone(lists: seq<seq<int>>, b: int)
    requires forall j :: 0 <= j < |lists| ==> b !in lists[j]
    ensures Removed(lists, b) == lists
  {
    forall j | 0 <= j < |lists| ensures Without(lists[j], b) == lists[j] {
      WithoutNone(lists[j], b);
    }
  }

  lemma {:induction false} WithoutNone(list: seq<int>, b: int)
    requires b !in list
    ensures Without(list, b) == list
  {
    if list != [] {
      WithoutNone(list[1..], b);
    }
  }

  lemma {:induction false} WithoutIs(list: seq<int>, k: nat)
    requires k < |list| && Distinct(list)
    ensures Without(list, list[k]) == WithoutAt(list, k)
    decreases k
  {
    if k == 0 {
      WithoutNone(list[1..], list[0]);
    } else {
      WithoutIs(list[1..], k - 1);
      assert WithoutAt(list, k) == [list[0]] + WithoutAt(list[1..], k - 1);
    }
  }

  predicate Fits(size: seq<int>, b: int, total: int) {
    0 <= b < |size| && size[b] >= total
  }

  /** Place `k` of a bin holds the first block of it that fits. */
  ghost predicate FirstOf(list: seq<int>, size: seq<int>, total: int, k: nat) {
    k < |list| && Fits(size, list[k], total) && forall j :: 0 <= j < k ==> !Fits(size, list[j], total)
  }

  ghost predicate NoneFits(list: seq<int>, size: seq<int>, total: int) {
    forall b :: b in list ==> !Fits(size, b, total)
  }

  /** Place `k` of bin `i` holds the first block that fits, from bin `from` on. */
  ghost predicate FirstFitting(lists: seq<seq<int>>, size: seq<int>, from: nat, total: int, i: nat, k: nat) {
    from <= i < |lists| && FirstOf(lists[i], size, total, k) && forall h {:trigger lists[h]} :: from <= h < i ==> NoneFits(lists[h], size, total)
  }

  // ---------- doubly linked bins ----------

  function At(list: seq<int>, k: int): int {
    if 0 <= k < |list| then list[k] else NULL
  }

  /** Cell `list[k]` of `link` holds `list[k + step]`, or NULL past either end. */
  ghost predicate LinkedAt(list: seq<int>, link: seq<int>, step: int, k: nat)
    requires k < |list|
  {
    0 <= list[k] < |link| && link[list[k]] == At(list, k + step)
  }

  ghost predicate Linked(list: seq<int>, link: seq<int>, step: int) {
    forall k {:trigger LinkedAt(list, link, step, k)} :: 0 <= k < |list| ==> LinkedAt(list, link, step, k)
  }

  /** `head` starts a doubly linked list through exactly the blocks of `list`, in that order. */
  ghost predicate Chain(list: seq<int>, head: int, next: seq<int>, previous: seq<int>) {
    && head == At(list, 0)
    && Distinct(list)
    && Linked(list, next, 1)
    && Linked(list, previous, -1)
  }

  lemma LinkedFrame(list: seq<int>, link: seq<int>, step: int, link': seq<int>)
    requires Linked(list, link, step) && |link'| == |link|
    requires forall b :: b in list && 0 <= b < |link| ==> link'[b] == link[b]
    ensures Linked(list, link', step)
  {
    forall k | 0 <= k < |list|
      ensures LinkedAt(list, link', step, k)
    {
      assert LinkedAt(list, link, step, k) && list[k] in list;
    }
  }

  function WithoutAt(list: seq<int>, k: nat): (rest: seq<int>)
    requires k < |list|
    ensures |rest| == |list| - 1
    ensures forall j :: 0 <= j < |rest| ==> rest[j] == list[if j < k then j else j + 1]
  {
    list[..k] + list[k + 1..]
  }

  lemma WithoutElements(list: seq<int>, k: nat)
    requires k < |list| && Distinct(list)
    ensures forall b :: b in WithoutAt(list, k) <==> b in list && b != list[k]
  {
    var rest := WithoutAt(list, k);
    forall b | b in list && b != list[k] ensures b in rest {
      var j :| 0 <= j < |list| && list[j] == b;
      assert b == rest[if j < k then j else j - 1];
    }
  }

  lemma LinkedPush(list: seq<int>, next: seq<int>, previous: seq<int>, b: int)
    requires Distinct(list) && Linked(list, next, 1) && Linked(list, previous, -1)
    requires 0 <= b < |next| && b < |previous| && b !in list
    ensures Linked([b] + list, next[b := At(list, 0)], 1)
    ensures Linked([b] + list, Put(previous[b := NULL], At(list, 0), b), -1)
  {
    var list' := [b] + list;
    forall k {:trigger list'[k]} | 0 <= k < |list'|
      ensures LinkedAt(list', next[b := At(list, 0)], 1, k)
      ensures LinkedAt(list', Put(previous[b := NULL], At(list, 0), b), -1, k)
    {
      if k > 0 {
        assert list'[k] == list[k - 1] && list[k - 1] in list;
        assert LinkedAt(list, next, 1, k - 1) && LinkedAt(list, previous, -1, k - 1);
      }
    }
  }

  /** Pushing a block in front of a bin. */
  lemma ChainPush(list: seq<int>, head: int, next: seq<int>, previous: seq<int>, b: int)
    requires Chain(list, head, next, previous)
    requires 0 <= b < |next| && b < |previous| && b !in list
    ensures Chain([b] + list, b, next[b := head], Put(previous[b := NULL], head, b))
  {
    LinkedPush(list, next, previous, b);
  }

  /** Cutting `list[k]` out of one direction of a list: the cell that led to it now leads on. */
  lemma LinkedRemove(list: seq<int>, link: seq<int>, step: int, k: nat)
    requires Distinct(list) && Linked(list, link, step) && (step == 1 || step == -1)
    requires k < |list|
    ensures Linked(WithoutAt(list, k), Put(Put(link, At(list, k - step), At(list, k + step)), list[k], NULL), step)
  {
    var b, rest := list[k], WithoutAt(list, k);
    var link' := Put(Put(link, At(list, k - step), At(list, k + step)), b, NULL);
    forall j | 0 <= j < |rest|
      ensures LinkedAt(rest, link', step, j)
    {
      var i := if j < k then j else j + 1;
      assert rest[j] == list[i] && LinkedAt(list, link, step, i) && LinkedAt(list, link, step, k);
      if i != k - step {
        assert rest[j] != At(list, k - step);
      }
    }
  }

  /** Unlinking the block at position `k` of a bin. */
  lemma ChainRemove(list: seq<int>, head: int, next: seq<int>, previous: seq<int>, k: nat)
    requires Chain(list, head, next, previous)
    requires k < |list|
    ensures 0 <= list[k] < |next| && next[list[k]] == At(list, k + 1)
    ensures list[k] < |previous| && previous[list[k]] == At(list, k - 1)
    ensures Chain(WithoutAt(list, k), if k > 0 then head else At(list, 1),
                  Put(Put(next, At(list, k - 1), At(list, k + 1)), list[k], NULL),
                  Put(Put(previous, At(list, k + 1), At(list, k - 1)), list[k], NULL))
  {
    assert LinkedAt(list, next, 1, k) && LinkedAt(list, previous, -1, k);
    LinkedRemove(list, next, 1, k);
    LinkedRemove(list, previous, -1, k);
  }

  // ---------- all bins together ----------

  /** The 32 bins hold exactly the blocks of `listed`, each once and in the bin of its size. */
  ghost predicate Bins(L: Layout, listed: set<int>, size: seq<int>, bins: seq<int>, lists: seq<seq<int>>, next: seq<int>, previous: seq<int>) {
    && |bins| == |lists| == BIN_COUNT
    && |size| == |next| == |previous| == L.end
    && (forall i :: 0 <= i < BIN_COUNT ==> Chain(lists[i], bins[i], next, previous))
    && Members(L, listed, size, lists)
  }

  /** Each block of `listed`, and nothing else, is in the bin of its size. */
  ghost predicate Members(L: Layout, listed: set<int>, size: seq<int>, lists: seq<seq<int>>)
    requires |size| == L.end && |lists| == BIN_COUNT
  {
    && (forall i, b {:trigger b in lists[i]} :: 0 <= i < BIN_COUNT && b in lists[i] ==> b in listed && 0 <= b < L.end && size[b] >= 0 && BinOf(size[b], L.sizeMax) == i)
    && (forall b :: b in listed ==> 0 <= b < L.end && size[b] >= 0 && b in lists[BinOf(size[b], L.sizeMax)])
  }

  lemma InOneBin(L: Layout, listed: set<int>, size: seq<int>, lists: seq<seq<int>>, i: nat, j: nat, b: int)
    requires |size| == L.end && |lists| == BIN_COUNT && Members(L, listed, size, lists) && i < BIN_COUNT && j < BIN_COUNT && i != j
    requires b in lists[i]
    ensures b !in lists[j]
  {
  }

  lemma MembersKnown(L: Layout, listed: set<int>, size: seq<int>, lists: seq<seq<int>>, i: nat)
    requires |size| == L.end && |lists| == BIN_COUNT && Members(L, listed, size, lists) && i < BIN_COUNT
    ensures forall b :: b in lists[i] ==> b in listed && 0 <= b < L.end
  {
  }

  lemma MembersRemove(L: Layout, listed: set<int>, size: seq<int>, lists: seq<seq<int>>, i: nat, k: nat)
    requires |size| == L.end && |lists| == BIN_COUNT && Members(L, listed, size, lists)
    requires i < BIN_COUNT && k < |lists[i]| && Distinct(lists[i])
    ensures Members(L, listed - {lists[i][k]}, size, lists[i := WithoutAt(lists[i], k)])
  {
    hide BinOf;
    assert lists[i][k] in lists[i];
    WithoutElements(lists[i], k);
  }

  lemma BinsFrame(L: Layout, listed: set<int>, size: seq<int>, bins: seq<int>, lists: seq<seq<int>>, next: seq<int>, previous: seq<int>, size': seq<int>, next': seq<int>, previous': seq<int>)
    requires Bins(L, listed, size, bins, lists, next, previous)
    requires |size'| == |next'| == |previous'| == L.end
    requires forall b :: b in listed && 0 <= b < L.end ==> size'[b] == size[b] && next'[b] == next[b] && previous'[b] == previous[b]
    ensures Bins(L, listed, size', bins, lists, next', previous')
  {
    forall i | 0 <= i < BIN_COUNT
      ensures Chain(lists[i], bins[i], next', previous')
    {
      LinkedFrame(lists[i], next, 1, next');
      LinkedFrame(lists[i], previous, -1, previous');
    }
  }

  lemma ChainHead(list: seq<int>, head: int, next: seq<int>, previous: seq<int>)
    requires Chain(list, head, next, previous)
    ensures head == At(list, 0)
  {
  }

  lemma ChainMember(list: seq<int>, head: int, next: seq<int>, previous: seq<int>, k: nat)
    requires Chain(list, head, next, previous) && k < |list|
    ensures 0 <= list[k] < |next| && next[list[k]] == At(list, k + 1)
    ensures list[k] < |previous| && previous[list[k]] == At(list, k - 1)
    ensures list[k] in list
  {
    assert LinkedAt(list, next, 1, k) && LinkedAt(list, previous, -1, k);
  }

  /** `emela_heap_add_free` on the bins. */
  lemma BinsAdd(L: Layout, listed: set<int>, size: seq<int>, bins: seq<int>, lists: seq<seq<int>>, next: seq<int>, previous: seq<int>, b: int)
    requires Bins(L, listed, size, bins, lists, next, previous)
    requires 0 <= b < L.end && b !in listed && size[b] >= 0
    ensures var i := BinOf(size[b], L.sizeMax);
            Bins(L, listed + {b}, size, bins[i := b], lists[i := [b] + lists[i]],
                 next[b := bins[i]], Put(previous[b := NULL], bins[i], b))
  {
    var i := BinOf(size[b], L.sizeMax);
    var head := bins[i];
    var next', previous' := next[b := head], Put(previous[b := NULL], head, b);
    ChainPush(lists[i], head, next, previous, b);
    forall j | 0 <= j < BIN_COUNT && j != i
      ensures Chain(lists[j], bins[j], next', previous')
    {
      if lists[i] != [] {
        assert head == lists[i][0] && head in lists[i];
        assert head !in lists[j];
      }
      assert b !in lists[j];
      LinkedFrame(lists[j], next, 1, next');
      LinkedFrame(lists[j], previous, -1, previous');
    }
  }

  lemma ChainApart(L: Layout, listed: set<int>, size: seq<int>, bins: seq<int>, lists: seq<seq<int>>, next: seq<int>, previous: seq<int>, i: nat, j: nat)
    requires Bins(L, listed, size, bins, lists, next, previous)
    requires i < BIN_COUNT && j < BIN_COUNT && i != j
    ensures forall p, q, b, u, v ::
              (p == NULL || p in lists[i]) && (q == NULL || q in lists[i]) && b in lists[i] ==>
              Chain(lists[j], bins[j], Put(Put(next, p, u), b, NULL), Put(Put(previous, q, v), b, NULL))
  {
    forall p, q, b, u, v | (p == NULL || p in lists[i]) && (q == NULL || q in lists[i]) && b in lists[i]
      ensures Chain(lists[j], bins[j], Put(Put(next, p, u), b, NULL), Put(Put(previous, q, v), b, NULL))
    {
      LinkedFrame(lists[j], next, 1, Put(Put(next, p, u), b, NULL));
      LinkedFrame(lists[j], previous, -1, Put(Put(previous, q, v), b, NULL));
    }
  }

  lemma BinsCount(L: Layout, listed: set<int>, size: seq<int>, bins: seq<int>, lists: seq<seq<int>>, next: seq<int>, previous: seq<int>)
    requires Bins(L, listed, size, bins, lists, next, previous)
    ensures |lists| == BIN_COUNT
  {
  }

  lemma BinsRemoved(L: Layout, listed: set<int>, size: seq<int>, bins: seq<int>, lists: seq<seq<int>>, next: seq<int>, previous: seq<int>, i: nat, k: nat)
    requires Bins(L, listed, size, bins, lists, next, previous) && i < BIN_COUNT && k < |lists[i]|
    ensures Removed(lists, lists[i][k]) == lists[i := WithoutAt(lists[i], k)]
  {
    assert Chain(lists[i], bins[i], next, previous) && lists[i][k] in lists[i];
    hide BinOf, Chain;
    forall j | 0 <= j < |lists| && j != i ensures lists[i][k] !in lists[j] {
      InOneBin(L, listed, size, lists, i, j, lists[i][k]);
    }
    RemovedAt(lists, i, k);
  }

  /** Removing what is not listed changes nothing. */
  lemma BinsWithout(L: Layout, listed: set<int>, size: seq<int>, bins: seq<int>, lists: seq<seq<int>>, next: seq<int>, previous: seq<int>, b: int)
    requires Bins(L, listed, size, bins, lists, next, previous)
    ensures b !in listed ==> Removed(lists, b) == lists
  {
    if b !in listed {
      RemovedNone(lists, b);
    }
  }

  /** `emela_heap_remove_free` on the bins. */
  lemma BinsRemove(L: Layout, listed: set<int>, size: seq<int>, bins: seq<int>, lists: seq<seq<int>>, next: seq<int>, previous: seq<int>, b: int)
    returns (k: nat)
    requires Bins(L, listed, size, bins, lists, next, previous)
    requires b in listed
    ensures var i := BinOf(size[b], L.sizeMax);
            k < |lists[i]| && lists[i][k] == b && next[b] == At(lists[i], k + 1) && previous[b] == At(lists[i], k - 1) &&
            (previous[b] == NULL || previous[b] in listed) && (next[b] == NULL || next[b] in listed) &&
            Bins(L, listed - {b}, size, bins[i := if previous[b] != NULL then bins[i] else next[b]], lists[i := WithoutAt(lists[i], k)],
                 Put(Put(next, previous[b], next[b]), b, NULL), Put(Put(previous, next[b], previous[b]), b, NULL))
  {
    var i := BinOf(size[b], L.sizeMax);
    k :| 0 <= k < |lists[i]| && lists[i][k] == b;
    MembersRemove(L, listed, size, lists, i, k);
    MembersKnown(L, listed, size, lists, i);
    hide Chain, BinOf, Members;
    ChainRemove(lists[i], bins[i], next, previous, k);
    if k > 0 {
      ChainMember(lists[i], bins[i], next, previous, k - 1);
    }
    if k + 1 < |lists[i]| {
      ChainMember(lists[i], bins[i], next, previous, k + 1);
    }
    forall j | 0 <= j < BIN_COUNT && j != i
      ensures Chain(lists[j], bins[j], Put(Put(next, previous[b], next[b]), b, NULL), Put(Put(previous, next[b], previous[b]), b, NULL))
    {
      ChainApart(L, listed, size, bins, lists, next, previous, i, j);
    }
  }
}
