/** The fixed heap of the embedded backend: allocator, reference counts and cycle collector, as the
    emitted C runs them on the headers in its arena. */
module FixedHeap {
  import opened HeapArena
  import opened HeapGraph
  import opened HeapTrace

  /** `emela_board_defect` does not return: a call that reports a defect ends the program. */
  datatype Outcome = Done | Defect(message: string)

  const HEAP_EXHAUSTED_MESSAGE := "fixed heap exhausted"
  const REFERENCE_OVERFLOW_MESSAGE := "heap reference count overflow"
  const INVALID_REFERENCE_MESSAGE := "invalid fixed heap reference"
  const INVALID_GRAPH_MESSAGE := "invalid heap ownership graph"

  const UINT32_MAX: int := 0xffff_ffff

  class Heap {
    const L: Layout
    const cycles: bool

    var initialized: bool
    var traceMode: int
    var m: Memory

    // Every block is used (allocated) or free; `lists` are the free lists behind the bins' heads.
    ghost var used: set<int>
    ghost var free: set<int>
    ghost var lists: seq<seq<int>>
    // One copy of a value per reference held outside the heap.
    ghost var external: multiset<int>

    // ---------- invariants ----------

    ghost function G(): Graph
      reads this
    {
      Graph(used, m.payload, external, L.headerSize)
    }

    ghost predicate ArenaOk()
      reads this
    {
      Arena(L, used, free, m.size, m.previousSize, m.isFree)
    }

    /** The bins hold exactly the blocks of `listed`. */
    ghost predicate BinsHold(listed: set<int>)
      reads this
    {
      Bins(L, listed, m.size, m.bins, lists, m.freeNext, m.freePrevious)
    }

    ghost predicate GraphOk()
      reads this
    {
      && G().Closed()
      && Exact(G(), m.references)
      && forall b :: b in used && 0 <= b < |m.references| ==> m.references[b] <= UINT32_MAX
    }

    /** What holds between any two operations. */
    ghost predicate Valid()
      reads this
    {
      && m.Shape(L)
      && traceMode == 0
      && (if initialized then ArenaOk() else used == free == {} && external == multiset{})
      && BinsHold(free)
      && GraphOk()
      && Counted()
    }

    /** A block that is not on its way out is referenced. */
    ghost predicate Counted()
      reads this
    {
      forall b :: b in used && 0 <= b < |m.references| ==> m.references[b] != 0
    }

    // ---------- size bins ----------

    method Bin(blockSize: nat) returns (index: nat)
      ensures index == BinOf(blockSize, L.sizeMax) && InBin(blockSize, L.sizeMax, index)
    {
      BinExactly(blockSize, L.sizeMax, BinOf(blockSize, L.sizeMax));
      index := 0;
      var bound := 64;
      while blockSize > bound && index + 1 < BIN_COUNT && bound <= L.sizeMax / 2
        invariant index < BIN_COUNT && 0 < bound
        invariant BinOf(blockSize, L.sizeMax) == BinFrom(blockSize, bound, index, L.sizeMax)
        decreases BIN_COUNT - index
      {
        bound := bound * 2;
        index := index + 1;
      }
    }

    method AddFree(block: int, ghost listed: set<int>)
      requires m.Shape(L) && BinsHold(listed)
      requires 0 <= block < L.end && block !in listed && m.size[block] >= 0
      modifies `m, `lists
      ensures m == old(m).(isFree := old(m.isFree)[block := true], freeNext := m.freeNext, freePrevious := m.freePrevious, bins := m.bins)
      ensures m.Shape(L) && BinsHold(listed + {block})
      ensures forall b :: 0 <= b < L.end && b != block ==> m.freeNext[b] == old(m.freeNext[b])
      ensures lists == Inserted(old(lists), BinOf(m.size[block], L.sizeMax), block)
    {
      var index := Bin(m.size[block]);
      BinsAdd(L, listed, m.size, m.bins, lists, m.freeNext, m.freePrevious, block);
      m := m.(isFree := m.isFree[block := true]);
      m := m.(freePrevious := m.freePrevious[block := NULL]);
      m := m.(freeNext := m.freeNext[block := m.bins[index]]);
      if m.freeNext[block] != NULL {
        assert lists[index] != [];
        ChainMember(lists[index], m.bins[index], old(m.freeNext), old(m.freePrevious), 0);
        m := m.(freePrevious := m.freePrevious[m.freeNext[block] := block]);
      }
      m := m.(bins := m.bins[index := block]);
      lists := lists[index := [block] + lists[index]];
    }

    method RemoveFree(block: int, ghost listed: set<int>)
      requires m.Shape(L) && BinsHold(listed) && block in listed
      modifies `m, `lists
      ensures m == old(m).(freeNext := m.freeNext, freePrevious := m.freePrevious, bins := m.bins)
      ensures m.Shape(L) && BinsHold(listed - {block}) && 0 <= block < L.end
      ensures forall b :: 0 <= b < L.end && b !in listed ==> m.freeNext[b] == old(m.freeNext[b])
      ensures lists == Removed(old(lists), block)
    {
      var index := Bin(m.size[block]);
      ghost var k := BinsRemove(L, listed, m.size, m.bins, lists, m.freeNext, m.freePrevious, block);
      BinsRemoved(L, listed, m.size, m.bins, lists, m.freeNext, m.freePrevious, index, k);
      ghost var before, after := m.freePrevious[block], m.freeNext[block];
      if m.freePrevious[block] != NULL {
        m := m.(freeNext := m.freeNext[m.freePrevious[block] := m.freeNext[block]]);
      } else {
        m := m.(bins := m.bins[index := m.freeNext[block]]);
      }
      if m.freeNext[block] != NULL {
        m := m.(freePrevious := m.freePrevious[m.freeNext[block] := m.freePrevious[block]]);
      }
      m := m.(freeNext := m.freeNext[block := NULL]);
      m := m.(freePrevious := m.freePrevious[block := NULL]);
      lists := lists[index := WithoutAt(lists[index], k)];
      assert m.freeNext == Put(Put(old(m.freeNext), before, after), block, NULL);
      assert m.freePrevious == Put(Put(old(m.freePrevious), after, before), block, NULL);
    }

    // ---------- freeing ----------

    /** Takes the free one of the neighbours `b`, `n` out of its bin and lets `b` absorb `n`.  The
        `previous_size` after them is still to be stored. */
    method Join(b: int, n: int, freed: int)
      requires m.Shape(L) && ArenaOk() && BinsHold(free)
      requires 0 <= b < L.end && n == b + m.size[b]
      requires (freed == n && n in free && b in used) || (freed == b && b in free && n in used && n + m.size[n] !in free)
      modifies `m, `lists, `used, `free
      ensures m.Shape(L) && used == old(used) - {n} && free == old(free) - {n}
      ensures m == old(m).(size := old(m.size)[b := old(m.size[b] + m.size[n])], freeNext := m.freeNext, freePrevious := m.freePrevious, bins := m.bins)
      ensures Arena(L, used, free, m.size, Put(m.previousSize, b + m.size[b], m.size[b]), m.isFree)
      ensures BinsHold(free - {b})
      ensures forall x :: x in used && 0 <= x < L.end ==> m.freeNext[x] == old(m.freeNext[x])
      ensures lists == Removed(old(lists), freed)
    {
      hide HeapArena.Bins, HeapArena.Linked, HeapArena.Removed;
      ghost var listed := free;
      ArenaBlock(L, used, free, m.size, m.previousSize, m.isFree, b);
      ArenaMerge(L, used, free, m.size, m.previousSize, m.isFree, b, n);
      RemoveFree(freed, listed);
      BinsFrame(L, listed - {freed}, m.size, m.bins, lists, m.freeNext, m.freePrevious,
                m.size[b := m.size[b] + m.size[n]], m.freeNext, m.freePrevious);
      m := m.(size := m.size[b := m.size[b] + m.size[n]]);
      used := used - {n};
      free := free - {n};
      assert free - {b} == listed - {freed};
    }

    /** Returns a block to the bins, joined with its free neighbours. */
    method FreeBlock(released: int) returns (block: int)
      requires m.Shape(L) && ArenaOk() && BinsHold(free) && released in used
      modifies `m, `lists, `used, `free
      ensures m.Shape(L) && ArenaOk() && BinsHold(free)
      ensures used == old(used) - {released}
      ensures forall b :: b in used && 0 <= b < L.end ==>
                m.size[b] == old(m.size[b]) && m.freeNext[b] == old(m.freeNext[b]) &&
                m.references[b] == old(m.references[b]) && m.kind[b] == old(m.kind[b])
      ensures m.gcReferences == old(m.gcReferences) && m.gcState == old(m.gcState) && m.payload == old(m.payload)
      ensures block in free && 0 <= block <= released && released + old(m.size[released]) <= block + m.size[block]
      ensures 0 <= released < L.end && block < L.end &&
              lists == Inserted(Removed(Removed(old(lists), released + old(m.size[released])), released - old(m.previousSize[released])), BinOf(m.size[block], L.sizeMax), block)
    {
      hide HeapArena.Arena, HeapArena.Bins, HeapArena.Removed, HeapArena.Inserted;
      ArenaBlock(L, used, free, m.size, m.previousSize, m.isFree, released);
      MergeNext(released);
      block := MergePrevious(released);
      Retire(block);
    }

    /** The first half of `emela_heap_free_block`: the block after `block` is absorbed if free. */
    method MergeNext(block: int)
      requires m.Shape(L) && ArenaOk() && BinsHold(free) && block in used
      modifies `m, `lists, `used, `free
      ensures m.Shape(L) && ArenaOk() && BinsHold(free) && used == old(used)
      ensures m == old(m).(size := m.size, previousSize := m.previousSize, freeNext := m.freeNext, freePrevious := m.freePrevious, bins := m.bins)
      ensures forall b :: b in used && 0 <= b < L.end ==> m.freeNext[b] == old(m.freeNext[b]) && (b != block ==> m.size[b] == old(m.size[b]))
      ensures old(m.size[block]) <= m.size[block] && block + m.size[block] !in free
      ensures lists == Removed(old(lists), block + old(m.size[block])) && m.previousSize[block] == old(m.previousSize[block])
    {
      hide HeapArena.Arena, HeapArena.Bins, HeapArena.Removed;
      ArenaBlock(L, used, free, m.size, m.previousSize, m.isFree, block);
      BinsWithout(L, free, m.size, m.bins, lists, m.freeNext, m.freePrevious, block + m.size[block]);
      var blockEnd := block + m.size[block];
      if blockEnd < L.end {
        var next := blockEnd;
        if m.isFree[next] {
          ArenaBlock(L, used, free, m.size, m.previousSize, m.isFree, next);
          Join(block, next, next);
          assert free - {block} == free;
        }
      }
      blockEnd := block + m.size[block];
      if blockEnd < L.end {
        m := m.(previousSize := m.previousSize[blockEnd := m.size[block]]);
      }
    }

    /** The second half of `emela_heap_free_block`: a free block before `released` absorbs it. */
    method MergePrevious(released: int) returns (block: int)
      requires m.Shape(L) && ArenaOk() && BinsHold(free) && released in used
      requires 0 <= released < L.end && released + m.size[released] !in free
      modifies `m, `lists, `used, `free
      ensures m.Shape(L) && ArenaOk()
      ensures m == old(m).(size := m.size, previousSize := m.previousSize, freeNext := m.freeNext, freePrevious := m.freePrevious, bins := m.bins)
      ensures block in used + free && 0 <= block && 0 <= m.size[block] && BinsHold(free - {block})
      ensures used - {block} == old(used) - {released}
      ensures forall b :: b in used && 0 <= b < L.end ==> m.freeNext[b] == old(m.freeNext[b]) && m.size[b] == old(m.size[b])
      ensures block <= released && released + old(m.size[released]) <= block + m.size[block]
      ensures block + m.size[block] !in free && (block != 0 ==> block - m.previousSize[block] !in free)
      ensures lists == Removed(old(lists), released - old(m.previousSize[released]))
    {
      hide HeapArena.Arena, HeapArena.Bins, HeapArena.Removed;
      BinsWithout(L, free, m.size, m.bins, lists, m.freeNext, m.freePrevious, released - m.previousSize[released]);
      block := released;
      ArenaBlock(L, used, free, m.size, m.previousSize, m.isFree, block);
      assert free - {block} == free;
      if m.previousSize[block] != 0 {
        var previous := block - m.previousSize[block];
        ArenaBlock(L, used, free, m.size, m.previousSize, m.isFree, previous);
        if m.isFree[previous] {
          Join(previous, block, previous);
          block := previous;
        }
      }
      var blockEnd := block + m.size[block];
      if blockEnd < L.end {
        m := m.(previousSize := m.previousSize[blockEnd := m.size[block]]);
      }
      ArenaBlock(L, used, free, m.size, m.previousSize, m.isFree, block);
    }

    /** The end of `emela_heap_free_block`: the joined block goes to its bin. */
    method Retire(block: int)
      requires m.Shape(L) && ArenaOk() && BinsHold(free - {block}) && block in used + free
      requires 0 <= block < L.end && m.size[block] >= 0
      requires block + m.size[block] !in free && (block != 0 ==> block - m.previousSize[block] !in free)
      modifies `m, `lists, `used, `free
      ensures m.Shape(L) && ArenaOk() && BinsHold(free)
      ensures used == old(used) - {block} && block in free
      ensures m == old(m).(references := old(m.references)[block := 0], kind := old(m.kind)[block := 0], isFree := m.isFree, freeNext := m.freeNext, freePrevious := m.freePrevious, bins := m.bins)
      ensures forall b :: 0 <= b < L.end && b != block ==> m.freeNext[b] == old(m.freeNext[b])
      ensures lists == Inserted(old(lists), BinOf(m.size[block], L.sizeMax), block)
    {
      hide HeapArena.Arena, HeapArena.Bins, HeapArena.Inserted;
      m := m.(references := m.references[block := 0]);
      m := m.(kind := m.kind[block := 0]);
      ArenaRelease(L, used, free, m.size, m.previousSize, m.isFree, block);
      AddFree(block, free - {block});
      used := used - {block};
      assert free - {block} + {block} == free + {block};
      free := free + {block};
    }

    // ---------- allocating ----------

    constructor (layout: Layout, withCycles: bool)
      requires layout.WellFormed()
      ensures L == layout && cycles == withCycles
      ensures Valid() && !initialized
    {
      L, cycles := layout, withCycles;
      initialized, traceMode := false, 0;
      var zeros := seq(layout.end, _ => 0);
      m := Memory(seq(BIN_COUNT, _ => NULL), zeros, zeros, zeros, zeros, zeros, zeros,
                  seq(layout.end, _ => false), zeros, zeros, seq(layout.end, _ => []));
      lists := seq(BIN_COUNT, _ => []);
      used, free, external := {}, {}, multiset{};
    }

    method Initialize()
      requires m.Shape(L) && BinsHold(free)
      requires if initialized then ArenaOk() else used == free == {}
      modifies `initialized, `m, `lists, `free
      ensures initialized && m.Shape(L) && BinsHold(free) && m.payload == old(m.payload)
      ensures old(initialized) ==> m == old(m) && free == old(free)
      ensures old(initialized) || L.Room() ==> ArenaOk()
      ensures !old(initialized) ==> if L.Room() then free == {0} && m.size[0] == L.end else free == {}
      ensures lists == if !old(initialized) && L.Room() then Inserted(old(lists), BinOf(L.end, L.sizeMax), 0) else old(lists)
    {
      hide HeapArena.Arena;
      if initialized {
        return;
      }
      initialized := true;
      var available := L.end;
      if available < L.headerSize + L.alignment {
        return;
      }
      BinsFrame(L, free, m.size, m.bins, lists, m.freeNext, m.freePrevious,
                m.size[0 := available], m.freeNext[0 := NULL], m.freePrevious[0 := NULL]);
      m := m.(size := m.size[0 := available]);
      m := m.(previousSize := m.previousSize[0 := 0]);
      m := m.(references := m.references[0 := 0]);
      m := m.(kind := m.kind[0 := 0]);
      m := m.(freePrevious := m.freePrevious[0 := NULL]);
      m := m.(freeNext := m.freeNext[0 := NULL]);
      AddFree(0, free);
      assert free + {0} == {0};
      free := free + {0};
      ArenaInitial(L, m.size, m.previousSize, m.isFree);
    }

    /** The bins once `totalSize` bytes of a free block are taken: a tail that is worth a block of its own goes
        in front of its bin. */
    ghost function AfterTaking(before: seq<seq<int>>, block: int, size: int, totalSize: nat): seq<seq<int>>
      requires |before| == BIN_COUNT
    {
      var leftover := size - totalSize;
      if leftover >= L.headerSize + L.alignment then Inserted(Removed(before, block), BinOf(leftover, L.sizeMax), block + totalSize)
      else Removed(before, block)
    }

    /** The tail of `emela_heap_allocate` once a fitting block is found. */
    method TakeBlock(block: int, totalSize: nat, blockKind: int)
      requires m.Shape(L) && ArenaOk() && BinsHold(free) && block in free && 0 <= block < L.end
      requires L.headerSize <= totalSize <= m.size[block] && totalSize % L.alignment == 0
      modifies `m, `lists, `used, `free
      ensures m.Shape(L) && ArenaOk() && BinsHold(free)
      ensures used == old(used) + {block} && totalSize <= m.size[block] < totalSize + L.headerSize + L.alignment
      ensures m.references[block] == 1 && m.kind[block] == blockKind && m.payload == old(m.payload)
      ensures forall b :: b in old(used) && 0 <= b < L.end ==>
                m.size[b] == old(m.size[b]) && m.references[b] == old(m.references[b]) && m.kind[b] == old(m.kind[b])
      ensures lists == AfterTaking(old(lists), block, old(m.size[block]), totalSize)
    {
      hide HeapArena.Arena, HeapArena.Bins, HeapArena.Removed, HeapArena.Inserted;
      ArenaBlock(L, used, free, m.size, m.previousSize, m.isFree, block);
      ArenaTake(L, used, free, m.size, m.previousSize, m.isFree, block);
      RemoveFree(block, free);
      used, free := used + {block}, free - {block};
      var leftover := m.size[block] - totalSize;
      if leftover >= L.headerSize + L.alignment {
        CutTail(block, totalSize, leftover);
      }
      m := m.(isFree := m.isFree[block := false]);
      m := m.(references := m.references[block := 1]);
      m := m.(kind := m.kind[block := blockKind]);
      BinsFrame(L, free, m.size, m.bins, lists, m.freeNext, m.freePrevious, m.size, m.freeNext[block := NULL], m.freePrevious[block := NULL]);
      m := m.(freeNext := m.freeNext[block := NULL]);
      m := m.(freePrevious := m.freePrevious[block := NULL]);
    }

    method CutTail(block: int, totalSize: nat, leftover: nat)
      requires m.Shape(L) && 0 <= block < L.end && block in used && block + m.size[block] !in free
      requires Arena(L, used, free, m.size, m.previousSize, m.isFree[block := false]) && BinsHold(free)
      requires L.headerSize <= totalSize && totalSize % L.alignment == 0
      requires leftover == m.size[block] - totalSize && leftover >= L.headerSize + L.alignment
      modifies `m, `lists, `free
      ensures m.Shape(L) && Arena(L, used, free, m.size, m.previousSize, m.isFree[block := false]) && BinsHold(free)
      ensures free == old(free) + {block + totalSize}
      ensures forall b :: b in used && 0 <= b < L.end ==>
                m.references[b] == old(m.references[b]) && m.kind[b] == old(m.kind[b])
      ensures forall b :: b in used && 0 <= b < L.end && b != block ==> m.size[b] == old(m.size[b])
      ensures m.size[block] == totalSize && m.payload == old(m.payload)
      ensures lists == Inserted(old(lists), BinOf(leftover, L.sizeMax), block + totalSize)
    {
      hide HeapArena.Arena, HeapArena.Bins, HeapArena.Inserted;
      ArenaBlock(L, used, free, m.size, m.previousSize, m.isFree[block := false], block);
      ArenaSplit(L, used, free, m.size, m.previousSize, m.isFree[block := false], block, totalSize);
      var split := block + totalSize;
      BinsFrame(L, free, m.size, m.bins, lists, m.freeNext, m.freePrevious, m.size[block := totalSize][split := leftover],
                m.freeNext[split := NULL], m.freePrevious[split := NULL]);
      WriteTail(block, split, totalSize, leftover);
      AddFree(split, free);
      free := free + {split};
      var afterSplit := split + leftover;
      if afterSplit < L.end {
        m := m.(previousSize := m.previousSize[afterSplit := leftover]);
      }
      assert m.isFree[block := false] == old(m.isFree[block := false])[split := true];
    }

    /** The header of the tail, before it becomes a free block. */
    method WriteTail(block: int, split: int, totalSize: nat, leftover: nat)
      requires m.Shape(L) && 0 <= block < split < L.end
      modifies `m
      ensures m.Shape(L)
      ensures m == old(m).(size := old(m.size)[block := totalSize][split := leftover], previousSize := old(m.previousSize)[split := totalSize],
                           references := old(m.references)[split := 0], kind := old(m.kind)[split := 0],
                           freeNext := old(m.freeNext)[split := NULL], freePrevious := old(m.freePrevious)[split := NULL])
    {
      m := m.(size := m.size[block := totalSize]);
      m := m.(size := m.size[split := leftover]);
      m := m.(previousSize := m.previousSize[split := totalSize]);
      m := m.(references := m.references[split := 0]);
      m := m.(kind := m.kind[split := 0]);
      m := m.(freeNext := m.freeNext[split := NULL]);
      m := m.(freePrevious := m.freePrevious[split := NULL]);
    }

    /** Whether `emela_heap_allocate` finds room for the payload. */
    ghost predicate CanAllocate(payloadSize: nat)
      reads this
      requires m.Shape(L)
    {
      && payloadSize <= L.sizeMax - L.headerSize - L.alignment
      && if initialized then exists b :: b in free && 0 <= b < L.end && m.size[b] >= L.Rounded(payloadSize)
         else L.Room() && L.end >= L.Rounded(payloadSize)
    }

    /** Allocation either exhausts the heap, exactly when no free block is large enough, or hands
        out a new block with one external reference and leaves every other block alone. */
    method Allocate(payloadSize: nat, blockKind: int) returns (value: int, outcome: Outcome)
      requires Valid()
      modifies this
      ensures outcome.Done? <==> old(CanAllocate(payloadSize))
      ensures outcome.Defect? ==> outcome.message == HEAP_EXHAUSTED_MESSAGE && used == old(used)
      ensures outcome.Done? ==> Valid() && initialized
      ensures outcome.Done? ==>
                var b := value - L.headerSize;
                && b !in old(used) && used == old(used) + {b} && 0 <= b
                && value + payloadSize <= b + m.size[b] <= L.end
                && value % L.alignment == 0
                && m.references[b] == 1 && m.kind[b] == blockKind && m.payload == old(m.payload)[b := []]
                && external == old(external) + multiset{value}
      ensures outcome.Done? && !old(initialized) ==> value == L.headerSize
      ensures outcome.Done? && old(initialized) ==>
                var b := value - L.headerSize;
                && 0 <= b < |old(m.size)| && |old(lists)| == BIN_COUNT
                && ComesFirst(old(lists), old(m.size), L.Rounded(payloadSize), b)
                && lists == AfterTaking(old(lists), b, old(m.size)[b], L.Rounded(payloadSize))
      ensures outcome.Done? ==>
                forall b :: b in old(used) && 0 <= b < L.end ==>
                  m.size[b] == old(m.size[b]) && m.references[b] == old(m.references[b]) && m.kind[b] == old(m.kind[b])
    {
      hide HeapArena.Arena, HeapArena.Bins, HeapGraph.Exact, Graph.Closed, Graph.Count;
      ghost var g, references := G(), m.references;
      value, outcome := NULL, Defect(HEAP_EXHAUSTED_MESSAGE);
      var block := Reserve(payloadSize, blockKind);
      if block == NULL {
        return;
      }
      // The caller stores its references into the payload afterwards.
      m := m.(payload := m.payload[block := []]);
      value, outcome := block + L.headerSize, Done;
      external := external + multiset{value};
      ExactAfterAllocate(g, G(), references, m.references, block);
    }

    method Reserve(payloadSize: nat, blockKind: int) returns (block: int)
      requires m.Shape(L) && BinsHold(free)
      requires if initialized then ArenaOk() else used == free == {}
      modifies `initialized, `m, `lists, `used, `free
      ensures block != NULL <==> old(CanAllocate(payloadSize))
      ensures block == NULL ==> used == old(used)
      ensures block != NULL ==> initialized && m.Shape(L) && ArenaOk() && BinsHold(free)
      ensures block != NULL ==>
                && block !in old(used) && used == old(used) + {block} && 0 <= block < L.end
                && L.headerSize + payloadSize <= m.size[block] && block + m.size[block] <= L.end
                && (block + L.headerSize) % L.alignment == 0
                && m.references[block] == 1 && m.kind[block] == blockKind && m.payload == old(m.payload)
      ensures block != NULL ==> if old(initialized) then old(ComesFirst(lists, m.size, L.Rounded(payloadSize), block)) else block == 0
      ensures block != NULL && old(initialized) ==>
                |old(lists)| == BIN_COUNT && lists == AfterTaking(old(lists), block, old(m.size)[block], L.Rounded(payloadSize))
      ensures block != NULL ==>
                forall b :: b in old(used) && 0 <= b < L.end ==>
                  m.size[b] == old(m.size[b]) && m.references[b] == old(m.references[b]) && m.kind[b] == old(m.kind[b])
    {
      hide HeapArena.Arena, HeapArena.Bins, HeapArena.Removed, HeapArena.Inserted, ComesFirst, AfterTaking;
      Initialize();
      if payloadSize > L.sizeMax - L.headerSize - L.alignment {
        return NULL;
      }
      var totalSize := L.headerSize + payloadSize;
      var remainder := totalSize % L.alignment;
      if remainder != 0 {
        totalSize := totalSize + (L.alignment - remainder);
      }
      assert totalSize == L.Rounded(payloadSize);
      block := ReserveTotal(totalSize, blockKind);
      if block != NULL {
        ModSum(block, L.headerSize, L.alignment);
      }
    }

    /** The rest of `emela_heap_allocate`, with the size rounded up. */
    method ReserveTotal(totalSize: nat, blockKind: int) returns (block: int)
      requires m.Shape(L) && BinsHold(free) && (ArenaOk() || free == {}) && L.headerSize <= totalSize && totalSize % L.alignment == 0
      modifies `m, `lists, `used, `free
      ensures block == NULL ==> used == old(used) && forall b :: b in old(free) && 0 <= b < L.end ==> old(m.size[b]) < totalSize
      ensures block != NULL ==>
                && m.Shape(L) && ArenaOk() && BinsHold(free) && block in old(free) && 0 <= block < L.end && old(m.size)[block] >= totalSize
                && block !in old(used) && used == old(used) + {block}
                && totalSize <= m.size[block] && block + m.size[block] <= L.end && block % L.alignment == 0
                && m.references[block] == 1 && m.kind[block] == blockKind && m.payload == old(m.payload)
      ensures block != NULL ==>
                && ComesFirst(old(lists), old(m.size), totalSize, block)
                && |old(lists)| == BIN_COUNT && lists == AfterTaking(old(lists), block, old(m.size)[block], totalSize)
      ensures block != NULL ==>
                forall b :: b in old(used) && 0 <= b < L.end ==>
                  m.size[b] == old(m.size[b]) && m.references[b] == old(m.references[b]) && m.kind[b] == old(m.kind[b])
    {
      hide HeapArena.Arena, HeapArena.Bins, HeapArena.Removed, HeapArena.Inserted, ComesFirst, AfterTaking;
      BinsCount(L, free, m.size, m.bins, lists, m.freeNext, m.freePrevious);
      block := FirstFit(totalSize);
      if block == NULL {
        return;
      }
      ArenaBlock(L, used, free, m.size, m.previousSize, m.isFree, block);
      TakeBlock(block, totalSize, blockKind);
      ArenaBlock(L, used, free, m.size, m.previousSize, m.isFree, block);
    }

    /** The block comes first in its bin among those that fit, and no bin from the request's own on that comes
        before has one. */
    ghost predicate ComesFirst(lists: seq<seq<int>>, size: seq<int>, totalSize: nat, block: int) {
      exists i: nat, k: nat :: FirstFitting(lists, size, BinOf(totalSize, L.sizeMax), totalSize, i, k) && lists[i][k] == block
    }

    /** The search of `emela_heap_allocate`: the first block that fits, from the request's own bin
        upwards. */
    method FirstFit(totalSize: nat) returns (block: int)
      requires m.Shape(L) && BinsHold(free)
      ensures block == NULL ==> forall b :: b in free && 0 <= b < L.end ==> m.size[b] < totalSize
      ensures block != NULL ==> block in free && 0 <= block < L.end && m.size[block] >= totalSize && ComesFirst(lists, m.size, totalSize, block)
    {
      hide HeapArena.FirstOf, HeapArena.NoneFits, HeapArena.Chain, HeapArena.Members;
      var firstBin := Bin(totalSize);
      var index := firstBin;
      while index < BIN_COUNT
        invariant firstBin <= index <= BIN_COUNT
        invariant forall h :: firstBin <= h < index ==> NoneFits(lists[h], m.size, totalSize)
      {
        ghost var k;
        block, k := FirstInBin(index, totalSize);
        if block != NULL {
          assert FirstFitting(lists, m.size, firstBin, totalSize, index, k);
          return;
        }
        index := index + 1;
      }
      block := NULL;
      forall b | b in free && 0 <= b < L.end ensures m.size[b] < totalSize {
        NothingFits(totalSize, firstBin, b);
      }
    }

    lemma NothingFits(totalSize: nat, firstBin: nat, b: int)
      requires m.Shape(L) && BinsHold(free) && b in free && 0 <= b < L.end && firstBin == BinOf(totalSize, L.sizeMax)
      requires forall h :: firstBin <= h < BIN_COUNT ==> NoneFits(lists[h], m.size, totalSize)
      ensures m.size[b] < totalSize
    {
      var i := BinOf(m.size[b], L.sizeMax);
      assert firstBin <= i ==> NoneFits(lists[i], m.size, totalSize);
      if m.size[b] >= totalSize {
        BinMonotone(totalSize, m.size[b], L.sizeMax);
      }
    }

    /** The walk along one bin. */
    method FirstInBin(index: nat, totalSize: nat) returns (block: int, ghost k: nat)
      requires m.Shape(L) && BinsHold(free) && index < BIN_COUNT
      ensures block == NULL ==> NoneFits(lists[index], m.size, totalSize)
      ensures block != NULL ==> block in free && 0 <= block < L.end && m.size[block] >= totalSize && FirstOf(lists[index], m.size, totalSize, k) && lists[index][k] == block
    {
      hide HeapArena.Chain;
      ChainHead(lists[index], m.bins[index], m.freeNext, m.freePrevious);
      block := m.bins[index];
      k := 0;
      while block != NULL
        invariant 0 <= k <= |lists[index]| && block == At(lists[index], k)
        invariant forall j :: 0 <= j < k ==> !Fits(m.size, lists[index][j], totalSize)
        decreases |lists[index]| - k
      {
        ChainMember(lists[index], m.bins[index], m.freeNext, m.freePrevious, k);
        if m.size[block] >= totalSize {
          return;
        }
        block := m.freeNext[block];
        k := k + 1;
      }
      if k < |lists[index]| {
        ChainMember(lists[index], m.bins[index], m.freeNext, m.freePrevious, k);
      }
    }

    // ---------- references ----------

    method Retain(value: int) returns (outcome: Outcome)
      requires Valid() && (value == NULL || value - L.headerSize in used + free)
      modifies `m, `external
      ensures outcome.Done? <==>
                value == NULL ||
                (value - L.headerSize in used && var r := old(m.references[value - L.headerSize]); r != 0 && r != UINT32_MAX)
      ensures outcome.Defect? ==> m == old(m) && external == old(external)
      ensures outcome.Done? ==> Valid() && external == old(external) + if value == NULL then multiset{} else multiset{value}
      ensures m == old(m).(references := m.references)
    {
      hide HeapArena.Arena, HeapArena.Bins, HeapGraph.Exact, Graph.Closed, Graph.Count;
      if value == NULL {
        assert external + multiset{} == external;
        return Done;
      }
      ArenaBlock(L, used, free, m.size, m.previousSize, m.isFree, value - L.headerSize);
      var block := value - L.headerSize;
      ghost var g, references := G(), m.references;
      if m.isFree[block] || m.references[block] == 0 {
        return Defect(INVALID_REFERENCE_MESSAGE);
      }
      if m.references[block] == UINT32_MAX {
        return Defect(REFERENCE_OVERFLOW_MESSAGE);
      }
      m := m.(references := m.references[block := m.references[block] + 1]);
      external := external + multiset{value};
      outcome := Done;
      ExactAt(g, references, block);
      ExactAfterExternal(g, G(), references, m.references, block);
    }

    /** `emela_heap_enqueue`, in all four trace modes. */
    method Enqueue(value: int, pending: int, tail: int, ghost queue: seq<int>)
      returns (pending': int, tail': int, ghost queue': seq<int>, outcome: Outcome)
      requires m.Shape(L) && (value == NULL || 0 <= value - L.headerSize < L.end)
      requires pending == First(queue) && tail == Last(queue) && forall b :: b in queue ==> 0 <= b < L.end
      modifies `m
      ensures outcome.Done? <==> VisitOk(Trace(old(m), queue), L, traceMode, value)
      ensures outcome.Done? ==>
                && Trace(m, queue') == Visit(Trace(old(m), queue), L, traceMode, value)
                && pending' == First(queue') && tail' == Last(queue')
      ensures outcome.Defect? ==> m == old(m) && pending' == pending && tail' == tail && queue' == queue
      ensures m.Shape(L)
    {
      pending', tail', queue', outcome := pending, tail, queue, Done;
      if queue != [] {
        assert First(queue) in queue && Last(queue) in queue;
      }
      if value == NULL {
        return;
      }
      var block := value - L.headerSize;
      if m.isFree[block] || m.references[block] == 0 {
        outcome := Defect(INVALID_REFERENCE_MESSAGE);
        return;
      }
      if traceMode == TRIAL {
        if m.gcReferences[block] == 0 {
          outcome := Defect(INVALID_GRAPH_MESSAGE);
          return;
        }
        m := m.(gcReferences := m.gcReferences[block := m.gcReferences[block] - 1]);
        return;
      }
      if traceMode == MARK {
        if m.gcState[block] == 0 {
          m := m.(gcState := m.gcState[block := 1]);
        }
        return;
      }
      if traceMode == DETACH && m.gcState[block] == 0 {
        return;
      }
      m := m.(references := m.references[block := m.references[block] - 1]);
      if m.references[block] == 0 {
        m := m.(freeNext := m.freeNext[block := NULL]);
        if tail == NULL {
          pending' := block;
        } else {
          m := m.(freeNext := m.freeNext[tail := block]);
        }
        tail' := block;
        queue' := queue + [block];
      }
    }

    /** `emela_heap_destroy`: passes every reference of the block to `Enqueue`, in order. */
    method Destroy(block: int, pending: int, tail: int, ghost queue: seq<int>)
      returns (pending': int, tail': int, ghost queue': seq<int>, outcome: Outcome)
      requires m.Shape(L) && 0 <= block < L.end
      requires forall v :: v in m.payload[block] ==> v == NULL || 0 <= v - L.headerSize < L.end
      requires pending == First(queue) && tail == Last(queue) && forall b :: b in queue ==> 0 <= b < L.end
      modifies `m
      ensures m.Shape(L)
      ensures outcome.Done? <==> VisitsOk(Trace(old(m), queue), L, traceMode, old(m.payload[block]))
      ensures outcome.Done? ==>
                && Trace(m, queue') == Visits(Trace(old(m), queue), L, traceMode, old(m.payload[block]))
                && pending' == First(queue') && tail' == Last(queue')
    {
      pending', tail', queue', outcome := pending, tail, queue, Done;
      var refs := m.payload[block];
      var i := 0;
      assert refs[0..] == refs;
      while i < |refs|
        invariant 0 <= i <= |refs| && m.Shape(L) && outcome.Done?
        invariant pending' == First(queue') && tail' == Last(queue') && forall b :: b in queue' ==> 0 <= b < L.end
        invariant VisitsOk(Trace(old(m), queue), L, traceMode, refs) <==> VisitsOk(Trace(m, queue'), L, traceMode, refs[i..])
        invariant VisitsOk(Trace(m, queue'), L, traceMode, refs[i..]) ==>
                    Visits(Trace(old(m), queue), L, traceMode, refs) == Visits(Trace(m, queue'), L, traceMode, refs[i..])
      {
        assert refs[i] in refs && refs[i..][0] == refs[i] && refs[i..][1..] == refs[i + 1..];
        pending', tail', queue', outcome := Enqueue(refs[i], pending', tail', queue');
        if outcome.Defect? {
          return;
        }
        i := i + 1;
      }
    }

    /** The values stored in a used block refer to used blocks only. */
    lemma StoredTargets(block: int)
      requires m.Shape(L) && ArenaOk() && G().Closed() && block in used
      ensures 0 <= block < L.end && Targets(m, L, used, m.payload[block])
      ensures forall v :: v in m.payload[block] ==> v == NULL || 0 <= v - L.headerSize < L.end
    {
      ArenaBlock(L, used, free, m.size, m.previousSize, m.isFree, block);
      forall b | b in used ensures 0 <= b < L.end && !m.isFree[b] {
        ArenaBlock(L, used, free, m.size, m.previousSize, m.isFree, b);
      }
    }

    /** One turn of the loop of `emela_heap_drain`. */
    method DrainOne(pending: int, tail: int, ghost queue: seq<int>)
      returns (pending': int, tail': int, ghost queue': seq<int>)
      requires m.Shape(L) && ArenaOk() && BinsHold(free) && GraphOk() && traceMode == RELEASE
      requires pending == First(queue) && tail == Last(queue) && Threaded(queue, m.freeNext) && pending != NULL
      requires forall b :: b in queue ==> b in used && 0 <= b < L.end && m.references[b] == 0
      modifies `m, `lists, `used, `free
      ensures m.Shape(L) && ArenaOk() && BinsHold(free) && GraphOk()
      ensures pending' == First(queue') && tail' == Last(queue') && Threaded(queue', m.freeNext)
      ensures forall b :: b in queue' ==> b in used && 0 <= b < L.end && m.references[b] == 0
      ensures used == old(used) - {pending} && pending in old(used)
      ensures G().Live() == old(G().Live()) && m.payload == old(m.payload)
      ensures forall b :: b in used && 0 <= b < L.end ==>
                m.size[b] == old(m.size[b]) && m.kind[b] == old(m.kind[b]) &&
                (m.references[b] == 0 ==> b in queue' || (old(m.references[b] == 0) && b !in queue))
    {
      hide HeapArena.Arena, HeapArena.Bins, HeapGraph.Exact, Graph.Closed, Graph.Count, Graph.Reachable,
        HeapTrace.Visit, HeapTrace.Visits, HeapTrace.VisitsOk, HeapTrace.Targets;
      ghost var g, references := G(), m.references;
      ghost var rest := queue[1..];
      ThreadedPop(queue, m.freeNext);
      var block := pending;
      pending' := m.freeNext[block];
      tail' := if pending' == NULL then NULL else tail;
      StoredTargets(block);
      ghost var refs := m.payload[block];
      forall b | b in used ensures m.references[b] >= Uses(L, refs, b) {
        ReleaseCovered(g, references, block, b);
      }
      forall b | b in free ensures b !in used {
        ArenaBlock(L, used, free, m.size, m.previousSize, m.isFree, b);
      }
      ReleaseVisits(Trace(m, rest), L, used, refs);
      var outcome;
      pending', tail', queue', outcome := Destroy(block, pending', tail', rest);
      BinsFrame(L, free, m.size, m.bins, lists, old(m.freeNext), m.freePrevious, m.size, m.freeNext, m.freePrevious);
      ghost var before, visited := m.freeNext, m.references;
      var merged := FreeBlock(block);
      LinkedFrame(queue', before, 1, m.freeNext);
      ExactAfterRelease(g, references, m.references, block);
    }

    /** `emela_heap_drain` before it looks for cycles: frees the queued blocks and, in turn, every
        block that loses its last reference on the way.  All of them were dead; the rest keep exact
        counts. */
    method Drain(pending: int, tail: int, ghost queue: seq<int>) returns (outcome: Outcome)
      requires m.Shape(L) && (if initialized then ArenaOk() else queue == []) && BinsHold(free) && GraphOk() && traceMode == RELEASE
      requires pending == First(queue) && tail == Last(queue) && Threaded(queue, m.freeNext)
      requires forall b :: b in queue ==> b in used && 0 <= b < L.end && m.references[b] == 0
      modifies `m, `lists, `used, `free
      ensures m.Shape(L) && (if initialized then ArenaOk() else free == old(free)) && BinsHold(free) && GraphOk() && outcome.Done?
      ensures used <= old(used) && G().Live() == old(G().Live()) && m.payload == old(m.payload)
      ensures forall b :: b in used && 0 <= b < L.end ==>
                m.size[b] == old(m.size[b]) && m.kind[b] == old(m.kind[b]) && (m.references[b] == 0 ==> old(m.references[b] == 0) && b !in queue)
    {
      hide HeapArena.Arena, HeapArena.Bins, HeapGraph.Exact, Graph.Closed, Graph.Count, Graph.Reachable, HeapTrace.Threaded;
      var pending', tail' := pending, tail;
      ghost var queue' := queue;
      while pending' != NULL
        invariant m.Shape(L) && (if initialized then ArenaOk() else queue' == [] && free == old(free)) && BinsHold(free) && GraphOk()
        invariant pending' == First(queue') && tail' == Last(queue') && Threaded(queue', m.freeNext)
        invariant forall b :: b in queue' ==> b in used && 0 <= b < L.end && m.references[b] == 0
        invariant used <= old(used) && G().Live() == old(G().Live()) && m.payload == old(m.payload)
        invariant forall b :: b in used && 0 <= b < L.end ==>
                    m.size[b] == old(m.size[b]) && m.kind[b] == old(m.kind[b]) &&
                    (m.references[b] == 0 ==> b in queue' || (old(m.references[b] == 0) && b !in queue))
        decreases used
      {
        pending', tail', queue' := DrainOne(pending', tail', queue');
      }
      if queue' != [] {
        FirstIsQueued(queue');
      }
      outcome := Done;
    }

    // ---------- the cycle collector ----------

    /** A cursor of a walk over the arena. */
    ghost predicate AtBlock(cursor: int)
      reads this
    {
      cursor == L.end || cursor in used + free
    }

    /** Loop 1: trial counts start from the reference counts, nothing is marked. */
    method ResetTrial()
      requires m.Shape(L) && ArenaOk()
      modifies `m
      ensures m.Shape(L) && m == old(m).(gcReferences := m.gcReferences, gcState := m.gcState)
      ensures forall b :: b in used && 0 <= b < L.end ==> m.gcReferences[b] == m.references[b] && m.gcState[b] == 0
    {
      hide HeapArena.Arena;
      StartsAtZero();
      var cursor := 0;
      while cursor < L.end
        invariant 0 <= cursor <= L.end && AtBlock(cursor)
        invariant m.Shape(L) && m == old(m).(gcReferences := m.gcReferences, gcState := m.gcState)
        invariant forall b :: b in used && 0 <= b < cursor ==> m.gcReferences[b] == m.references[b] && m.gcState[b] == 0
      {
        ArenaNext(L, used, free, m.size, m.previousSize, m.isFree, cursor);
        if !m.isFree[cursor] {
          m := m.(gcReferences := m.gcReferences[cursor := m.references[cursor]]);
          m := m.(gcState := m.gcState[cursor := 0]);
        }
        cursor := cursor + m.size[cursor];
      }
    }

    lemma StartsAtZero()
      requires ArenaOk()
      ensures AtBlock(0)
    {
    }

    /** Loop 2: every reference stored in the heap takes one off its target's trial count, which
        leaves the references from outside. */
    method TrialCount() returns (outcome: Outcome)
      requires m.Shape(L) && ArenaOk() && G().Closed() && Exact(G(), m.references) && traceMode == TRIAL
      requires forall b :: b in used && 0 <= b < L.end ==> m.gcReferences[b] == m.references[b]
      modifies `m
      ensures outcome.Done?
      ensures m.Shape(L) && m == old(m).(gcReferences := m.gcReferences)
      ensures forall b :: b in used && 0 <= b < L.end ==> m.gcReferences[b] == external[G().Value(b)]
    {
      hide HeapArena.Arena, HeapGraph.Exact, Graph.Closed, Graph.InRefs;
      StartsAtZero();
      ghost var g := G();
      outcome := Done;
      var cursor := 0;
      assert g.InRefs(0) == multiset{} by { InRefsNone(g); }
      while cursor < L.end
        invariant 0 <= cursor <= L.end && AtBlock(cursor) && outcome.Done?
        invariant m.Shape(L) && m == old(m).(gcReferences := m.gcReferences)
        invariant forall b :: b in used && 0 <= b < L.end ==> m.gcReferences[b] == m.references[b] - g.InRefs(cursor)[g.Value(b)]
      {
        outcome := TrialOne(cursor);
        cursor := cursor + m.size[cursor];
      }
      forall b | b in used && 0 <= b < L.end ensures m.gcReferences[b] == external[g.Value(b)] {
        ExactAt(g, m.references, b);
      }
    }

    method TrialOne(cursor: int) returns (outcome: Outcome)
      requires m.Shape(L) && ArenaOk() && G().Closed() && Exact(G(), m.references) && traceMode == TRIAL
      requires cursor in used + free && 0 <= cursor < L.end
      requires forall b :: b in used && 0 <= b < L.end ==> m.gcReferences[b] == m.references[b] - G().InRefs(cursor)[G().Value(b)]
      modifies `m
      ensures outcome.Done?
      ensures m.Shape(L) && m == old(m).(gcReferences := m.gcReferences)
      ensures cursor < cursor + m.size[cursor] <= L.end && AtBlock(cursor + m.size[cursor])
      ensures forall b :: b in used && 0 <= b < L.end ==>
                m.gcReferences[b] == m.references[b] - G().InRefs(cursor + m.size[cursor])[G().Value(b)]
    {
      hide HeapArena.Arena, HeapGraph.Exact, Graph.Closed, Graph.InRefs;
      outcome := Done;
      ArenaNext(L, used, free, m.size, m.previousSize, m.isFree, cursor);
      ghost var g, next, references := G(), cursor + m.size[cursor], m.references;
      if !m.isFree[cursor] {
        StoredTargets(cursor);
        ghost var refs := m.payload[cursor];
        forall b | b in used
          ensures 0 <= b < L.end && m.gcReferences[b] >= Uses(L, refs, b)
          ensures g.InRefs(next)[g.Value(b)] == g.InRefs(cursor)[g.Value(b)] + Uses(L, refs, b)
          ensures Uses(L, refs, b) > 0 ==> m.references[b] != 0
        {
          CountCovers(g, references, cursor, next, b);
        }
        TrialVisits(Trace(m, []), L, used, refs);
        var pending, tail;
        ghost var queue;
        pending, tail, queue, outcome := Destroy(cursor, NULL, NULL, []);
      } else {
        ArenaBlock(L, used, free, m.size, m.previousSize, m.isFree, cursor);
        InRefsGap(g, cursor, next);
      }
    }

    /** Loop 3: what is held from outside is grey. */
    method MarkRoots()
      requires m.Shape(L) && ArenaOk()
      requires forall b :: b in used && 0 <= b < L.end ==> m.gcReferences[b] == external[G().Value(b)] && m.gcState[b] == 0
      modifies `m
      ensures m.Shape(L) && m == old(m).(gcState := m.gcState)
      ensures MarkOk(G(), m.gcState)
    {
      hide HeapArena.Arena, HeapGraph.MarkOk;
      StartsAtZero();
      ghost var g := G();
      var cursor := 0;
      while cursor < L.end
        invariant 0 <= cursor <= L.end && AtBlock(cursor)
        invariant m.Shape(L) && m == old(m).(gcState := m.gcState)
        invariant forall b :: b in used && 0 <= b < L.end ==>
                    m.gcState[b] == if b < cursor && m.gcReferences[b] != 0 then 1 else 0
      {
        ArenaNext(L, used, free, m.size, m.previousSize, m.isFree, cursor);
        if !m.isFree[cursor] && m.gcReferences[cursor] != 0 {
          m := m.(gcState := m.gcState[cursor := 1]);
        }
        cursor := cursor + m.size[cursor];
      }
      forall b | b in g.blocks ensures 0 <= b < |m.gcState| && m.gcState[b] == if g.external[g.Value(b)] != 0 then 1 else 0 {
        ArenaBlock(L, used, free, m.size, m.previousSize, m.isFree, b);
        assert m.gcReferences[b] == external[G().Value(b)];
      }
      MarkStart(g, m.gcState);
    }

    /** Loop 4: visits grey blocks until none is left. */
    method MarkReachable()
      requires m.Shape(L) && ArenaOk() && G().Closed() && Exact(G(), m.references) && traceMode == MARK
      requires MarkOk(G(), m.gcState)
      modifies `m
      ensures m.Shape(L) && m == old(m).(gcState := m.gcState)
      ensures forall b :: b in used && 0 <= b < L.end ==> (m.gcState[b] != 0 <==> b in G().Live())
    {
      hide HeapArena.Arena, HeapGraph.Exact, Graph.Closed, HeapGraph.MarkOk, Graph.Reachable, HeapTrace.Threaded,
        HeapTrace.Visit, HeapTrace.Visits, HeapTrace.VisitsOk, HeapTrace.Targets;
      ghost var g := G();
      var changed := true;
      while changed
        invariant m.Shape(L) && m == old(m).(gcState := m.gcState) && MarkOk(g, m.gcState)
        invariant !changed ==> forall b :: b in used && 0 <= b < L.end ==> m.gcState[b] != 1
        decreases used - Black(g, m.gcState), changed
      {
        changed := MarkPass();
      }
      MarkDone(g, m.gcState);
    }

    method MarkPass() returns (changed: bool)
      requires m.Shape(L) && ArenaOk() && G().Closed() && Exact(G(), m.references) && traceMode == MARK
      requires MarkOk(G(), m.gcState)
      modifies `m
      ensures m.Shape(L) && m == old(m).(gcState := m.gcState) && MarkOk(G(), m.gcState)
      ensures if changed then used - Black(G(), m.gcState) < used - Black(G(), old(m.gcState))
              else m.gcState == old(m.gcState) && forall b :: b in used && 0 <= b < L.end ==> m.gcState[b] != 1
    {
      hide HeapArena.Arena, HeapGraph.Exact, Graph.Closed, HeapGraph.MarkOk, Graph.Reachable, HeapTrace.Threaded,
        HeapTrace.Visit, HeapTrace.Visits, HeapTrace.VisitsOk, HeapTrace.Targets;
      StartsAtZero();
      ghost var g := G();
      changed := false;
      var cursor := 0;
      while cursor < L.end
        invariant 0 <= cursor <= L.end && AtBlock(cursor)
        invariant m.Shape(L) && m == old(m).(gcState := m.gcState) && MarkOk(g, m.gcState)
        invariant if changed then used - Black(g, m.gcState) < used - Black(g, old(m.gcState))
                  else m.gcState == old(m.gcState) && forall b :: b in used && 0 <= b < cursor ==> m.gcState[b] != 1
      {
        var visited := MarkOne(cursor);
        changed := changed || visited;
        ArenaNext(L, used, free, m.size, m.previousSize, m.isFree, cursor);
        cursor := cursor + m.size[cursor];
      }
    }

    method MarkOne(cursor: int) returns (visited: bool)
      requires m.Shape(L) && ArenaOk() && G().Closed() && Exact(G(), m.references) && traceMode == MARK
      requires MarkOk(G(), m.gcState) && cursor in used + free && 0 <= cursor < L.end
      modifies `m
      ensures m.Shape(L) && m == old(m).(gcState := m.gcState) && MarkOk(G(), m.gcState)
      ensures visited <==> cursor in used && old(m.gcState[cursor]) == 1
      ensures if visited then used - Black(G(), m.gcState) < used - Black(G(), old(m.gcState)) else m == old(m)
    {
      hide HeapArena.Arena, HeapGraph.Exact, Graph.Closed, HeapGraph.MarkOk, Graph.Reachable, HeapTrace.Threaded,
        HeapTrace.Visit, HeapTrace.Visits, HeapTrace.VisitsOk, HeapTrace.Targets;
      ArenaNext(L, used, free, m.size, m.previousSize, m.isFree, cursor);
      ghost var g, references, state := G(), m.references, m.gcState;
      visited := !m.isFree[cursor] && m.gcState[cursor] == 1;
      if visited {
        m := m.(gcState := m.gcState[cursor := 2]);
        StoredTargets(cursor);
        ghost var refs := m.payload[cursor];
        forall b | b in used ensures Uses(L, refs, b) > 0 ==> m.references[b] != 0 {
          ReleaseCovered(g, references, cursor, b);
        }
        MarkVisits(Trace(m, []), L, used, refs);
        var pending, tail, outcome;
        ghost var queue;
        pending, tail, queue, outcome := Destroy(cursor, NULL, NULL, []);
        MarkStep(g, state, m.gcState, cursor);
        assert cursor in used - Black(g, state) && cursor !in used - Black(g, m.gcState);
      }
    }

    /** Loop 5: the dead blocks give back the references they hold on survivors; no survivor loses
        its last one, so nothing is queued. */
    method Detach() returns (outcome: Outcome)
      requires m.Shape(L) && ArenaOk() && G().Closed() && Exact(G(), m.references) && traceMode == DETACH
      requires forall b :: b in used && 0 <= b < L.end ==> (m.gcState[b] != 0 <==> b in G().Live())
      modifies `m
      ensures outcome.Done?
      ensures m.Shape(L) && m == old(m).(references := m.references)
      ensures forall b :: b in G().Live() && 0 <= b < L.end ==> 0 < m.references[b] <= old(m.references[b])
      ensures Exact(G().(blocks := G().Live()), m.references) && G().(blocks := G().Live()).Closed()
    {
      hide HeapArena.Arena, HeapGraph.Exact, Graph.Closed, Graph.InRefs, Graph.Reachable;
      StartsAtZero();
      ghost var g, references := G(), m.references;
      outcome := Done;
      var cursor := 0;
      InRefsNone(Dead(g));
      while cursor < L.end
        invariant 0 <= cursor <= L.end && AtBlock(cursor) && outcome.Done?
        invariant m.Shape(L) && m == old(m).(references := m.references)
        invariant forall b :: b in used && 0 <= b < L.end ==>
                    m.references[b] == references[b] - if b in g.Live() then Dead(g).InRefs(cursor)[g.Value(b)] else 0
      {
        outcome := DetachOne(cursor, references);
        cursor := cursor + m.size[cursor];
      }
      forall b | b in g.Live() && 0 <= b < L.end ensures 0 < m.references[b] <= old(m.references[b]) {
        ExactAt(g, references, b);
        LiveCountExceedsDead(g, b);
      }
      ExactAfterDetach(g, references, m.references);
    }

    method DetachOne(cursor: int, ghost references: seq<int>) returns (outcome: Outcome)
      requires m.Shape(L) && ArenaOk() && G().Closed() && Exact(G(), references) && |references| == L.end && traceMode == DETACH
      requires forall b :: b in used && 0 <= b < L.end ==> (m.gcState[b] != 0 <==> b in G().Live())
      requires cursor in used + free && 0 <= cursor < L.end
      requires forall b :: b in used && 0 <= b < L.end ==>
                 m.references[b] == references[b] - if b in G().Live() then Dead(G()).InRefs(cursor)[G().Value(b)] else 0
      modifies `m
      ensures outcome.Done?
      ensures m.Shape(L) && m == old(m).(references := m.references)
      ensures cursor < cursor + m.size[cursor] <= L.end && AtBlock(cursor + m.size[cursor])
      ensures forall b :: b in used && 0 <= b < L.end ==>
                m.references[b] == references[b] - if b in G().Live() then Dead(G()).InRefs(cursor + m.size[cursor])[G().Value(b)] else 0
    {
      hide HeapArena.Arena, HeapGraph.Exact, Graph.Closed, Graph.InRefs, Graph.Reachable;
      outcome := Done;
      ArenaNext(L, used, free, m.size, m.previousSize, m.isFree, cursor);
      ghost var g, next := G(), cursor + m.size[cursor];
      if !m.isFree[cursor] && m.gcState[cursor] == 0 {
        StoredTargets(cursor);
        ghost var refs := m.payload[cursor];
        forall b | b in used
          ensures b in g.Live() ==> Dead(g).InRefs(next)[g.Value(b)] == Dead(g).InRefs(cursor)[g.Value(b)] + Uses(L, refs, b)
          ensures b in g.Live() ==> m.references[b] > Uses(L, refs, b)
          ensures b !in g.Live() && Uses(L, refs, b) > 0 ==> m.references[b] != 0
        {
          if b in g.Live() {
            SurvivorStaysHeld(g, references, cursor, next, b);
          } else {
            ReleaseCovered(g, references, cursor, b);
          }
        }
        DetachVisits(Trace(m, []), L, used, refs);
        var pending, tail;
        ghost var queue;
        pending, tail, queue, outcome := Destroy(cursor, NULL, NULL, []);
      } else {
        InRefsGap(Dead(g), cursor, next);
      }
    }

    /** Loop 6: frees the dead blocks, wherever coalescing takes the cursor. */
    method Sweep(ghost live: set<int>)
      requires m.Shape(L) && ArenaOk() && BinsHold(free)
      requires live <= used && forall b :: b in used && 0 <= b < L.end ==> (m.gcState[b] != 0 <==> b in live)
      modifies `m, `lists, `used, `free
      ensures m.Shape(L) && ArenaOk() && BinsHold(free) && used == live && m.payload == old(m.payload)
      ensures forall b :: b in live && 0 <= b < L.end ==>
                m.size[b] == old(m.size[b]) && m.references[b] == old(m.references[b]) && m.kind[b] == old(m.kind[b])
    {
      hide HeapArena.Arena, HeapArena.Bins;
      StartsAtZero();
      forall b | b in used ensures 0 <= b {
        ArenaBlock(L, used, free, m.size, m.previousSize, m.isFree, b);
      }
      var cursor := 0;
      while cursor < L.end
        invariant 0 <= cursor <= L.end && AtBlock(cursor)
        invariant m.Shape(L) && ArenaOk() && BinsHold(free) && m.payload == old(m.payload)
        invariant live <= used && forall b :: b in used ==> b in live || b >= cursor
        invariant forall b :: b in used && 0 <= b < L.end ==>
                    (m.gcState[b] != 0 <==> b in live) && m.size[b] == old(m.size[b]) &&
                    m.references[b] == old(m.references[b]) && m.kind[b] == old(m.kind[b])
        decreases L.end - cursor
      {
        ArenaNext(L, used, free, m.size, m.previousSize, m.isFree, cursor);
        var block := cursor;
        if !m.isFree[block] && m.gcState[block] == 0 {
          block := FreeBlock(block);
          ArenaNext(L, used, free, m.size, m.previousSize, m.isFree, block);
        }
        cursor := block + m.size[block];
      }
      forall b | b in used ensures b in live {
        ArenaBlock(L, used, free, m.size, m.previousSize, m.isFree, b);
      }
    }

    /** `emela_heap_collect_cycles`: frees exactly the blocks that no external reference leads to.
        No survivor's count reaches zero on the way, no invalid reference is met, and the counts end
        up exact. */
    method CollectCycles() returns (outcome: Outcome)
      requires Valid()
      modifies `m, `lists, `used, `free, `traceMode
      ensures outcome.Done? && Valid()
      ensures used == old(G().Live()) && m.payload == old(m.payload)
      ensures forall b :: b in used && 0 <= b < L.end ==> m.size[b] == old(m.size[b]) && m.kind[b] == old(m.kind[b])
    {
      hide HeapArena.Arena, HeapArena.Bins, HeapGraph.Exact, Graph.Closed, Graph.Reachable, HeapGraph.MarkOk;
      outcome := Done;
      if !initialized || traceMode != RELEASE {
        return;
      }
      ghost var g := G();
      ResetTrial();
      traceMode := TRIAL;
      outcome := TrialCount();
      MarkRoots();
      traceMode := MARK;
      MarkReachable();
      traceMode := DETACH;
      outcome := Detach();
      ghost var detached := m.references;
      Sweep(g.Live());
      traceMode := RELEASE;
      assert G() == g.(blocks := g.Live());
      ExactFrame(G(), detached, m.references);
    }

    // ---------- releasing ----------

    /** Gives up one external reference; a value whose block is free is a defect.  With the cycle collector, or as long as the references in
        the heap form no cycle, exactly the blocks that no remaining external reference leads to are
        freed; the other blocks stay as they were, with exact counts. */
    method Release(value: int) returns (outcome: Outcome)
      requires Valid() && (value == NULL || value in external || value - L.headerSize in free)
      modifies `m, `lists, `used, `free, `traceMode, `external
      ensures Valid() && (outcome.Defect? <==> value != NULL && value - L.headerSize in old(free))
      ensures outcome.Defect? ==> m == old(m) && external == old(external) && used == old(used)
      ensures outcome.Done? ==> external == old(external) - if value == NULL then multiset{} else multiset{value}
      ensures used <= old(used) && m.payload == old(m.payload)
      ensures outcome.Done? ==> G().Live() == old(G()).(external := external).Live()
      ensures outcome.Done? && (cycles || old(G()).(external := external).Acyclic()) ==> used == old(G()).(external := external).Live()
      ensures forall b :: b in used && 0 <= b < L.end ==> m.size[b] == old(m.size[b]) && m.kind[b] == old(m.kind[b])
    {
      hide HeapArena.Arena, HeapArena.Bins, HeapGraph.Exact, Graph.Closed, Graph.Count, Graph.Reachable, Graph.Acyclic;
      var pending, tail;
      ghost var queue;
      pending, tail, queue, outcome := ReleaseOne(value);
      if outcome.Defect? {
        return;
      }
      ghost var h := G();
      outcome := Drain(pending, tail, queue);
      if h.Acyclic() {
        AcyclicPart(h, used);
        assert G() == h.(blocks := used);
        forall b | b in used ensures G().Count(b) > 0 {
          ExactAt(G(), m.references, b);
        }
        AcyclicCountedIsLive(G());
      }
      if cycles && traceMode == RELEASE {
        outcome := CollectCycles();
        LiveOfLive(h);
      }
    }

    method ReleaseOne(value: int) returns (pending: int, tail: int, ghost queue: seq<int>, outcome: Outcome)
      requires Valid() && (value == NULL || value in external || value - L.headerSize in free)
      modifies `m, `external
      ensures m.Shape(L) && m == old(m).(references := m.references, freeNext := m.freeNext)
      ensures outcome.Defect? <==> value != NULL && value - L.headerSize in free
      ensures outcome.Defect? ==> m == old(m) && external == old(external)
      ensures BinsHold(free) && GraphOk()
      ensures outcome.Done? ==> external == old(external) - if value == NULL then multiset{} else multiset{value}
      ensures pending == First(queue) && tail == Last(queue) && Threaded(queue, m.freeNext)
      ensures outcome.Done? ==> forall b :: b in used && 0 <= b < L.end ==> (m.references[b] == 0 <==> b in queue)
      ensures forall b :: b in queue ==> b in used && 0 <= b < L.end
      ensures !initialized ==> queue == []
    {
      hide HeapArena.Arena, HeapArena.Bins, HeapGraph.Exact, Graph.Count, Graph.Reachable, Graph.Closed, HeapTrace.Threaded;
      pending, tail, queue, outcome := NULL, NULL, [], Done;
      ghost var g, references := G(), m.references;
      ThreadedNothing(m.freeNext);
      if value == NULL {
        assert external - multiset{} == external;
        return;
      }
      ghost var b := value - L.headerSize;
      if b !in free {
        HeldIsBlock(g, value);
        ExactAt(g, references, b);
        CountHeld(g, b);
      }
      ArenaBlock(L, used, free, m.size, m.previousSize, m.isFree, b);
      pending, tail, queue, outcome := EnqueueFirst(value);
      if outcome.Defect? {
        return;
      }
      external := external - multiset{value};
      forall c | c in free ensures c != b {
        ArenaBlock(L, used, free, m.size, m.previousSize, m.isFree, c);
      }
      BinsFrame(L, free, m.size, m.bins, lists, old(m.freeNext), m.freePrevious, m.size, m.freeNext, m.freePrevious);
      assert external + multiset{value} == old(external);
      ExactAfterExternal(g, G(), references, m.references, b);
    }

    /** Giving up a reference with nothing queued. */
    method EnqueueFirst(value: int) returns (pending: int, tail: int, ghost queue: seq<int>, outcome: Outcome)
      requires m.Shape(L) && traceMode == RELEASE && 0 <= value - L.headerSize < L.end && value != NULL
      modifies `m
      ensures m.Shape(L) && m == old(m).(references := m.references, freeNext := m.freeNext)
      ensures outcome.Done? <==> old(!m.isFree[value - L.headerSize] && m.references[value - L.headerSize] != 0)
      ensures outcome.Defect? ==> m == old(m) && queue == []
      ensures var b := value - L.headerSize;
              outcome.Done? ==>
              && m.references == old(m.references)[b := old(m.references[b]) - 1]
              && (forall c :: 0 <= c < L.end && c != b ==> m.freeNext[c] == old(m.freeNext[c]))
              && queue == if m.references[b] == 0 then [b] else []
      ensures pending == First(queue) && tail == Last(queue) && Threaded(queue, m.freeNext)
    {
      ghost var b := value - L.headerSize;
      ThreadedNothing(m.freeNext);
      pending, tail, queue, outcome := Enqueue(value, NULL, NULL, []);
      if outcome.Done? && queue != [] {
        ThreadedAppend([], old(m.freeNext), b);
      }
    }

    /** The mutator overwrites the references in a payload, taking the new ones from and handing the
        old ones to the outside. */
    method StorePayload(block: int, refs: seq<int>)
      requires Valid() && block in used && 0 <= block < L.end
      requires forall v :: v in refs ==> v == NULL || v - L.headerSize in used
      requires multiset(refs)[NULL := 0] <= external + multiset(m.payload[block])[NULL := 0]
      modifies `m, `external
      ensures Valid() && m == old(m).(payload := old(m.payload)[block := refs])
      ensures external == old(external) + multiset(old(m.payload[block]))[NULL := 0] - multiset(refs)[NULL := 0]
    {
      hide HeapArena.Arena, HeapArena.Bins, HeapGraph.Exact, Graph.Count, Graph.Reachable;
      ghost var g := G();
      forall b | b in used ensures 0 <= b {
        ArenaBlock(L, used, free, m.size, m.previousSize, m.isFree, b);
      }
      external := external + multiset(m.payload[block])[NULL := 0] - multiset(refs)[NULL := 0];
      m := m.(payload := m.payload[block := refs]);
      forall v | v < 0 ensures external[v] == 0 {
        assert !g.Held(v);
        if v in multiset(g.payload[block]) {
          assert v in g.payload[block];
        }
      }
      forall v | external[v] > 0 ensures v >= 0 && (g.external[v] > 0 || v in g.payload[block]) {
        assert v in multiset(g.payload[block]) ==> v in g.payload[block];
      }
      ClosedAfterStore(g, G(), block, refs);
      ExactAfterStore(g, G(), m.references, block, refs);
    }

    /** When nothing is allocated any more, the arena is one free block again. */
    lemma EmptyHeapIsOneBlock()
      requires Valid() && initialized && used == {}
      ensures free == {0} && m.size[0] == L.end
    {
      ArenaBlock(L, used, free, m.size, m.previousSize, m.isFree, 0);
      forall b | b in free ensures b == 0 {
        ArenaBlock(L, used, free, m.size, m.previousSize, m.isFree, b);
      }
    }
  }
}
