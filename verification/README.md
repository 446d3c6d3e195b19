# Verified models of Emela's runtimes and code generators

Emela compiles to C, for hosted programs and for microcontrollers, and both backends carry a runtime. This
project models five hard pieces of them in Dafny and proves what they promise.

- `heap/` is the fixed heap of the embedded runtime (`heap.rs`): a boundary-tag allocator with 32 size bins,
  reference counting with a non-recursive drain queue, and an in-place cycle collector. Every operation keeps
  the arena exactly tiled, the bins and counts exact; releasing a reference frees exactly the blocks nothing
  leads to any more.
- `float/` is the exact conversion between binary64 and decimal text (`float_parse.rs`, `float_to_string.rs`),
  down to the 32-bit limbs. Parsing accepts exactly the Float grammar and rounds the exact decimal value half
  to even; what is printed is the one tidy text of the digits found, and parsing it back is the identity.
- `compiler/` is the C emitter for functions in structured IR (`emit.rs`), with the liveness analysis and the
  suspension edges it relies on (`live.rs`, `suspend.rs`). The emitted gotos, labels and resume points mean what
  the structured body means, wherever the outside suspends the function, and exactly what some path needs is
  live.
- `expansion/` is the analysis that finds generic enums whose instances would expand without end
  (`type_expansion.rs`). It is exact: it rejects a module if and only if some closed type has infinitely many
  instances.
- `runtime/` is structured concurrency in the hosted runtime (`emela_runtime.c`): fibers, scopes, interruptions
  and the job queue. In every run each step changes the records exactly as its action says, no fiber outlives its
  scope, what comes out of a scope is the first failure returned in it, no continuation is resumed twice, and
  waiting for children never deadlocks.

`common/` holds what several of them use. `dafny verify dfyconfig.toml` checks everything.

## How the model relates to the sources

The heap:

- Header fields of the arena are sequences indexed by the offset of the block, kept in one field `m: Memory`
  that the methods reassign; the address of a block's payload is its offset plus the header size, and `NULL`
  is -1. `SIZE_MAX`, the alignment, the header size and the capacity are parameters (`HeapArena.Layout`).
- `emela_heap_destroy` is generated per program and calls `emela_heap_enqueue` on every reference stored in a
  payload. The model keeps that list of references per block (`Memory.payload`); an allocated block starts
  with none. `StorePayload` is the program writing references it owns into a payload.
- `emela_board_defect` does not return. Heap operations report it as an `Outcome`; the print buffer sets
  `defect` and ignores what follows. The theorems say when it happens.
- The ghost fields `used`, `free`, `lists` and `external` name what the invariants talk about: the block
  offsets, the contents of the bins, and one copy of a value for each reference held outside the heap.

Floats:

- Limbs are words below 2^32 in an `array`; the two structs of 120 and 48 limbs are one class with a
  capacity. `|` of values without common bits is written `+`, shifts are multiplication and division by
  powers of two, and a cast to `uint32_t` is a remainder. Magnitudes of doubles are their 63-bit patterns;
  quotients are compared by cross-multiplication, so no real numbers occur.
- In the parser and the printer, the branches for a full workspace are proved dead (`assert fits`), so the
  methods have no failure result for them; the branch of `emela_emb_float_big_add_small` for an empty number
  is reached only without a carry and an addition, and is dead too.

The compiler:

- `Ir` gives the structured IR its meaning, with fuel for loops; `Machine` gives the C its meaning, one step at
  a time, with `goto` as a search for the label in the function. The outside is a `Host`: what an operation
  returns, fails with or leaves pending, and whether it suspends, may depend on everything that happened before.
- A suspension saves the frame and leaves the function; the runtime enters it again with the value. The frames
  of the callers above it are the runtime's.
- The theorems assume three things. An operation sets the failure or the pending defect, not both (`OneWay`), as
  `em_input_put` does (`emela_runtime.c:1211-1222`). The initialisers of a loop do not read the loop's own
  variables, and no label is in scope twice; the first follows from the scoping rules that `verify.rs:358-405`
  checks, and both are part of `WellFormed`.
- Variables hold integers: representations, boxes and reference counts are not in the meaning, but every
  `em_dup` and `em_drop` is in the history, and the history is the same.

Type expansion:

- `Type.Plain` stands for every type without arguments that are followed; effect sets are among them, as in
  `parameter_occurrences`. Slots are pairs of an enum and an index, and the worklist is a set, since the search
  does not depend on its order.
- Laying out a closed type meets the applications in the fields of what it meets, with arguments substituted
  (`Types.Visited`). Finiteness is about that set, which the analysis never computes.

Structured concurrency:

- `Run` is one `em_root`: the records of the C are values in one field `m`, and the ghost field `at` says where
  each fiber's continuation is. A continuation is not run; what its code may do next is any `Action`, so a run
  is any sequence of actions, and `Play` covers every program and every outside. `Actions` says what each action
  does, on the records alone; `Steps`, `Leaving` and `Jobs` are the changes the methods make, with what they keep.
- The ghost field `failures` records the failures of each scope in the order they happen.
- Frames say which scopes are open on a fiber. `Closing` is the frame that `em_scope_close_resume` finds; `body`
  is what is saved in it.
- Only main continuations are modelled. A wait of one is never woken while its own fiber runs, so `em_cont`
  always queues. The order between jobs that go through the host's event loop (`later`) is left to the outside,
  which decides when `Tick` happens.

The longer C and Rust functions are split into one method per loop or branch.

## What is false

"Shortest", the word of the message at `float_to_string.rs:304`, is not always true of the printed digits.
For each number of digits the search tests only the decimal nearest to the value. Around a power of two the
rounding interval is wider above than below, and the decimal just above the nearest one may still round back:
2^-44 is printed with seventeen digits although 5684341886080802e-29, with sixteen, rounds to it
(`FloatDigits.NotAlwaysShortest`). `FloatDigits.ShortestWhen` says when the result is shortest, in terms of the
value alone: if and only if, wherever the decimal just above the nearest one rounds back, a nearest one of no
more digits does too. `FloatDigits.ShortestExactly` says the same at the end of the search. Away from powers of
two it always holds (`FloatDigits.SymmetricIsShortest`).

`emela_emb_float_big_compare_shifted` compares bit lengths first, so a zero shifted past the other number's bits
is taken for the larger one. `BigNat.CompareShifted` says that this is the only case in which it is wrong; the
converters never get there.

## Model

| member | source | states |
|---|---|---|
| `HeapArena.TiledApart` | crates/emela-codegen-emb/src/heap.rs:135-167 | Blocks of a tiled arena do not overlap. |
| `HeapArena.TiledCovers` | crates/emela-codegen-emb/src/heap.rs:135-167 | Every byte of the arena belongs to a block: nothing is lost between blocks. |
| `HeapArena.TiledMerge` | crates/emela-codegen-emb/src/heap.rs:138-148 | Adding a block's size to the one before it and storing the sum in the next header keeps the arena tiled, with correct `previous_size` links. |
| `HeapArena.TiledSplit` | crates/emela-codegen-emb/src/heap.rs:186-201 | Cutting a block in two and storing the leftover in the next header keeps the arena tiled. |
| `HeapArena.ArenaInitial` | crates/emela-codegen-emb/src/heap.rs:121-132 | One block over the whole storage is a well-formed arena. |
| `HeapArena.ArenaMerge` | crates/emela-codegen-emb/src/heap.rs:138-162 | Coalescing with a neighbour keeps tiling, alignment and the no-two-adjacent-free-blocks rule. |
| `HeapArena.ArenaSplit` | crates/emela-codegen-emb/src/heap.rs:187-201 | Splitting off the tail keeps them too. |
| `HeapArena.ArenaNext` | crates/emela-codegen-emb/src/heap.rs:306-312 | Walking by block sizes meets every block once and ends at the end of the arena. |
| `HeapArena.BinMonotone` | crates/emela-codegen-emb/src/heap.rs:69-79 | A larger block is never in a lower bin, so searching from the bin of the request misses no fitting block. |
| `HeapArena.BinExactly` | crates/emela-codegen-emb/src/heap.rs:69-79 | The bin of a size is the first whose bound, 64 times a power of two, holds it, or the last one: the 32nd, or the first with a bound above half of `SIZE_MAX`. |
| `HeapArena.ChainPush` | crates/emela-codegen-emb/src/heap.rs:81-90 | Pushing at the head keeps a doubly linked list well formed, and holds the new block first. |
| `HeapArena.ChainRemove` | crates/emela-codegen-emb/src/heap.rs:92-105 | Unlinking removes exactly that block from the list and keeps both directions of links. |
| `HeapArena.BinsAdd` | crates/emela-codegen-emb/src/heap.rs:81-90 | After the pointer writes of adding, the bins hold exactly one block more, in the bin of its size. |
| `HeapArena.BinsRemove` | crates/emela-codegen-emb/src/heap.rs:92-105 | After the pointer writes of removing, the bins hold exactly the other blocks. |
| `HeapGraph.CountedMeansReferenced` | crates/emela-codegen-emb/src/heap.rs:238-270 | With exact counts, a block's count is positive if and only if the outside or some block refers to it. |
| `HeapGraph.ExactAfterAllocate` | crates/emela-codegen-emb/src/heap.rs:203-208 | A new block counted once, for its owner outside, leaves all counts exact. |
| `HeapGraph.ExactAfterExternal` | crates/emela-codegen-emb/src/heap.rs:224-236 | Retaining or giving up one outside reference moves exactly one count. |
| `HeapGraph.ExactAfterStore` | crates/emela-codegen-emb/src/heap.rs:395-405 | Moving references between a payload and the outside, as programs do when they store into a node (here the node edges of the test program), leaves all counts exact. |
| `HeapGraph.ExactAfterRelease` | crates/emela-codegen-emb/src/heap.rs:275-284 | Freeing an unreferenced block after taking off its own references leaves the other counts exact and changes nothing about which blocks are live. |
| `HeapGraph.LiveIsLeast` | crates/emela-codegen-emb/src/heap.rs:319-339 | A set of reachable blocks that holds the roots and is closed under references is exactly the live blocks. |
| `HeapGraph.DropUnreferenced` | crates/emela-codegen-emb/src/heap.rs:275-284 | A block with count zero is not live, and the others are as live without it. |
| `HeapGraph.LiveCountExceedsDead` | crates/emela-codegen-emb/src/heap.rs:341-345 | A live block's count is always more than what the dead blocks owe it. |
| `HeapGraph.SurvivorStaysHeld` | crates/emela-codegen-emb/src/heap.rs:341-345 | Part way through detaching, a survivor still has references left, so its count cannot reach zero. |
| `HeapGraph.ExactAfterDetach` | crates/emela-codegen-emb/src/heap.rs:341-345 | When every dead block has given back its references, the survivors' counts are exact among themselves. |
| `HeapGraph.AcyclicCountedIsLive` | crates/emela-codegen-emb/src/heap.rs:275-284 | Without cycles, exact positive counts mean that every block is live: counting alone is enough. |
| `HeapGraph.MarkStep` | crates/emela-codegen-emb/src/heap.rs:328-337 | Visiting a grey block keeps the tri-colour invariant and adds one black block, so marking ends. |
| `HeapGraph.MarkDone` | crates/emela-codegen-emb/src/heap.rs:326-339 | When nothing is grey, the marked blocks are exactly the live ones. |
| `HeapGraph.LiveOfLive` | crates/emela-codegen-emb/src/heap.rs:341-352 | The blocks a collection keeps are live on their own: a second collection frees nothing. |
| `HeapTrace.TrialVisits` | crates/emela-codegen-emb/src/heap.rs:249-252 | In mode 1, destroying a block takes one trial count off per reference it holds, and never meets a zero count. |
| `HeapTrace.MarkVisits` | crates/emela-codegen-emb/src/heap.rs:253-256 | In mode 2 it turns exactly the unmarked targets grey. |
| `HeapTrace.DetachVisits` | crates/emela-codegen-emb/src/heap.rs:257-270 | In mode 3 it takes references off marked targets only and queues nothing. |
| `HeapTrace.ReleaseVisits` | crates/emela-codegen-emb/src/heap.rs:259-269 | In mode 0 it takes every reference off and queues exactly the blocks that lost their last one, once each, linked through `free_next`. |
| `FixedHeap.Heap.constructor` | crates/emela-codegen-emb/src/heap.rs:24-33 | The static heap before first use satisfies the invariant. |
| `FixedHeap.Heap.Bin` | crates/emela-codegen-emb/src/heap.rs:69-79 | The loop finds the first bin with a bound, 64, 128, 256 and so on, that holds the size, or else the last one there is. |
| `FixedHeap.Heap.AddFree` | crates/emela-codegen-emb/src/heap.rs:81-90 | The block is first in the bin of its size, the bins are otherwise as before, in order, and no other link changes. |
| `FixedHeap.Heap.RemoveFree` | crates/emela-codegen-emb/src/heap.rs:92-105 | The block is gone from the bins, which keep their order. |
| `FixedHeap.Heap.Initialize` | crates/emela-codegen-emb/src/heap.rs:114-133 | The first call makes the storage one free block if there is room for one, and later calls change nothing. |
| `FixedHeap.Heap.MergeNext` | crates/emela-codegen-emb/src/heap.rs:138-148 | A free next block is absorbed and leaves its bin; the other bins keep their order. |
| `FixedHeap.Heap.MergePrevious` | crates/emela-codegen-emb/src/heap.rs:149-162 | A free previous block absorbs the freed one and leaves its bin. |
| `FixedHeap.Heap.FreeBlock` | crates/emela-codegen-emb/src/heap.rs:135-167 | Exactly the given block stops being allocated, the arena stays tiled and coalesced, the bins exact, every other allocated block untouched. The free neighbours leave the bins and the merged block is first in the bin of its size. |
| `FixedHeap.Heap.CutTail` | crates/emela-codegen-emb/src/heap.rs:186-201 | The tail becomes a free block, first in the bin of its size; the rest keeps its place. |
| `FixedHeap.Heap.TakeBlock` | crates/emela-codegen-emb/src/heap.rs:184-208 | The block becomes allocated, with at least the requested size and less than a header and an alignment unit more; what is left over, if it is enough for a block, is first in its bin. |
| `FixedHeap.Heap.FirstFit` | crates/emela-codegen-emb/src/heap.rs:181-211 | The search finds the first block that is large enough in the list of the lowest bin, from the request's own on, that holds one; it fails if and only if no free block is. |
| `FixedHeap.Heap.Allocate` | crates/emela-codegen-emb/src/heap.rs:169-213 | It succeeds if and only if some free block is large enough (or will be, on first use). It takes that first fitting block, and the bins afterwards are those before without it, and with its leftover first in its bin; the new block is counted once and every other block is unchanged. |
| `FixedHeap.Heap.Retain` | crates/emela-codegen-emb/src/heap.rs:224-236 | One more outside reference; the defects are exactly an invalid value and a full counter. |
| `FixedHeap.Heap.Enqueue` | crates/emela-codegen-emb/src/heap.rs:238-270 | One visit in the current mode, defect exactly when the value is invalid. |
| `FixedHeap.Heap.Destroy` | crates/emela-codegen-emb/src/heap.rs:29-31 | The visits of all references a payload holds, in order. |
| `FixedHeap.Heap.DrainOne` | crates/emela-codegen-emb/src/heap.rs:275-284 | One turn frees the first queued block, keeps counts exact and queues the blocks that lost their last reference. |
| `FixedHeap.Heap.Drain` | crates/emela-codegen-emb/src/heap.rs:272-284 | It ends with an empty queue, having freed only dead blocks, counts exact, and without a defect. |
| `FixedHeap.Heap.Release` | crates/emela-codegen-emb/src/heap.rs:290-295 | A value whose block is free is the invalid-reference defect, and nothing changes. Otherwise, with the collector or without cycles, exactly the blocks still reachable from the outside are allocated afterwards; they are unchanged, with exact counts. |
| `FixedHeap.Heap.StorePayload` | crates/emela-codegen-emb/src/heap.rs:395-405 | A program writing references it owns into a payload, as the test program does with its edges, keeps the invariant. |
| `FixedHeap.Heap.TrialCount` | crates/emela-codegen-emb/src/heap.rs:313-318 | Trial counts end as the number of references from outside; no `invalid heap ownership graph` defect. |
| `FixedHeap.Heap.MarkReachable` | crates/emela-codegen-emb/src/heap.rs:324-339 | The do-while loop terminates with exactly the live blocks marked. |
| `FixedHeap.Heap.Detach` | crates/emela-codegen-emb/src/heap.rs:340-345 | No survivor's count reaches zero, nothing is queued, and the survivors' counts become exact. |
| `FixedHeap.Heap.Sweep` | crates/emela-codegen-emb/src/heap.rs:346-351 | Exactly the unmarked blocks are freed, wherever coalescing moves the cursor. |
| `FixedHeap.Heap.CollectCycles` | crates/emela-codegen-emb/src/heap.rs:299-353 | A collection frees exactly the blocks unreachable from outside references and keeps the whole invariant, without a defect. |
| `FixedHeap.Heap.EmptyHeapIsOneBlock` | crates/emela-codegen-emb/src/heap.rs:135-167 | When nothing is allocated any more, the arena is one free block again: nothing leaks and nothing stays fragmented. |
| `Limbs.TimesValue` | crates/emela-codegen-emb/src/float_parse.rs:47-53 | Multiplying limb by limb with a carry multiplies the number. |
| `Limbs.PlusValue` | crates/emela-codegen-emb/src/float_parse.rs:64-72 | Adding with a carry adds to the number. |
| `Limbs.ShiftedValue` | crates/emela-codegen-emb/src/float_parse.rs:157-179 | Shifting limbs multiplies by the power of two. |
| `Limbs.ShiftedWordIsLimb` | crates/emela-codegen-emb/src/float_parse.rs:99-117 | `shifted_word` reads the limbs of the shifted number without building it. |
| `Limbs.MinusValue` | crates/emela-codegen-emb/src/float_parse.rs:193-199 | Subtracting with a borrow subtracts, when the result is not negative. |
| `Limbs.StrippedValue` | crates/emela-codegen-emb/src/float_parse.rs:182-187 | Dropping leading zero limbs keeps the number. |
| `Limbs.WordOrder` | crates/emela-codegen-emb/src/float_parse.rs:132-143 | The highest different limb decides the comparison. |
| `BigNat.Big.MultiplySmall` | crates/emela-codegen-emb/src/float_parse.rs:47-62 | In place, exact for every multiplier; it fails if and only if the product does not fit the limbs. The normal form is kept unless the multiplier is zero. |
| `BigNat.Big.AddSmall` | crates/emela-codegen-emb/src/float_parse.rs:64-84 | In place, exact; it fails if and only if the sum does not fit the limbs. |
| `BigNat.Big.BitCount` | crates/emela-codegen-emb/src/float_parse.rs:86-97 | The bit length of the number. |
| `BigNat.Big.ShiftLeft` | crates/emela-codegen-emb/src/float_parse.rs:146-180 | In place, highest limb first, exact; it fails if and only if the limbs it may touch do not fit. |
| `BigNat.Big.Normalize` | crates/emela-codegen-emb/src/float_parse.rs:182-187 | Keeps the number and restores the normal form. |
| `BigNat.Big.SubtractShifted` | crates/emela-codegen-emb/src/float_parse.rs:189-201 | Subtracts the shifted number exactly when it is not larger. |
| `BigNat.Big.MultiplyPower` | crates/emela-codegen-emb/src/float_parse.rs:203-210 | Multiplies by a power; fails if and only if the result does not fit. |
| `BigNat.CompareShifted` | crates/emela-codegen-emb/src/float_parse.rs:119-144 | The answer is the sign of the exact comparison of the shifted numbers if and only if no zero is shifted past the other number's bits. |
| `BigNat.Divide` | crates/emela-codegen-emb/src/float_parse.rs:392-403 | Quotient and remainder, the remainder below the denominator. |
| `Binary64.ScaledMonotone` | crates/emela-codegen-emb/src/float_parse.rs:414-427 | Magnitude patterns are ordered like the values they stand for. |
| `Binary64.RoundsToUnique` | crates/emela-codegen-emb/src/float_parse.rs:404-427 | A quotient rounds to at most one pattern. |
| `Binary64.RoundsToNearest` | crates/emela-codegen-emb/src/float_parse.rs:404-412 | The pattern it rounds to is a nearest one in range, the even one on a tie (section 4.3.1 of IEEE 754-2008). |
| `Rounding.BoundaryTransfers` | crates/emela-codegen-emb/src/float_parse.rs:263-275 | When no rounding boundary lies between the kept digits and the next number of as many digits, comparisons with boundaries do not depend on the dropped digits, except for ties, which the sticky flag decides. |
| `Rounding.RoundQuotient` | crates/emela-codegen-emb/src/float_parse.rs:404-412 | Rounding up exactly above half, or at half with something dropped or an odd quotient, gives the correctly rounded pattern of the true value. |
| `Quotient.QuotientRange` | crates/emela-codegen-emb/src/float_parse.rs:379-390 | After the shift the quotient has exactly 53 bits, or at most 53 for a subnormal. |
| `Quotient.ShiftedDivision` | crates/emela-codegen-emb/src/float_parse.rs:379-403 | Dividing the shifted numbers divides the value by the unit of the result. |
| `Quotient.DroppedDigitsDoNotMatter` | crates/emela-codegen-emb/src/float_parse.rs:17-19 | With 800 digits kept, no rounding boundary lies among the numbers that start with them: the 801st digit and later matter only through the sticky flag. |
| `Magnitudes.LargeIsInfinite` | crates/emela-codegen-emb/src/float_parse.rs:370-373 | From 2^1024 on, everything rounds to infinity. |
| `Magnitudes.SmallIsZero` | crates/emela-codegen-emb/src/float_parse.rs:374-377 | Below 2^-1075, everything rounds to zero. |
| `Magnitudes.BitDifference` | crates/emela-codegen-emb/src/float_parse.rs:351-369 | The difference of bit lengths is the binary exponent or one more. |
| `DecimalText.LiteralUnique` | crates/emela-codegen-emb/src/float_parse.rs:253-321 | The Float grammar is unambiguous. |
| `DecimalText.DenotesUnique` | crates/emela-codegen-emb/src/float_parse.rs:212-429 | A text denotes at most one pattern. |
| `FloatScan.SpelledIsLiteral` | crates/emela-codegen-emb/src/float_parse.rs:253-286 | The digit loop stops exactly where any literal with this text has its exponent or its end; the rejections after it reject no literal. |
| `FloatScan.ScanDigits` | crates/emela-codegen-emb/src/float_parse.rs:245-283 | The loop leaves the first 800 significant digits in the numerator, the sticky flag telling whether a later one is nonzero, and exact digit counts; the workspace never overflows. |
| `FloatScan.TakeDigit` | crates/emela-codegen-emb/src/float_parse.rs:263-275 | A significant digit is kept or only remembered. |
| `FloatScan.ScanExponent` | crates/emela-codegen-emb/src/float_parse.rs:288-321 | Accepts exactly exponents (or nothing) up to the end of the text, with the magnitude stopped at a million. |
| `FloatScan.SignificantNumber` | crates/emela-codegen-emb/src/float_parse.rs:263-265 | Leading zeros do not count. |
| `FloatParse.BinaryExponent` | crates/emela-codegen-emb/src/float_parse.rs:351-369 | The exponent of the leading bit of the quotient. |
| `FloatParse.Align` | crates/emela-codegen-emb/src/float_parse.rs:379-390 | The shift never overflows the 120 limbs. |
| `FloatParse.Assemble` | crates/emela-codegen-emb/src/float_parse.rs:414-428 | The pattern, with the carry into the exponent and into infinity. |
| `FloatParse.InRange` | crates/emela-codegen-emb/src/float_parse.rs:379-428 | The exact case rounds correctly. |
| `FloatParse.Convert` | crates/emela-codegen-emb/src/float_parse.rs:342-428 | From scanned digits to the correctly rounded pattern of the exact decimal, dropped digits included. |
| `FloatParse.ClampDoesNotMatter` | crates/emela-codegen-emb/src/float_parse.rs:306-311 | Stopping the exponent at a million changes the decimal order only where the order alone decides the result. |
| `FloatParse.HighOrderIsInfinite` | crates/emela-codegen-emb/src/float_parse.rs:333-336 | A decimal order above 308 is infinite. |
| `FloatParse.LowOrderIsZero` | crates/emela-codegen-emb/src/float_parse.rs:337-340 | A decimal order below -325 is zero. |
| `FloatParse.Rounded` | crates/emela-codegen-emb/src/float_parse.rs:322-428 | The pattern the exact decimal value rounds to, for every exponent, clamped or not. |
| `FloatParse.ParseNumber` | crates/emela-codegen-emb/src/float_parse.rs:230-429 | After the special names: accepted if and only if the text is a literal, and then the pattern is its value with its sign. |
| `FloatParse.Parse` | crates/emela-codegen-emb/src/float_parse.rs:212-429 | For every text of at most 65535 bytes: accepted if and only if it is a Float text, and then the pattern is the one it denotes. |
| `FloatSearch.CompareDecimalBinary` | crates/emela-codegen-emb/src/float_to_string.rs:190-214 | The sign of the exact comparison of a decimal with a binary number; the 48-limb workspace never overflows. |
| `FloatSearch.DecimalOrder` | crates/emela-codegen-emb/src/float_to_string.rs:340-364 | The decimal order, exactly, from any estimate. |
| `FloatSearch.RoundScaled` | crates/emela-codegen-emb/src/float_to_string.rs:216-273 | The integer nearest to the value over a power of ten, the even one on a tie; the workspace never overflows and the quotient fits 64 bits. |
| `Interval.MidpointAbove` | crates/emela-codegen-emb/src/float_to_string.rs:376-377 | The upper boundary as the C computes it. |
| `Interval.MidpointBelow` | crates/emela-codegen-emb/src/float_to_string.rs:366-375 | The lower boundary as the C computes it, nearer for a power of two. |
| `Interval.InsideRoundsBack` | crates/emela-codegen-emb/src/float_to_string.rs:389-394 | The two comparisons hold if and only if the decimal rounds to the value. |
| `Interval.SeventeenSuffice` | crates/emela-codegen-emb/src/float_to_string.rs:382-403 | The nearest decimal of seventeen digits always rounds back: the search always finds one. |
| `Interval.EnoughDigitsExactly` | crates/emela-codegen-emb/src/float_to_string.rs:382-400 | Some decimal with at most so many significant digits rounds back if and only if the nearest candidate or the one just above it does; without the latter when the interval is symmetric. |
| `FloatDigits.FindDigits` | crates/emela-codegen-emb/src/float_to_string.rs:379-403 | The search ends with a decimal that rounds back, of at most seventeen digits, while no smaller number of digits has a nearest decimal that does. |
| `FloatDigits.Inside` | crates/emela-codegen-emb/src/float_to_string.rs:366-394 | The test of one candidate. |
| `FloatDigits.ShortestExactly` | crates/emela-codegen-emb/src/float_to_string.rs:379-403 | The result is shortest if and only if, one digit earlier, the decimal just above the candidate does not round back. |
| `FloatDigits.ShortestWhen` | crates/emela-codegen-emb/src/float_to_string.rs:379-403 | Without searching: the result is shortest if and only if, for every digit count up to sixteen at which the decimal just above the nearest one rounds back, the nearest one of no more digits does at some count. |
| `FloatDigits.SymmetricIsShortest` | crates/emela-codegen-emb/src/float_to_string.rs:366-377 | Away from powers of two no decimal with fewer significant digits rounds to the value. |
| `FloatDigits.NotAlwaysShortest` | crates/emela-codegen-emb/src/float_to_string.rs:303-306 | 2^-44 is printed with seventeen digits although a decimal of sixteen rounds to it. |
| `FloatLayout.LayoutSpells` | crates/emela-codegen-emb/src/float_to_string.rs:423-471 | Every layout branch writes the text of a literal. |
| `FloatLayout.LayoutDenotes` | crates/emela-codegen-emb/src/float_to_string.rs:423-471 | That literal has the value of the digits at their position. |
| `FloatLayout.LayoutLength` | crates/emela-codegen-emb/src/float_to_string.rs:3 | At most 25 bytes. |
| `TidyText.PrintedExactly` | crates/emela-codegen-emb/src/float_to_string.rs:423-471 | The layout is the one literal with these digits, at this position, that has no superfluous zero, a fraction unless there is an exponent, an exponent if and only if the position is not within 0.000001 and 21 digits, and then one digit before the point and an `e` with a sign. |
| `TidyText.PrintedAsUnique` | crates/emela-codegen-emb/src/float_to_string.rs:423-471 | There is one text that is printed as asked: sign, digits and position determine it. |
| `FloatFormat.Output.Put` | crates/emela-codegen-emb/src/float_to_string.rs:275-286 | One byte, or the capacity defect exactly when there is no buffer or no room in it. |
| `FloatFormat.LowDigits` | crates/emela-codegen-emb/src/float_to_string.rs:412-416 | The decimal digits, lowest first. |
| `FloatFormat.ReverseDigits` | crates/emela-codegen-emb/src/float_to_string.rs:417-421 | Reversed in place. |
| `FloatFormat.StripZeros` | crates/emela-codegen-emb/src/float_to_string.rs:405-409 | Trailing zeros move into the exponent without changing the value. |
| `FloatFormat.PutLayout` | crates/emela-codegen-emb/src/float_to_string.rs:423-471 | The bytes written are the one tidy text of the digits at their position. |
| `FloatFormat.PutFinite` | crates/emela-codegen-emb/src/float_to_string.rs:336-471 | Sign, digits of the search without trailing zeros, and their one tidy text, at most 25 bytes. |
| `FloatFormat.ShownIsShortest` | crates/emela-codegen-emb/src/float_to_string.rs:379-409 | Away from powers of two no shorter decimal rounds to the value. |
| `FloatFormat.ToString` | crates/emela-codegen-emb/src/float_to_string.rs:308-473 | The text of every pattern, at most 25 bytes: for a finite nonzero one the one tidy text of its digits, with a leading zero only before the point and an exponent exactly from 1e21 up and below 1e-6. It denotes that pattern, except that all NaNs share a text and negative zero is printed like zero; the capacity defect happens exactly when there is no buffer or it is shorter than the text. |
| `FloatFormat.RoundTrip` | crates/emela-codegen-emb/src/float_to_string.rs:308-473 | Parsing what was printed gives back the same 64 bits for everything but NaNs and negative zero, and says what it gives for those. |
| `Liveness.LiveGrows` | crates/emela-lir/src/heap/live.rs:55-164 | With more variables live later, at least as many are live now, and none besides those and the additional ones. |
| `Liveness.LiveExactly` | crates/emela-lir/src/heap/live.rs:55-164 | A variable is live if and only if it is needed: on some path through the code it is read before it is written, or the path leaves to where it is live. Paths are defined on the IR alone. |
| `Liveness.LiveOnExactly` | crates/emela-lir/src/heap/live.rs:83-107 | A suspension keeps exactly the variables that some path on from its return needs. |
| `Liveness.LoopHeadStable` | crates/emela-lir/src/heap/live.rs:138-155 | What the analysis finds live at a loop head is what is live when the body starts over: the set is stable. |
| `Liveness.LoopHeadExactly` | crates/emela-lir/src/heap/live.rs:138-155 | At a loop head exactly the variables are live, besides the loop's own, that some path through any number of rounds needs. |
| `Liveness.HeadFixpoint` | crates/emela-lir/src/heap/live.rs:141-151 | The iteration at a loop stops, after at most two rounds, at the stable set, which holds exactly what some path through any number of rounds needs. |
| `Labels.FindExactly` | crates/emela-codegen-c/src/emit.rs:258-269 | A goto into the emitted code lands if and only if the code has the label. |
| `Labels.AnchoredLabel` | crates/emela-codegen-c/src/emit.rs:258-269 | A jump to a label of the function goes to the code behind it, with the continuation it was emitted in. |
| `Labels.EmitUnique` | crates/emela-codegen-c/src/emit.rs:606-809 | No label is emitted twice, all labels of a sequence come from its own statements, and so a goto is never ambiguous. |
| `UsedLabels.LabelsUsed` | crates/emela-codegen-c/src/emit.rs:606-809 | No label is written in vain: every label that is not a resume point has a goto. |
| `Preservation.SimSeq` | crates/emela-codegen-c/src/emit.rs:606-674 | The C of a sequence ends as the sequence does: at its yield target, at the label of a break, at the loop head of a recur, or out of the function, with equal values in all variables that are live there. |
| `Preservation.SimRecur` | crates/emela-codegen-c/src/emit.rs:653-669 | Assigning the new loop values through temporaries is a parallel assignment: they are computed from the old ones. |
| `Preservation.SimIf` | crates/emela-codegen-c/src/emit.rs:727-741 | The branch taken yields behind the statement, by goto from the first branch and by falling out of the second. |
| `Preservation.SimSwitch` | crates/emela-codegen-c/src/emit.rs:742-773 | Exactly the matching case runs, or the default, and none falls through into the next. |
| `Preservation.SimIterate` | crates/emela-codegen-c/src/emit.rs:774-796 | Every iteration starts at the head label with the values of the last recur, as often as the structured loop does. |
| `Preservation.SimBlock` | crates/emela-codegen-c/src/emit.rs:797-804 | A break that names the block, from any depth, leaves it with its value in the destination of the block, and so does the end of its body. |
| `Preservation.GoesAway` | crates/emela-codegen-c/src/emit.rs:811-855 | A suspension saves the frame, leaves the function and, when it is entered again, restores the saved variables and goes on behind the call with everything live as it was. |
| `Preservation.ResumeFound` | crates/emela-codegen-c/src/emit.rs:237-255 | The dispatch at the entry finds the resume point of the frame's state. |
| `Preservation.SimBack` | crates/emela-codegen-c/src/emit.rs:706-725 | Behind a call the defect landing is tried first, then the failure landing, then the rest. |
| `Preservation.RestoredAgree` | crates/emela-lir/src/heap/suspend.rs:169-185 | Restoring at least the live variables is enough: everything live has its old value. |
| `Preservation.Preserves` | crates/emela-codegen-c/src/emit.rs:470-510 | For every function body the IR verifier lets through, every environment and every behaviour of the outside: when the structured body ends, so does its C, with the same result, failure or unwinding and the same sequence of operations and counts; while it runs on, so does the C. |
| `Preservation.EndsTogether` | crates/emela-codegen-c/src/emit.rs:470-510 | The C ends if and only if the structured body does. |
| `Preservation.SuspensionIsInvisible` | crates/emela-codegen-c/src/emit.rs:811-855 | Two runs of the C that differ only in where the outside suspends end with the same result and the same history. |
| `Emitter.Cx.EmitSequence` | crates/emela-codegen-c/src/emit.rs:606-613 | The writer gains exactly the code of the sequence, the used labels exactly its jump targets, the resume points exactly its suspensions in order. |
| `Emitter.Cx.EmitTerminator` | crates/emela-codegen-c/src/emit.rs:615-674 | The same for each way to end a sequence. |
| `Emitter.Cx.EmitStatement` | crates/emela-codegen-c/src/emit.rs:685-809 | The same for each statement; the loop stack is as before. |
| `Emitter.Cx.EmitLoop` | crates/emela-codegen-c/src/emit.rs:774-796 | The body is captured first, and the head label is written if and only if the body recurs. |
| `Emitter.EmitBody` | crates/emela-codegen-c/src/emit.rs:470-510 | The emitter, with its mutable writer, label sets and loop stack, produces the function the preservation theorem is about. |
| `Expansion.Exposed` | crates/emela-codegen-emb/src/type_expansion.rs:19-37 | The loop ends with the least set of parameters closed under being laid out in a field. |
| `Expansion.CollectEdges` | crates/emela-codegen-emb/src/type_expansion.rs:38-43 | Exactly the edges between parameters that the exposed applications in the fields give. |
| `Expansion.Reaches` | crates/emela-codegen-emb/src/type_expansion.rs:50-60 | The worklist search finds the source if and only if there is a path to it. |
| `Expansion.ExpandingEnums` | crates/emela-codegen-emb/src/type_expansion.rs:6-64 | Exactly the enums with a parameter that grows on some way back to itself. |
| `Finiteness.WithinSubst` | crates/emela-codegen-emb/src/type_expansion.rs:125-165 | What laying out a substituted type meets comes from an application in the type or from the argument of an exposed parameter. |
| `Finiteness.RankRises` | crates/emela-codegen-emb/src/type_expansion.rs:45-62 | When nothing grows back, parameters have ranks that no edge lowers and every growing edge raises. |
| `Finiteness.FinitelyMany` | crates/emela-codegen-emb/src/type_expansion.rs:6-64 | If no enum is expanding, laying out any closed type meets only instances of one finite set. |
| `Growth.EdgeCarries` | crates/emela-codegen-emb/src/type_expansion.rs:133-149 | Along every edge an instance of the source leads to an instance of the target whose argument is at least as large, and larger along a growing edge. |
| `Growth.InfinitelyMany` | crates/emela-codegen-emb/src/type_expansion.rs:6-64 | An expanding enum applied to plain types is laid out with instances without end. |
| `Growth.ExpandingExactly` | crates/emela-codegen-emb/src/type_expansion.rs:1-64 | The analysis is exact: no enum is expanding if and only if every closed type is laid out with finitely many instances. |
| `Growth.Decide` | crates/emela-codegen-emb/src/type_expansion.rs:6-64 | Running the analysis decides that question for every well-formed module. |
| `StructuredRun.Run.constructor` | crates/emela-codegen-c/src/emela_runtime.c:3216-3227 | The root fiber is queued, and every invariant holds. |
| `StructuredRun.Run.InterruptFiber` | crates/emela-codegen-c/src/emela_runtime.c:1994-2006 | A fiber that has not ended is asked once; its wait is dropped for an interruption exactly when it waits, is not held and was not asked before; nothing else changes. |
| `StructuredRun.Run.ScopeFailed` | crates/emela-codegen-c/src/emela_runtime.c:3589-3599 | The first failure closes the scope, asks all its children to unwind, in order, and then the body, if it still runs; a later one changes nothing but the record. |
| `StructuredRun.Run.LoseChild` | crates/emela-codegen-c/src/emela_runtime.c:3601-3614 | The scope loses the child, blames it unless it was interrupted, and queues the waiting body if it was the last one; nothing else changes. |
| `StructuredRun.Run.Finish` | crates/emela-codegen-c/src/emela_runtime.c:2043-2066 | The fiber has ended with its cause and result, its scope is told first, then its watchers, in order, and none of them is left on the wait list. |
| `StructuredRun.Run.OpenScope` | crates/emela-codegen-c/src/emela_runtime.c:3688-3699 | A new open scope on top of the fiber's frames, one deeper than the last. |
| `StructuredRun.Run.Fork` | crates/emela-codegen-c/src/emela_runtime.c:3710-3727 | A child that begins last in the queue, if and only if the scope is open. |
| `StructuredRun.Run.Join` | crates/emela-codegen-c/src/emela_runtime.c:3729-3755 | An interruption that is due is taken; otherwise the answer is the fiber's result, or what its end comes to for the verb, if it has ended, and if not the asking fiber waits for it with that verb. |
| `StructuredRun.Run.Ask` | crates/emela-codegen-c/src/emela_runtime.c:3757-3773 | The other fiber has ended or is asked to unwind, and the asking one waits for its end; a fiber that asks itself takes the interruption at once unless it is held. |
| `StructuredRun.Run.Deliver` | crates/emela-codegen-c/src/emela_runtime.c:1958-1976 | The whole fiber if that was asked, otherwise the scope of least depth among those pending and unwinding, and no body further out is asked for; it counts as unwinding from then on, and nothing else changes. |
| `StructuredRun.Run.Point` | crates/emela-codegen-c/src/emela_runtime.c:1978-1987 | At a request of the code an interruption that is due is taken, and only such a one. |
| `StructuredRun.Run.Suspend` | crates/emela-codegen-c/src/emela_runtime.c:2114-2139 | The fiber waits, on a new wait that is listed, and nothing runs. |
| `StructuredRun.Run.BodyDone` | crates/emela-codegen-c/src/emela_runtime.c:3635-3670 | The scope closes, a failure of the body is the next in its record, no interruption of it is left, and the children left are asked to unwind. With none left the scope ends with its first failure or else with how the body ended; otherwise the fiber waits, held, and all of them unwind. |
| `StructuredRun.Run.EndScope` | crates/emela-codegen-c/src/emela_runtime.c:3616-3633 | When a scope ends all fibers ever forked in it have ended, and its first failure, or how its body ended, comes out. |
| `StructuredRun.Run.End` | crates/emela-codegen-c/src/emela_runtime.c:2043-2055 | A forked fiber's end is told to its scope and watchers; the end of the root ends the run, and then every fiber of the run has ended. |
| `StructuredRun.Run.RunJob` | crates/emela-codegen-c/src/emela_runtime.c:2226-2282 | The first job is carried out: it resumes exactly the continuation it names, which was not resumed before. If that one waited for children, its scope ends with its first failure or how its body had ended, and the hold is given back; otherwise an interruption that is due takes the place of a value. No failure is recorded. |
| `StructuredRun.Run.StartFiber` | crates/emela-codegen-c/src/emela_runtime.c:2285-2314 | A fiber interrupted before it began ends at once as interrupted, which no scope takes for a failure; any other begins. |
| `StructuredRun.Run.GoOn` | crates/emela-codegen-c/src/emela_runtime.c:2190-2196 | What a resumed continuation goes on with; waiting for children, it ends its scope with the recorded failures and the body's own end, and gives the hold back. |
| `StructuredRun.Run.Wake` | crates/emela-codegen-c/src/emela_runtime.c:2200-2222 | A wait that is still listed is queued with its input, and one that is not changes nothing. |
| `StructuredRun.Run.Stall` | crates/emela-codegen-c/src/emela_runtime.c:3184-3214 | Every fiber left is asked to unwind, and every wait but those of scopes is queued to be interrupted, the latest first; then either some job is queued or all fibers have ended: scopes that keep waiting for their children cannot deadlock. |
| `StructuredRun.Run.Return` | crates/emela-codegen-c/src/emela_runtime.c:3635-3670 | What the code of a fiber returns with is how its innermost body, or the fiber, has ended, and its failure is recorded for that scope and no other. |
| `StructuredRun.Run.Request` | crates/emela-codegen-c/src/emela_runtime.c:3688-3773 | Each thing the code of a fiber asks for changes the records as said for it, and nothing else. |
| `StructuredRun.Run.Act` | crates/emela-codegen-c/src/emela_runtime.c:2143-2172 | Whatever happens next, it changes the records as said for that action, all invariants hold again, and the failures recorded are those of what returned. |
| `StructuredRun.Run.Play` | crates/emela-codegen-c/src/emela_runtime.c:3216-3244 | Every sequence of actions is a run: each step does what its action says, and each state keeps what all earlier ones established. |
| `StructuredRun.FirstBlamed` | crates/emela-codegen-c/src/emela_runtime.c:3589-3614 | In every run, a scope's first failure is that of the first return with a failure from its body or from a fiber forked in it. |
| `StructuredRun.OutcomeOfRun` | crates/emela-codegen-c/src/emela_runtime.c:3616-3633 | In every run, what comes out of a scope is the first failure returned in it, or else how its body ended. |
| `StructuredRun.NoneOutlivesScope` | crates/emela-codegen-c/src/emela_runtime.c:3616-3633 | In every run, once a scope has ended all fibers of it have ended, for good, and it never gets another. |
| `StructuredRun.ClosedGainsNone` | crates/emela-codegen-c/src/emela_runtime.c:3710-3715 | In every run, a closed scope gains no fiber. |
| `StructuredRun.ResumedAtMostOnce` | crates/emela-codegen-c/src/emela_runtime.c:2239-2258 | In every run, each suspended continuation is resumed at most once. |
| `StructuredRun.EndedAtMostOnce` | crates/emela-codegen-c/src/emela_runtime.c:3616-3633 | In every run, each scope ends at most once, and what came out of it stays its outcome. |
| `StructuredRun.EndedForGood` | crates/emela-codegen-c/src/emela_runtime.c:3616-3633 | From any state to any later one, an ended scope has only ended fibers, and no new ones. |
| `StructuredRun.FirstForGood` | crates/emela-codegen-c/src/emela_runtime.c:3589-3594 | A scope's first failure stays its first, and so its result does. |
| `Stability.TreeEnded` | crates/emela-codegen-c/src/emela_runtime.c:3601-3614 | Structured concurrency: a fiber that has ended leaves none behind that descends from it. |
| `Stability.StuckIsOver` | crates/emela-codegen-c/src/emela_runtime.c:3184-3188 | If nothing is queued and only scopes wait for children, every fiber has ended. |
| `Stability.OutcomeIs` | crates/emela-codegen-c/src/emela_runtime.c:3616-3633 | The outcome kept in a scope is the first of all its recorded failures, or how its body ended. |
| `Stability.DepthIsOutward` | crates/emela-codegen-c/src/emela_runtime.c:1958-1965 | The scope of least depth that is asked for is the outermost one on the fiber. |
| `Actions.BodyClosedMeans` | crates/emela-codegen-c/src/emela_runtime.c:3635-3651 | Whatever children and watchers do, the scope of a body that is over is closed, keeps how it ended and its first failure, and nothing asks for that body any more. |
| `Actions.FiberOverMeans` | crates/emela-codegen-c/src/emela_runtime.c:2043-2066 | A forked fiber that is over has ended with its cause; its scope has lost it and has its failure first if it was the first; no other scope changes. |
| `Actions.EveryoneTold` | crates/emela-codegen-c/src/emela_runtime.c:2008-2065 | Every watcher of a fiber that ends is told: its wait is off the list, and queued with what joining, awaiting or interrupting gives. |
| `Scheduler.WokenInv` | crates/emela-codegen-c/src/emela_runtime.c:3608-3613 | Waking the body of a scope whose last child is gone keeps every continuation in one place. |
| `Jobs.TakenInv` | crates/emela-codegen-c/src/emela_runtime.c:2226-2258 | Taking a queued continuation keeps them so, and one that waited for children finds none left. |

## Left out

- FixedHeap.Heap.Release: a value whose block is allocated but which the caller does not hold is excluded; the C cannot tell and takes a count that belongs to someone else.
- FixedHeap.Heap.CollectCycles: an arena without room for a block, over which the C would walk uninitialised memory, is not modelled beyond `Initialize`.
- FloatParse.Parse: a NULL text with a length, which the C rejects, has no counterpart among sequences.
- BigNat.CompareShifted: bit lengths are unbounded; with shifts near 2^32, which no caller has, the sums of the C would wrap.
- StructuredRun.Run.Join: values are told apart only as far as the scheduler makes them (`Val`); the errors of asking about a fiber whose scope has ended are an answer of their own.
- StructuredRun.Run.Stall: the waits of implementations and orphans, which the C also unwinds, are not modelled.
- The allocator's `free_next` of allocated blocks is shared with the drain queue; payload bytes other than references are not modelled.
- In the emitter: closures, calls and builtins as C expressions, constants, the wrappers around a state machine, and calls of suspending code where nothing may suspend (`em_sync_enter`).
- Choosing where to insert fairness yields (`insert_yields`) and numbering the states; `WellFormed` asks for their result.
- In the hosted runtime: implementations of effects (`em_perform`), deferred values, tasks, timers, file descriptors, threads, reference counts of its own records, and UTF-8.
- Closure lifting, constant evaluation, and the conversion of floats in `const_eval.rs`, which rests on libc.
- Clocks, files and the board functions: `emela_board_defect` ends the program.
