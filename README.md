# A Dafny model of ChampSim's modified virtual memory

This project models `src/vmem_modified.cc`, a modified ChampSim `VirtualMemory` that
takes physical frames from a small frame allocator called `BuddyAllocator`. It
models the code as written, including the places where it does not do what its
own comments say.

- `results.dfy`, module `Results`: `Option` and `Result`.
- `bits.dfy`, module `Bits`: `uint64_t` and `uint32_t` as subset types. It has
  explicit 64-bit wrap-around (`Add64`, `Sub64`, `Shl64`), `x >> n` (`Shr`), and
  `champsim::lg2`, `champsim::bitmask` and `champsim::splice_bits`.
- `buddy_allocator.dfy`, module `Allocator`: the class `BuddyAllocator` has two
  fields, the free frame numbers and the allocation records. Its constructor,
  `can_merge`, `merging`, `ppage_allocate` and `deallocation` are methods. Each is
  proved against a pure function of the old state (`InitialState`, `MergeSize`,
  `MergedTable`, `Allocate`, `Deallocate`). Lemmas then state what those functions
  do.
- `virtual_memory.dfy`, module `Vmem`: the class `VirtualMemory` has the fields
  that `va_to_pa` and `get_pte_pa` update, and it owns a `BuddyAllocator`. The two
  translations are proved against `Translate` and `WalkPageTable`, which are
  functions of a snapshot of the tables and the allocator. `populate_pages` is a
  loop proved against `PopulatedPages`. The constructor's assertions, `shamt` and
  `get_offset` are pure functions with lemmas.

Four failures of the C++ are reported as an `AllocError`. Three are undefined
behaviour: `free_frame_table[0]` on an empty vector, an `erase` past the end, and
`allocated_frame_table[index]` out of range. The fourth is `deallocation`'s loop when
it never exits. Each of its passes inserts into the vector it walks, so on a real
machine the loop ends when `insert` throws `std::bad_alloc`; the model reports
`NeverTerminates` instead. The allocator's vectors are left unchanged by the
failing call. A failing `va_to_pa` changes
nothing. A failing `get_pte_pa` changes nothing when its cursor refill fails. When
its page-boundary allocation fails, the refill, the new page-table node and the
advanced cursor that came before it stay (`WalkFailure`).

Where the code's comments and the code disagree, the model follows the code. These
are the disagreements, each with the lemma that shows it:

- The allocator's free list starts with `dram_size / frame_size + 1` frames, one more
  than the memory holds, although the comment at line 44 says it is equal in size
  (`InitialState`).
- `get_free_frame` always returns the front free frame, because both branches of
  its loop return in the first iteration (`GetFreeFrame`).
- `can_merge` returns a count (`size + 1`), although the comment at line 68 speaks
  of incrementing the allocation. `ppage_allocate` uses that count as a frame
  number, compared with the front free frame, as an index into the free list, and
  as the page `merging` searches for. So the merge branch extends no record unless
  some record happens to end just before that small number. With free frames
  `[2, 3, 4]` and the record `{1, 1, 5, 0}`, allocating page 7 hands out frame 2,
  leaves 2 in the free list, and leaves the records unchanged
  (`MergeBranchKeepsFrameFree`). That state is reached by a real run: a fresh
  allocator over four frames serves address 0 and then address `5 * 4096`
  (`MergeBranchStateReachable`).
- `can_merge` and `merging` look for `start_page + size + 1`, one page beyond the
  neighbouring page. Allocations for two neighbouring pages therefore get two
  records rather than one record of two frames (`NeighbouringPagesGetTwoRecords`).
- The first allocation of a fresh allocator hands out frame 0 and records it
  nowhere (`FirstAllocationLeavesNoRecord`).
- Because the merge branch can hand out a frame that stays in the free list,
  "every frame is either free or allocated" does not hold
  (`MergeBranchKeepsFrameFree`).
- `deallocation` depends on the absolute cycle (`cycle > 10000000`), not on the
  time since the record was last touched (`DeallocateWaitsForThreshold`).
- When a free entry above `start_frame` exists, `deallocation`'s loop never ends
  (`DeallocationLoopFromStart`, `DeallocationLoopNeverExits`). It would only ever
  put back `start_frame + size`, never the frames of the region, although the
  comment at line 125 says the frames are added back.
- When it does end, it erases the record and returns nothing to the free list
  (`DeallocateErasesRecord`).
- `va_to_pa` tests for a fault under the page number `vaddr >> 12`. It stores and
  reads the mapping under the whole address `vaddr`. Translating the same nonzero
  address twice therefore faults twice (`RepeatedTranslationFaultsAgain`), and
  translation is not idempotent.
- A page number that is mapped, without the whole address being mapped, yields
  frame 0. `operator[]` inserts the 0 (`TranslateHitReadsFrameZero`).
- When `get_pte_pa`'s cursor reaches a page boundary, it stores a new frame in
  `vpage_to_ppage_map` under the whole address. The cursor is not refilled
  (`WalkBoundaryStore`).
- The address width `12 + lg2(page size / 8) * levels` is computed in `size_t` and
  wraps around. So 2048-byte page-table pages with 2^61 + 2 levels give a width of
  28, which the constructor accepts (`WrappedWidthAccepted`).
- No exhaustion error is ever raised. An empty free list is undefined behaviour in
  the C++ (`AllocateFailsOnlyOutOfRange`).

## Model

| member | source | states |
|---|---|---|
| Bits.Add64 | src/vmem_modified.cc:68-82 | `uint64_t` addition, as in `start_page + size + 1` (:68, :80), `size += 1` (:82), `start_frame + size` (:125), `base_address += PAGE_SIZE` (:176) and `next_pte_page += pte_page_size` (:272): the plain sum when it fits in 64 bits, and the sum less 2^64 when it does not |
| Bits.Sub64 | src/vmem_modified.cc:171 | `pmem_size - VMEM_RESERVE_CAPACITY` on `uint64_t`: the plain difference when it is not negative, and the difference plus 2^64 when it is |
| Bits.Shl64 | src/vmem_modified.cc:113 | `x << n` on `uint64_t` equals `x * 2^n` whenever that product fits in 64 bits |
| Bits.Shr | src/vmem_modified.cc:184 | `x >> n` is the floor of `x / 2^n`: `r * 2^n <= x < (r + 1) * 2^n`, so it is also never larger than `x` |
| Bits.Lg2 | src/vmem_modified.cc:184 | `lg2(n)` is 0 for 0 and 1, and otherwise the `r` with `2^r <= n < 2^(r+1)` |
| Bits.Bitmask | src/vmem_modified.cc:184 | `bitmask(n)` has no bit at or above position `n`, and its low `k` bits are all set for every `k <= n` |
| Bits.LowBits | src/vmem_modified.cc:184 | `x & bitmask(n)` is the remainder of `x` by `2^n`: `(x / 2^n) * 2^n + r == x` with `r < 2^n`, and it is `x` itself when `x` is already below `2^n` |
| Bits.PowerOfTwoTest | src/vmem_modified.cc:144 | `x == 1ull << lg2(x)` holds exactly when `x` is a power of two |
| Bits.SpliceBits | src/vmem_modified.cc:244 | the result has the low `n` bits of `lower` and the remaining bits of `upper` |
| Bits.Shl64LowBitsClear | src/vmem_modified.cc:113 | a value shifted left by `n` in 64-bit arithmetic has its low `n` bits clear |
| Allocator.RemoveAt | src/vmem_modified.cc:103 | `erase` at index `i` removes exactly that element and keeps the others in order |
| Allocator.InsertAt | src/vmem_modified.cc:125 | `insert` at index `i` puts `x` there and shifts the rest up by one |
| Allocator.InitialFreeFrames | src/vmem_modified.cc:44-47 | the list has `count` entries, entry `k` is `k`, strictly ascending, and holds exactly the numbers below `count` |
| Allocator.InitialState | src/vmem_modified.cc:39-49 | a new allocator has `dram_size / frame_size + 1` free frames, numbered `0` to `dram_size / frame_size` in order, and no records |
| Allocator.BuddyAllocator.constructor | src/vmem_modified.cc:39-49 | the loop leaves the allocator in `InitialState` |
| Allocator.GetFreeFrame | src/vmem_modified.cc:52-63 | there is no frame exactly when the free list is empty; otherwise the result is the front frame, whatever the preference |
| Allocator.FirstMergeable | src/vmem_modified.cc:66-71 | finds no index exactly when no record has `start_page + size + 1 == page`, and otherwise the first record that has it |
| Allocator.MergeSize | src/vmem_modified.cc:65-74 | `can_merge` is 0 when no record matches, and otherwise `size + 1` (64-bit) of the first match |
| Allocator.BuddyAllocator.CanMerge | src/vmem_modified.cc:65-74 | the search loop returns `MergeSize` of the records |
| Allocator.MergedTable | src/vmem_modified.cc:76-91 | with no match the table is unchanged; otherwise only the first match changes: its size grows by one and its last access becomes `cycle`, with start frame and start page kept |
| Allocator.BuddyAllocator.Merging | src/vmem_modified.cc:76-91 | the loop leaves the records as `MergedTable` says and returns 0 exactly when a record matched; no value where the C++ falls off the end |
| Allocator.Allocate | src/vmem_modified.cc:93-114 | a failing `ppage_allocate` changes nothing; a successful one removes exactly one free entry and adds at most one record |
| Allocator.BuddyAllocator.PpageAllocate | src/vmem_modified.cc:93-114 | the result and the new vectors are those of `Allocate` on the old vectors |
| Allocator.AllocateFailsOnlyOutOfRange | src/vmem_modified.cc:93-114 | a failure changes nothing; it is an empty free list exactly when the list is empty, and an out-of-range erase exactly when the merge branch is taken with `pref_frame` past the end |
| Allocator.FrameAddressAligned | src/vmem_modified.cc:113 | `frame << 12` is a multiple of 4096 |
| Allocator.AllocateReturnsFrontFrame | src/vmem_modified.cc:95-113 | a successful allocation returns the front free frame shifted left by 12, a 4096-aligned address |
| Allocator.AllocateErasesOneFreeEntry | src/vmem_modified.cc:99-111 | success erases one free entry: index `pref_frame` in the merge branch, the front one otherwise |
| Allocator.AllocateRecords | src/vmem_modified.cc:99-111 | the merge branch leaves the records as `merging` does, and the other branch appends exactly `{real_frame, 1, vaddr >> 12, cycle}` |
| Allocator.FirstAllocationLeavesNoRecord | src/vmem_modified.cc:93-114 | on a fresh allocator the first allocation returns address 0, creates no record and leaves frames `1..n` free |
| Allocator.MergeBranchStateReachable | src/vmem_modified.cc:39-111 | from a fresh allocator over four 4096-byte frames, allocating address 0 returns frame 0 and records nothing, then allocating `5 * 4096` returns frame 1 and leaves free frames `[2, 3, 4]` with the one record `{1, 1, 5, 0}` |
| Allocator.MergeBranchKeepsFrameFree | src/vmem_modified.cc:95-104 | with free frames `[2, 3, 4]` and record `{1, 1, 5, 0}`, allocating page 7 returns frame 2, leaves 2 in the free list, and leaves the records unchanged because `merging` searches for the count 2 |
| Allocator.NeighbouringPagesGetTwoRecords | src/vmem_modified.cc:65-74 | allocating pages 5 and then 6 from free frames `[1, 2, 3]` creates two one-frame records |
| Allocator.Deallocate | src/vmem_modified.cc:116-135 | `deallocation` never changes the free list; a failure changes nothing, and any change removes exactly one record |
| Allocator.DeallocateWaitsForThreshold | src/vmem_modified.cc:118 | up to cycle 10000000 `deallocation` changes nothing |
| Allocator.DeallocateErasesRecord | src/vmem_modified.cc:116-135 | above the threshold with no free entry above `start_frame`, the record at `index` is erased, the others are kept in order, and the free list is unchanged |
| Allocator.DeallocationLoopNeverExits | src/vmem_modified.cc:120-130 | once a free entry above `start_frame` is reached, after any `k` passes the index has moved by `k`, the list has grown by `k` copies of `start_frame + size`, and the loop guard still holds |
| Allocator.DeallocationLoopFromStart | src/vmem_modified.cc:120-130 | run from index 0, the insertion loop never exits exactly when `Deallocate` reports `NeverTerminates`; otherwise one pass per entry reaches the end and inserts nothing |
| Allocator.LoopReachesLargerEntry | src/vmem_modified.cc:120-130 | with an entry above `start_frame` at or after the loop index, the guard holds after any number of passes |
| Allocator.LoopPassesSmallerEntries | src/vmem_modified.cc:120-130 | with no entry above `start_frame` from the loop index on, the passes reach the end with the list unchanged |
| Allocator.PassesKeepPrefix | src/vmem_modified.cc:120-130 | passes of the insertion loop never change entries before the loop index |
| Allocator.BuddyAllocator.Deallocation | src/vmem_modified.cc:116-135 | the result and the new vectors are those of `Deallocate` on the old vectors |
| Vmem.ShiftedOne | src/vmem_modified.cc:139 | `1ull << e` is `2^e` for `e < 64`; from 64 on, the model's `Shl64` gives 0 |
| Vmem.ShiftedOneAboveReserve | src/vmem_modified.cc:145 | `Shl64(1, e)` exceeds the 2^20-byte reserve exactly when `20 < e < 64` |
| Vmem.LastPpage | src/vmem_modified.cc:139 | for an address width below 64, `last_ppage` is exactly `2^width`, with the width reduced modulo 2^64 as `size_t` does |
| Vmem.ConfigAcceptedMeaning | src/vmem_modified.cc:139-145 | the constructor accepts a configuration exactly when the page-table page size is a power of two above 1024 and the width `12 + lg2(size / 8) * levels`, reduced modulo 2^64, lies strictly between 20 and 64 |
| Vmem.WrappedWidthAccepted | src/vmem_modified.cc:139-145 | page size 2048 with 2^61 + 2 levels gives a wrapped width of 28, and the constructor accepts it |
| Vmem.VirtualMemory.constructor | src/vmem_modified.cc:138-155 | the fields take the configuration, `next_ppage` is the reserve, `last_ppage` is `LastPpage`, the tables are empty and the allocator is fresh in `InitialState(dram size, 4096)` |
| Vmem.Shamt | src/vmem_modified.cc:180 | `shamt(level)` always shifts out at least the 12-bit page offset, and exactly that at level 1 |
| Vmem.ShamtPerLevel | src/vmem_modified.cc:180 | level 1 shifts by 12, and each further level adds `lg2(page size / 8)` |
| Vmem.GetOffset | src/vmem_modified.cc:182-185 | the offset is below the fan-out `2^lg2(page size / 8)`, so entry `offset * 8` lies inside a page-table page |
| Vmem.Resized | src/vmem_modified.cc:171 | `resize(n)` gives `n` elements and keeps the first ones |
| Vmem.PopulatedPages | src/vmem_modified.cc:169-179 | the list has `(pmem_size - reserve) / 4096` entries in 64-bit arithmetic, and every entry is page-aligned even where the arithmetic wraps |
| Vmem.PopulatedPagesLayout | src/vmem_modified.cc:169-179 | when memory exceeds the reserve, the list holds `(size - reserve) / 4096` page addresses `reserve + k * 4096`, each aligned and inside physical memory |
| Vmem.VirtualMemory.PopulatePages | src/vmem_modified.cc:169-179 | the loop fills the list with `PopulatedPages` |
| Vmem.Subscript | src/vmem_modified.cc:242 | `operator[]` yields a map that has the key, with value 0 if it was absent, and otherwise unchanged |
| Vmem.PhysicalAddress | src/vmem_modified.cc:244 | the address has the page offset of `vaddr` and the page number of the frame |
| Vmem.PageNumberDiffers | src/vmem_modified.cc:214 | a nonzero address differs from `vaddr >> 12` |
| Vmem.Translate | src/vmem_modified.cc:209-251 | a failing `va_to_pa` changes nothing; a successful one leaves `(cpu, vaddr)` mapped; neither touches the page table or its cursor |
| Vmem.TranslateLatency | src/vmem_modified.cc:209-251 | the latency is the minor-fault penalty exactly when `(cpu, vaddr >> 12)` was unmapped; a failure happens only then and changes nothing |
| Vmem.TranslateSplice | src/vmem_modified.cc:242-244 | the physical address keeps `vaddr`'s page offset, under the page number stored for `(cpu, vaddr)` |
| Vmem.TranslateOnFault | src/vmem_modified.cc:233-241 | on a fault, the allocator's frame is stored under `(cpu, vaddr)`, the other mappings and the page table are kept, and the penalty is charged |
| Vmem.RepeatedTranslationFaultsAgain | src/vmem_modified.cc:214-240 | after a fault for a nonzero address, the page-number key it tests is still absent |
| Vmem.TranslateHitNoAllocation | src/vmem_modified.cc:214-242 | a `va_to_pa` whose page number is mapped succeeds at no cost and leaves the allocator, the page table and its cursor alone |
| Vmem.TranslateFullHit | src/vmem_modified.cc:214-250 | with the page number and the whole address both mapped, `va_to_pa` changes nothing and answers with the stored frame joined to the page offset, at no cost |
| Vmem.TranslateHitReadsFrameZero | src/vmem_modified.cc:214-242 | a mapped page number with an unmapped whole address yields the page offset alone at no cost, and maps the address to 0 |
| Vmem.VirtualMemory.VaToPa | src/vmem_modified.cc:209-251 | the result and the new tables are those of `Translate`; the page list is kept |
| Vmem.PteAddress | src/vmem_modified.cc:285 | the entry address has the low `lg2(page size)` bits of `offset * 8` and the higher bits of the node's address |
| Vmem.PteAddressInNode | src/vmem_modified.cc:285 | for a power-of-two page size, the entry address holds `offset * 8` in its low bits and the node's page above them |
| Vmem.WalkPageTable | src/vmem_modified.cc:254-293 | `get_pte_pa` never overwrites a page-table entry, and it can add a mapping only under `(cpu, vaddr)` |
| Vmem.RefillCursor | src/vmem_modified.cc:257-263 | a nonzero cursor is kept as it is; the refill touches neither the page table nor the mappings |
| Vmem.InsertNode | src/vmem_modified.cc:265-272 | after the insert the key is present and every earlier entry is kept; the mappings and the allocator are untouched |
| Vmem.WalkFrom | src/vmem_modified.cc:265-292 | the rest of the walk leaves the key in the page table, keeps every earlier entry, and adds a mapping only under `(cpu, vaddr)` |
| Vmem.StoreNewFrame | src/vmem_modified.cc:280 | a successful store adds exactly the key `(cpu, vaddr)` to the mappings and leaves the page table and the cursor alone |
| Vmem.WalkLatency | src/vmem_modified.cc:257-292 | whatever the cursor, a successful walk costs the penalty exactly when the node was not in the page table before the call |
| Vmem.WalkHit | src/vmem_modified.cc:265-292 | with the cursor set, a known node is answered at no cost from its stored page, and nothing changes |
| Vmem.WalkMiss | src/vmem_modified.cc:266-282 | with the cursor set, a new node costs the penalty, gets the cursor's page, and moves the cursor on by the page-table page size; off a page boundary nothing else changes (`WalkBoundaryStore` covers the boundary) |
| Vmem.WalkBoundaryStore | src/vmem_modified.cc:271-281 | when a new node's advance lands the cursor on a page boundary, the walk succeeds exactly when the allocation does; the new frame goes under `(cpu, vaddr)` in `vpage_to_ppage_map`, and the cursor keeps its advanced value |
| Vmem.WalkFailure | src/vmem_modified.cc:254-282 | a failed walk never changes the mappings; a failed refill changes nothing, and a failed page-boundary allocation keeps the refill, the inserted node and the advanced cursor |
| Vmem.WalkFromFailure | src/vmem_modified.cc:265-282 | after the refill, a failure leaves exactly the state of the node's insertion and the cursor's advance |
| Vmem.WalkRefillsZeroCursor | src/vmem_modified.cc:257-266 | a zero cursor first takes a newly allocated frame address, which a new node receives |
| Vmem.WalkEntryOffset | src/vmem_modified.cc:284-285 | for a power-of-two page size, the result is the entry at `offset * 8` inside the node now stored for the key |
| Vmem.VirtualMemory.RefillPteCursor | src/vmem_modified.cc:257-263 | a zero cursor is refilled as `RefillCursor` says; on failure nothing changes |
| Vmem.VirtualMemory.StorePteFrame | src/vmem_modified.cc:280 | the new frame is stored under `(cpu, vaddr)` as `StoreNewFrame` says; on failure nothing changes |
| Vmem.VirtualMemory.GetPtePa | src/vmem_modified.cc:254-293 | the result and the new tables are those of `WalkPageTable`; the page list is kept |

## Left out

- `fmt::print` diagnostics, the constructor's two warnings and the `debug_print` traces are output only. They are not modelled.
- `shuffle_pages`, `set_virtual_seed` and `virtual_seed` are left out. They shuffle `ppage_free_list` with a random generator, and nothing modelled reads that list.
- `ppage_front`, `ppage_pop` and `available_ppages` are left out. They work on `ppage_free_list` and on `free_table`, whose declarations (in `vmem.h`) are not part of this model. Nothing they touch reaches a returned address.
- Vmem.VirtualMemory.VaToPa: does not model the `ppage_pop` call on a fault. On the empty list the constructor leaves, that call would pop an empty deque.
- The memory controller is left out. `dram.size()` is a constructor parameter, and `dram.current_cycle` is a `cycle` parameter of each call.
- The constants `LOG2_PAGE_SIZE` (12), `PAGE_SIZE` (4096), `PTE_BYTES` (8) and `VMEM_RESERVE_CAPACITY` (2^20) come from headers that are not part of this model. They take ChampSim's default values.
- Undefined behaviour (out-of-range vector access, an `erase` past the end) is reported as an `AllocError` instead of continuing with garbage. `merging` falls off its end without a return value when no record matches; the model returns `None` there, and `ppage_allocate` ignores the value either way. `deallocation` is declared to return `uint64_t` but has no `return`; the model returns `Ok(())`, and no caller reads the value.
- The model assumes the simulator's containers never run out of memory. Where the C++ would throw `std::bad_alloc`, the model either reports `NeverTerminates` (the endless insertion loop of `deallocation`) or builds the value in full: `PopulatedPages` for a `pmem_size` below the 2^20 reserve asks for a wrapped count of about 2^52 pages, which `resize` could not supply.
- Allocator.BuddyAllocator.constructor: requires `frame_size > 0` and `dram_size / frame_size < UINT64_MAX`. With `frame_size == 0` the division at line 42 is undefined, and with `num_of_frames == UINT64_MAX` the loop at line 44 (`i <= num_of_frames` on `uint64_t`) never ends. The only call, at line 141, passes 4096, so the first never happens there, and the second would need a DRAM size of about 2^76 bytes, which `uint64_t` cannot hold.
- Allocator.BuddyAllocator.Deallocation: does not run the endless insertion loop. It returns `NeverTerminates` where the loop would start, and `DeallocationLoopNeverExits` proves the loop would never exit.
- Bits.Shl64: `x << n` wraps modulo 2^64 for every `n`. C++ defines the shift only for `n < 64`, and every use in the model shifts by less than 64.
- Bits.Shr: `x >> n` is the mathematical shift for every `n`. C++ leaves shifts of 64 or more undefined, and `shamt` can produce them for deep levels.
- Vmem.Shamt: requires `level >= 1`. At level 0, `level - 1` wraps around to 2^64 - 1 in the C++. The model also does not wrap the product modulo 2^64.
- Vmem.VirtualMemory.constructor: requires the three assertions to hold, rather than modelling an abort. It also requires an address width below 64, because `1ull << width` is undefined in C++ from 64 on. Such a configuration counts as rejected.
- ShiftedOne: its clause for `e >= 64` describes the model's `Shl64`, which reduces the product modulo 2^64. In C++, `1ull << e` is undefined there, and `LastPpage` is never applied to such a width.
- ShiftedOneAboveReserve: the bound `e < 64` comes from `Shl64` giving 0 from 64 on, not from the C++, where the shift is undefined there. `ConfigAcceptedMeaning` uses the lemma only for widths below 64.
- The `get_pte_pa` member helpers `RefillPteCursor` and `StorePteFrame` are the method's two allocation steps, written separately. They are not separate functions in the C++.
- Aliasing of the `ppage` iterator is not modelled. The model reads the stored node page from the map after the insert, which gives the same value.
