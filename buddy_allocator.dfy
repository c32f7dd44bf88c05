/**
 * The physical-frame allocator of src/vmem_modified.cc (class `BuddyAllocator`).
 * Despite its name it keeps two vectors and scans them linearly: the free frame
 * numbers, and the records of the frames handed out. There is no buddy splitting.
 *
 * Each state-changing member of the C++ class is a method of the class below whose
 * postcondition ties its result and the new contents of the two vectors to a pure
 * function of the old contents (`InitialState`, `MergedTable`, `Allocate`,
 * `Deallocate`); the lemmas at the end state what those functions promise.
 */
module Allocator {
  import opened Bits
  import opened Results

  /** `ppage_allocate` shifts by a hard-coded 12 bits (a 4096-byte frame). */
  const FRAME_SHIFT: nat := 12
  const FRAME_BYTES: nat := 4096

  /** `deallocation` only acts when `cycle > 10000000`. */
  const DEALLOCATION_THRESHOLD: u64 := 10000000

  /** One element of `allocated_frame_table`: `{start_frame, size, start_page, last_access}`. */
  datatype Allocation = Allocation(startFrame: u64, size: u64, startPage: u64, lastAccess: u64)

  /** The contents of the two vectors of a `BuddyAllocator`. */
  datatype AllocatorState = AllocatorState(freeFrames: seq<u64>, allocations: seq<Allocation>)

  /**
   * The places where the C++ code leaves the vectors' bounds or never returns.
   * The model reports them instead of continuing, and changes nothing.
   */
  datatype AllocError =
    | FreeTableEmpty    // `free_frame_table[0]` read on an empty vector
    | EraseOutOfRange   // `free_frame_table.erase(begin() + pref_frame)` past the end
    | IndexOutOfRange   // `allocated_frame_table[index]` past the end
    | NeverTerminates   // the insertion loop of `deallocation` never exits

  ghost predicate StrictlyAscending(s: seq<u64>)
  {
    forall i, j :: 0 <= i < j < |s| ==> s[i] < s[j]
  }

  /** `v.erase(v.begin() + i)` */
  function RemoveAt<T>(s: seq<T>, i: nat): (r: seq<T>)
    requires i < |s|
    ensures |r| == |s| - 1
    ensures forall j :: 0 <= j < i ==> r[j] == s[j]
    ensures forall j :: i <= j < |r| ==> r[j] == s[j + 1]
  {
    s[..i] + s[i + 1..]
  }

  /** `v.insert(v.begin() + i, x)` */
  function InsertAt(s: seq<u64>, i: nat, x: u64): (r: seq<u64>)
    requires i <= |s|
    ensures |r| == |s| + 1 && r[i] == x
    ensures forall j :: 0 <= j < i ==> r[j] == s[j]
    ensures forall j :: i < j < |r| ==> r[j] == s[j - 1]
  {
    s[..i] + [x] + s[i..]
  }

  // ---------------------------------------------------------------- constructor

  /** The free frame list the constructor builds: every frame number from 0 to `count - 1`. */
  function InitialFreeFrames(count: nat): (r: seq<u64>)
    requires count <= TWO_TO_64
    ensures |r| == count
    ensures forall k :: 0 <= k < count ==> r[k] == k
    ensures StrictlyAscending(r)
    ensures forall f :: f in r <==> 0 <= f < count
  {
    var r := seq(count, k requires 0 <= k < count => k as u64);
    forall f | 0 <= f < count
      ensures f in r
    {
      assert r[f] == f;
    }
    r
  }

  /**
   * `BuddyAllocator(dram_size, frame_size)`: the loop runs `i` from 0 to
   * `dram_size / frame_size` INCLUSIVE, so it holds one frame more than fits in memory.
   */
  function InitialState(dramSize: u64, frameSize: u64): (s: AllocatorState)
    requires frameSize > 0 && dramSize / frameSize < U64_MAX
    ensures |s.freeFrames| == dramSize / frameSize + 1
    ensures forall k :: 0 <= k < |s.freeFrames| ==> s.freeFrames[k] == k
    ensures StrictlyAscending(s.freeFrames)
    ensures forall f :: f in s.freeFrames <==> 0 <= f <= dramSize / frameSize
    ensures s.allocations == []
  {
    AllocatorState(InitialFreeFrames(dramSize / frameSize + 1), [])
  }

  // ---------------------------------------------------------------- get_free_frame

  /**
   * `get_free_frame(pref_frame)`: its loop returns during the first iteration on both
   * branches, so the preference never matters. On an empty vector the C++ reads
   * `free_frame_table[0]` out of bounds; the model returns `None` there.
   */
  function GetFreeFrame(freeFrames: seq<u64>, prefFrame: u64): (r: Option<u64>)
    ensures r.None? <==> freeFrames == []
    ensures r.Some? ==> r.value == freeFrames[0]
  {
    if freeFrames == [] then None
    else if prefFrame == freeFrames[0] then Some(prefFrame)
    else Some(freeFrames[0])
  }

  // ---------------------------------------------------------------- can_merge / merging

  /** `start_page + size + 1`, in 64-bit arithmetic: the page a record could grow into. */
  function MergeTarget(a: Allocation): u64
  {
    Add64(Add64(a.startPage, a.size), 1)
  }

  predicate Mergeable(a: Allocation, page: u64)
  {
    page == MergeTarget(a)
  }

  /** `i` is the first record that `page` extends. */
  predicate FirstMatch(table: seq<Allocation>, page: u64, i: nat)
  {
    i < |table| && Mergeable(table[i], page) && forall j :: 0 <= j < i ==> !Mergeable(table[j], page)
  }

  lemma FirstMatchUnique(table: seq<Allocation>, page: u64, i: nat, k: nat)
    requires FirstMatch(table, page, i) && FirstMatch(table, page, k)
    ensures i == k
  {
  }

  /** The index of the first record that `page` extends, as both search loops find it. */
  function FirstMergeable(table: seq<Allocation>, page: u64): (r: Option<nat>)
    ensures r.None? <==> forall i :: 0 <= i < |table| ==> !Mergeable(table[i], page)
    ensures r.Some? ==> FirstMatch(table, page, r.value)
  {
    if table == [] then None
    else if Mergeable(table[0], page) then Some(0)
    else match FirstMergeable(table[1..], page)
      case None => None
      case Some(j) => Some(j + 1)
  }

  /** What `can_merge(page)` returns: a count, `size + 1` of the first match, or 0. */
  function MergeSize(table: seq<Allocation>, page: u64): (r: u64)
    ensures (forall i :: 0 <= i < |table| ==> !Mergeable(table[i], page)) ==> r == 0
    ensures forall i: nat :: FirstMatch(table, page, i) ==> r == Add64(table[i].size, 1)
  {
    match FirstMergeable(table, page)
    case None => 0
    case Some(k) =>
      assert forall i: nat :: FirstMatch(table, page, i) ==> i == k by {
        forall i: nat | FirstMatch(table, page, i) { FirstMatchUnique(table, page, i, k); }
      }
      Add64(table[k].size, 1)
  }

  /** A record after `merging` has extended it in place. */
  function Grown(a: Allocation, cycle: u64): Allocation
  {
    a.(size := Add64(a.size, 1), lastAccess := cycle)
  }

  /** The table after `merging(pref_frame, cycle)`: only the first match changes. */
  function MergedTable(table: seq<Allocation>, prefFrame: u64, cycle: u64): (r: seq<Allocation>)
    ensures |r| == |table|
    ensures FirstMergeable(table, prefFrame).None? ==> r == table
    ensures forall i: nat :: FirstMatch(table, prefFrame, i) ==>
        && r[i].size == Add64(table[i].size, 1)
        && r[i].lastAccess == cycle
        && r[i].startFrame == table[i].startFrame
        && r[i].startPage == table[i].startPage
        && (forall k :: 0 <= k < |table| && k != i ==> r[k] == table[k])
  {
    match FirstMergeable(table, prefFrame)
    case None => table
    case Some(k) =>
      assert forall i: nat :: FirstMatch(table, prefFrame, i) ==> i == k by {
        forall i: nat | FirstMatch(table, prefFrame, i) { FirstMatchUnique(table, prefFrame, i, k); }
      }
      table[k := Grown(table[k], cycle)]
  }

  // ---------------------------------------------------------------- ppage_allocate

  /**
   * `ppage_allocate(cycle, vaddr)`. The value `can_merge` returns is used as a frame
   * number: when it equals the front free frame, the "merge" branch extends a record
   * and erases the free entry at INDEX `pref_frame`; otherwise a new one-frame record
   * is appended and the front entry erased. Either way the front frame, shifted left
   * by 12, is returned.
   */
  function Allocate(s: AllocatorState, cycle: u64, vaddr: u64): (r: (Result<u64, AllocError>, AllocatorState))
    ensures r.0.Err? ==> r.1 == s
    ensures r.0.Ok? ==> |r.1.freeFrames| + 1 == |s.freeFrames|
    ensures r.0.Ok? ==> |s.allocations| <= |r.1.allocations| <= |s.allocations| + 1
  {
    var prefFrame := MergeSize(s.allocations, Shr(vaddr, FRAME_SHIFT));
    match GetFreeFrame(s.freeFrames, prefFrame)
    case None => (Err(FreeTableEmpty), s)
    case Some(realFrame) =>
      if prefFrame == realFrame then
        if prefFrame < |s.freeFrames| then
          (Ok(Shl64(realFrame, FRAME_SHIFT)),
           AllocatorState(RemoveAt(s.freeFrames, prefFrame), MergedTable(s.allocations, prefFrame, cycle)))
        else (Err(EraseOutOfRange), s)
      else
        (Ok(Shl64(realFrame, FRAME_SHIFT)),
         AllocatorState(RemoveAt(s.freeFrames, 0),
                        s.allocations + [Allocation(realFrame, 1, Shr(vaddr, FRAME_SHIFT), cycle)]))
  }

  // ---------------------------------------------------------------- deallocation

  /** The value the insertion loop of `deallocation` puts back: `start_frame + size`. */
  function ReturnedFrame(a: Allocation): u64
  {
    Add64(a.startFrame, a.size)
  }

  /**
   * `deallocation(cycle, index)`. Nothing happens up to the cycle threshold. Above it
   * the loop inserts `start_frame + size` before every free entry larger than
   * `start_frame` without leaving, and never ends once such an entry exists
   * (`DeallocationLoopNeverExits`); otherwise it inserts nothing and the record at
   * `index` is erased.
   */
  function Deallocate(s: AllocatorState, cycle: u64, index: u64): (r: (Result<(), AllocError>, AllocatorState))
    ensures r.1.freeFrames == s.freeFrames
    ensures r.0.Err? ==> r.1 == s
    ensures r.1 != s ==> |r.1.allocations| + 1 == |s.allocations|
  {
    if cycle <= DEALLOCATION_THRESHOLD then (Ok(()), s)
    else if index >= |s.allocations| then (Err(IndexOutOfRange), s)
    else if exists i :: 0 <= i < |s.freeFrames| && s.freeFrames[i] > s.allocations[index].startFrame then
      (Err(NeverTerminates), s)
    else (Ok(()), AllocatorState(s.freeFrames, RemoveAt(s.allocations, index)))
  }

  /** One pass of the body of the insertion loop, followed by `i++`. */
  function DeallocationPass(free: seq<u64>, i: nat, startFrame: u64, returned: u64): (seq<u64>, nat)
    requires i < |free|
  {
    if free[i] > startFrame then (InsertAt(free, i, returned), i + 1) else (free, i + 1)
  }

  /** The vector and the index after `k` more passes (fewer if the guard `i < size()` fails). */
  function DeallocationPasses(free: seq<u64>, i: nat, startFrame: u64, returned: u64, k: nat): (seq<u64>, nat)
    decreases k
  {
    if k == 0 || i >= |free| then (free, i)
    else
      var (free', i') := DeallocationPass(free, i, startFrame, returned);
      DeallocationPasses(free', i', startFrame, returned, k - 1)
  }

  // ---------------------------------------------------------------- properties

  /** The merge branch of `ppage_allocate` is taken exactly when `can_merge`'s count equals the front free frame. */
  predicate TakesMergeBranch(s: AllocatorState, vaddr: u64)
  {
    s.freeFrames != [] && MergeSize(s.allocations, Shr(vaddr, FRAME_SHIFT)) == s.freeFrames[0]
  }

  /**
   * `ppage_allocate` fails only on an empty free list, or in the merge branch when
   * `pref_frame` is no index of the free list; a failure changes nothing.
   */
  lemma AllocateFailsOnlyOutOfRange(s: AllocatorState, cycle: u64, vaddr: u64)
    ensures var (r, s') := Allocate(s, cycle, vaddr);
      && (r.Err? ==> s' == s)
      && (r == Err(FreeTableEmpty) <==> s.freeFrames == [])
      && (r == Err(EraseOutOfRange) <==> TakesMergeBranch(s, vaddr) && s.freeFrames[0] >= |s.freeFrames|)
  {
  }

  /** A frame number shifted left by 12 is a frame-aligned address. */
  lemma FrameAddressAligned(frame: u64)
    ensures Shl64(frame, FRAME_SHIFT) % FRAME_BYTES == 0
  {
    Shl64LowBitsClear(frame, FRAME_SHIFT);
    assert Pow2(FRAME_SHIFT) == FRAME_BYTES;
  }

  /** A successful `ppage_allocate` returns the front free frame shifted left by 12, so its low 12 bits are zero. */
  lemma AllocateReturnsFrontFrame(s: AllocatorState, cycle: u64, vaddr: u64)
    ensures var r := Allocate(s, cycle, vaddr).0;
      r.Ok? ==> s.freeFrames != [] && r.value == Shl64(s.freeFrames[0], FRAME_SHIFT) && r.value % FRAME_BYTES == 0
  {
    if s.freeFrames != [] {
      FrameAddressAligned(s.freeFrames[0]);
    }
  }

  /**
   * A successful `ppage_allocate` erases exactly one free entry: the one at index
   * `pref_frame` in the merge branch, the front one otherwise.
   */
  lemma AllocateErasesOneFreeEntry(s: AllocatorState, cycle: u64, vaddr: u64)
    ensures var s' := Allocate(s, cycle, vaddr).1;
      Allocate(s, cycle, vaddr).0.Ok? ==>
      && |s'.freeFrames| == |s.freeFrames| - 1
      && (TakesMergeBranch(s, vaddr) ==> s'.freeFrames == RemoveAt(s.freeFrames, s.freeFrames[0]))
      && (!TakesMergeBranch(s, vaddr) ==> s'.freeFrames == s.freeFrames[1..])
  {
  }

  /**
   * A successful `ppage_allocate` appends a record only outside the merge branch, and
   * then exactly `{real_frame, 1, vaddr >> 12, cycle}`; in the merge branch the records
   * are those `merging` leaves.
   */
  lemma AllocateRecords(s: AllocatorState, cycle: u64, vaddr: u64)
    ensures var s' := Allocate(s, cycle, vaddr).1;
      Allocate(s, cycle, vaddr).0.Ok? ==>
      && (TakesMergeBranch(s, vaddr) ==>
            s'.allocations == MergedTable(s.allocations, s.freeFrames[0], cycle) &&
            |s'.allocations| == |s.allocations|)
      && (!TakesMergeBranch(s, vaddr) ==>
            s'.allocations == s.allocations + [Allocation(s.freeFrames[0], 1, Shr(vaddr, FRAME_SHIFT), cycle)])
  {
  }

  /**
   * On a freshly built allocator the first `ppage_allocate` takes the merge branch
   * (`can_merge` returns 0 and the front frame is 0), finds no record to extend and so
   * creates none: frame 0 is handed out with no record of it.
   */
  lemma FirstAllocationLeavesNoRecord(dramSize: u64, cycle: u64, vaddr: u64)
    requires dramSize / FRAME_BYTES < U64_MAX
    ensures var (r, s') := Allocate(InitialState(dramSize, FRAME_BYTES as u64), cycle, vaddr);
      && r == Ok(0)
      && s'.allocations == []
      && |s'.freeFrames| == dramSize / FRAME_BYTES
      && (forall k :: 0 <= k < |s'.freeFrames| ==> s'.freeFrames[k] == k + 1)
  {
    var s := InitialState(dramSize, FRAME_BYTES as u64);
    assert s.freeFrames[0] == 0;
    assert MergeSize([], Shr(vaddr, FRAME_SHIFT)) == 0;
    assert Allocate(s, cycle, vaddr) == (Ok(0), AllocatorState(RemoveAt(s.freeFrames, 0), []));
  }

  /**
   * Because the merge branch erases at INDEX `pref_frame` a value that is a frame number,
   * the frame it hands out can stay in the free list and be handed out again. And since
   * `merging` is handed the count `can_merge` returned (2) rather than the page (7), it
   * looks for a record ending before page 2, finds none, and the record `can_merge`
   * found is not extended: the frame is handed out with no record of it.
   */
  lemma MergeBranchKeepsFrameFree()
    ensures var (r, s') := Allocate(AllocatorState([2, 3, 4], [Allocation(1, 1, 5, 0)]), 0, 7 * 4096);
      && r == Ok(2 * 4096) && 2 in s'.freeFrames
      && s'.allocations == [Allocation(1, 1, 5, 0)]
  {
    var s := AllocatorState([2, 3, 4], [Allocation(1, 1, 5, 0)]);
    assert Shr(7 * 4096, FRAME_SHIFT) == 7;
    assert FirstMatch(s.allocations, 7, 0);
    assert MergeSize(s.allocations, 7) == 2;
    assert Allocate(s, 0, 7 * 4096).1.freeFrames == [2, 3];
    assert !Mergeable(Allocation(1, 1, 5, 0), 2);
    assert FirstMergeable(s.allocations, 2) == None;
  }

  /**
   * The state `MergeBranchKeepsFrameFree` starts from is reached by a real run: a fresh
   * allocator over four 4096-byte frames serves address 0 (frame 0, no record) and then
   * address 5 * 4096 (frame 1, record `{1, 1, 5, 0}`), all at cycle 0.
   */
  lemma MergeBranchStateReachable()
    ensures var (r1, s1) := Allocate(InitialState(4 * 4096, 4096), 0, 0);
      var (r2, s2) := Allocate(s1, 0, 5 * 4096);
      && r1 == Ok(0) && r2 == Ok(4096)
      && s2 == AllocatorState([2, 3, 4], [Allocation(1, 1, 5, 0)])
  {
    FirstAllocationLeavesNoRecord(4 * 4096, 0, 0);
    var s1 := Allocate(InitialState(4 * 4096, 4096), 0, 0).1;
    assert s1.freeFrames == [1, 2, 3, 4];
    assert s1 == AllocatorState([1, 2, 3, 4], []);
    assert Pow2(FRAME_SHIFT) == 4096;
    assert Shr(5 * 4096, FRAME_SHIFT) == 5;
    assert MergeSize([], 5) == 0;
    assert GetFreeFrame([1, 2, 3, 4], 0) == Some(1);
    assert Shl64(1, FRAME_SHIFT) == 4096;
    assert RemoveAt([1, 2, 3, 4], 0) == [2, 3, 4];
  }

  /**
   * `can_merge` looks for `start_page + size + 1`, one page beyond the page that
   * directly follows a record, so two allocations for neighbouring pages leave two
   * one-frame records instead of one record of two frames.
   */
  lemma NeighbouringPagesGetTwoRecords()
    ensures var (r1, s1) := Allocate(AllocatorState([1, 2, 3], []), 0, 5 * 4096);
      var (r2, s2) := Allocate(s1, 0, 6 * 4096);
      && r1 == Ok(1 * 4096) && r2 == Ok(2 * 4096)
      && s2.allocations == [Allocation(1, 1, 5, 0), Allocation(2, 1, 6, 0)]
  {
    var s0 := AllocatorState([1, 2, 3], []);
    assert Shr(5 * 4096, FRAME_SHIFT) == 5 && Shr(6 * 4096, FRAME_SHIFT) == 6;
    assert Pow2(FRAME_SHIFT) == 4096;
    assert MergeSize([], 5) == 0;
    assert RemoveAt([1, 2, 3], 0) == [2, 3];
    var s1 := AllocatorState([2, 3], [Allocation(1, 1, 5, 0)]);
    assert GetFreeFrame(s0.freeFrames, 0) == Some(1);
    assert Shl64(1, FRAME_SHIFT) == 4096;
    assert Allocate(s0, 0, 5 * 4096).0 == Ok(4096);
    assert Allocate(s0, 0, 5 * 4096).1 == s1;
    assert !Mergeable(Allocation(1, 1, 5, 0), 6);
    assert MergeSize(s1.allocations, 6) == 0;
  }

  /** Up to the cycle threshold `deallocation` changes nothing. */
  lemma DeallocateWaitsForThreshold(s: AllocatorState, cycle: u64, index: u64)
    requires cycle <= DEALLOCATION_THRESHOLD
    ensures Deallocate(s, cycle, index) == (Ok(()), s)
  {
  }

  /**
   * Above the threshold, when it returns at all, `deallocation` erases the record at
   * `index`, keeps the others in order, and puts no frame back in the free list.
   */
  lemma DeallocateErasesRecord(s: AllocatorState, cycle: u64, index: u64)
    requires cycle > DEALLOCATION_THRESHOLD && index < |s.allocations|
    requires forall i :: 0 <= i < |s.freeFrames| ==> s.freeFrames[i] <= s.allocations[index].startFrame
    ensures var (r, s') := Deallocate(s, cycle, index);
      && r.Ok?
      && s'.freeFrames == s.freeFrames
      && |s'.allocations| == |s.allocations| - 1
      && (forall j :: 0 <= j < index ==> s'.allocations[j] == s.allocations[j])
      && (forall j :: index <= j < |s'.allocations| ==> s'.allocations[j] == s.allocations[j + 1])
  {
  }

  /**
   * Once the insertion loop of `deallocation` reaches a free entry above `start_frame`,
   * every later pass inserts `start_frame + size` in front of that same entry and moves
   * past the new element, so after any number of passes the guard `i < size()` still
   * holds: the loop never exits.
   */
  lemma {:induction false} DeallocationLoopNeverExits(free: seq<u64>, i: nat, startFrame: u64, returned: u64, k: nat)
    requires i < |free| && free[i] > startFrame
    ensures var (free', i') := DeallocationPasses(free, i, startFrame, returned, k);
      && i' == i + k
      && |free'| == |free| + k
      && i' < |free'| && free'[i'] > startFrame
      && (forall j :: i <= j < i' ==> free'[j] == returned)
    decreases k
  {
    if k > 0 {
      var (free1, i1) := DeallocationPass(free, i, startFrame, returned);
      assert i1 == i + 1 && free1 == InsertAt(free, i, returned);
      DeallocationLoopNeverExits(free1, i1, startFrame, returned, k - 1);
      var (free', i') := DeallocationPasses(free1, i1, startFrame, returned, k - 1);
      assert DeallocationPasses(free, i, startFrame, returned, k) == (free', i');
      forall j | i <= j < i'
        ensures free'[j] == returned
      {
        if j == i {
          // The entries before i1 are never touched again.
          PassesKeepPrefix(free1, i1, startFrame, returned, k - 1, j);
        }
      }
    }
  }

  /**
   * Started where the C++ starts it, at index 0, the insertion loop of `deallocation`
   * never exits exactly when `Deallocate` reports `NeverTerminates`: then every number
   * of passes leaves the guard `i < size()` true; otherwise one pass per free entry
   * walks off the end with the free list unchanged.
   */
  lemma DeallocationLoopFromStart(s: AllocatorState, cycle: u64, index: u64)
    requires cycle > DEALLOCATION_THRESHOLD && index < |s.allocations|
    ensures var a := s.allocations[index];
      Deallocate(s, cycle, index).0 == Err(NeverTerminates) ==>
        forall k: nat :: DeallocationPasses(s.freeFrames, 0, a.startFrame, ReturnedFrame(a), k).1 <
                         |DeallocationPasses(s.freeFrames, 0, a.startFrame, ReturnedFrame(a), k).0|
    ensures var a := s.allocations[index];
      Deallocate(s, cycle, index).0.Ok? ==>
        DeallocationPasses(s.freeFrames, 0, a.startFrame, ReturnedFrame(a), |s.freeFrames|) == (s.freeFrames, |s.freeFrames|)
  {
    var a := s.allocations[index];
    if Deallocate(s, cycle, index).0 == Err(NeverTerminates) {
      forall k: nat
        ensures DeallocationPasses(s.freeFrames, 0, a.startFrame, ReturnedFrame(a), k).1 <
                |DeallocationPasses(s.freeFrames, 0, a.startFrame, ReturnedFrame(a), k).0|
      {
        LoopReachesLargerEntry(s.freeFrames, 0, a.startFrame, ReturnedFrame(a), k);
      }
    } else if Deallocate(s, cycle, index).0.Ok? {
      LoopPassesSmallerEntries(s.freeFrames, 0, a.startFrame, ReturnedFrame(a));
    }
  }

  /** With a free entry above `start_frame` at or after index `i`, no number of passes from `i` exits the loop. */
  lemma {:induction false} LoopReachesLargerEntry(free: seq<u64>, i: nat, startFrame: u64, returned: u64, k: nat)
    requires exists j :: i <= j < |free| && free[j] > startFrame
    ensures DeallocationPasses(free, i, startFrame, returned, k).1 < |DeallocationPasses(free, i, startFrame, returned, k).0|
    decreases |free| - i
  {
    if k > 0 {
      if free[i] > startFrame {
        DeallocationLoopNeverExits(free, i, startFrame, returned, k);
      } else {
        assert DeallocationPass(free, i, startFrame, returned) == (free, i + 1);
        LoopReachesLargerEntry(free, i + 1, startFrame, returned, k - 1);
      }
    }
  }

  /** With no free entry above `start_frame` from index `i` on, the passes from `i` reach the end and insert nothing. */
  lemma {:induction false} LoopPassesSmallerEntries(free: seq<u64>, i: nat, startFrame: u64, returned: u64)
    requires i <= |free|
    requires forall j :: i <= j < |free| ==> free[j] <= startFrame
    ensures DeallocationPasses(free, i, startFrame, returned, |free| - i) == (free, |free|)
    decreases |free| - i
  {
    if i < |free| {
      assert DeallocationPass(free, i, startFrame, returned) == (free, i + 1);
      LoopPassesSmallerEntries(free, i + 1, startFrame, returned);
    }
  }

  /** The passes of the insertion loop never change the entries before the loop index. */
  lemma {:induction false} PassesKeepPrefix(free: seq<u64>, i: nat, startFrame: u64, returned: u64, k: nat, j: nat)
    requires j < i <= |free|
    ensures var (free', _) := DeallocationPasses(free, i, startFrame, returned, k);
      j < |free'| && free'[j] == free[j]
    decreases k
  {
    if k > 0 && i < |free| {
      var (free1, i1) := DeallocationPass(free, i, startFrame, returned);
      PassesKeepPrefix(free1, i1, startFrame, returned, k - 1, j);
    }
  }

  // ---------------------------------------------------------------- the C++ class

  class BuddyAllocator {
    var freeFrameTable: seq<u64>
    var allocatedFrameTable: seq<Allocation>

    function State(): AllocatorState
      reads this
    {
      AllocatorState(freeFrameTable, allocatedFrameTable)
    }

    constructor (dramSize: u64, frameSize: u64)
      requires frameSize > 0 && dramSize / frameSize < U64_MAX
      ensures State() == InitialState(dramSize, frameSize)
    {
      freeFrameTable := [];
      allocatedFrameTable := [];
      new;
      var numOfFrames := dramSize / frameSize;
      var i := 0;
      while i <= numOfFrames
        invariant 0 <= i <= numOfFrames + 1
        invariant freeFrameTable == InitialFreeFrames(i)
        invariant allocatedFrameTable == []
      {
        freeFrameTable := freeFrameTable + [i];
        i := i + 1;
      }
    }

    /** `can_merge(page)` */
    method CanMerge(page: u64) returns (r: u64)
      ensures r == MergeSize(allocatedFrameTable, page)
    {
      var i := 0;
      while i < |allocatedFrameTable|
        invariant 0 <= i <= |allocatedFrameTable|
        invariant forall j :: 0 <= j < i ==> !Mergeable(allocatedFrameTable[j], page)
      {
        if page == MergeTarget(allocatedFrameTable[i]) {
          return Add64(allocatedFrameTable[i].size, 1);
        }
        i := i + 1;
      }
      return 0;
    }

    /**
     * `merging(pref_frame, cycle)`: returns `Some(0)` after extending a record, and
     * `None` where the C++ falls off the end of the function without a return value.
     */
    method Merging(prefFrame: u64, cycle: u64) returns (r: Option<u64>)
      modifies this`allocatedFrameTable
      ensures allocatedFrameTable == MergedTable(old(allocatedFrameTable), prefFrame, cycle)
      ensures r.None? <==> FirstMergeable(old(allocatedFrameTable), prefFrame).None?
      ensures r.Some? ==> r.value == 0
    {
      var i := 0;
      while i < |allocatedFrameTable|
        invariant 0 <= i <= |allocatedFrameTable|
        invariant allocatedFrameTable == old(allocatedFrameTable)
        invariant forall j :: 0 <= j < i ==> !Mergeable(allocatedFrameTable[j], prefFrame)
      {
        if prefFrame == MergeTarget(allocatedFrameTable[i]) {
          allocatedFrameTable := allocatedFrameTable[i := allocatedFrameTable[i].(size := Add64(allocatedFrameTable[i].size, 1))];
          allocatedFrameTable := allocatedFrameTable[i := allocatedFrameTable[i].(lastAccess := cycle)];
          return Some(0);
        }
        i := i + 1;
      }
      return None;
    }

    /** `ppage_allocate(cycle, vaddr)` */
    method PpageAllocate(cycle: u64, vaddr: u64) returns (r: Result<u64, AllocError>)
      modifies this
      ensures (r, State()) == Allocate(old(State()), cycle, vaddr)
    {
      var prefFrame := CanMerge(Shr(vaddr, FRAME_SHIFT));
      var found := GetFreeFrame(freeFrameTable, prefFrame);
      if found.None? {
        return Err(FreeTableEmpty);
      }
      var realFrame := found.value;
      if prefFrame == realFrame {
        if prefFrame >= |freeFrameTable| {
          return Err(EraseOutOfRange);
        }
        var _ := Merging(prefFrame, cycle);
        freeFrameTable := RemoveAt(freeFrameTable, prefFrame);
      } else {
        allocatedFrameTable := allocatedFrameTable + [Allocation(realFrame, 1, Shr(vaddr, FRAME_SHIFT), cycle)];
        freeFrameTable := RemoveAt(freeFrameTable, 0);
      }
      return Ok(Shl64(realFrame, FRAME_SHIFT));
    }

    /** `deallocation(cycle, index)` */
    method Deallocation(cycle: u64, index: u64) returns (r: Result<(), AllocError>)
      modifies this
      ensures (r, State()) == Deallocate(old(State()), cycle, index)
    {
      if cycle > DEALLOCATION_THRESHOLD {
        if index >= |allocatedFrameTable| {
          return Err(IndexOutOfRange);
        }
        var i := 0;
        while i < |freeFrameTable|
          invariant 0 <= i <= |freeFrameTable|
          invariant forall j :: 0 <= j < i ==> freeFrameTable[j] <= allocatedFrameTable[index].startFrame
        {
          if freeFrameTable[i] > allocatedFrameTable[index].startFrame {
            // Here the C++ inserts ReturnedFrame(...) at i; the loop can then never exit.
            return Err(NeverTerminates);
          }
          i := i + 1;
        }
        allocatedFrameTable := RemoveAt(allocatedFrameTable, index);
      }
      return Ok(());
    }
  }
}
