/**
 * The address translator of src/vmem_modified.cc (class `VirtualMemory`): the
 * configuration checks of its constructor, the page list `populate_pages` builds,
 * the shift and offset arithmetic of the page-table walk, `va_to_pa` and
 * `get_pte_pa`.
 *
 * `va_to_pa` and `get_pte_pa` are methods of the class below, each proved against a
 * pure function of the old tables (`Translate`, `WalkPageTable`); the lemmas after
 * those functions state what the two calls promise, including where the C++ uses
 * different keys for the same mapping.
 */
module Vmem {
  import opened Bits
  import opened Results
  import opened Allocator

  /** Build-time constants of the simulator (4 KiB pages, 8-byte page-table entries). */
  const LOG2_PAGE_SIZE: nat := 12
  const PAGE_SIZE: u64 := 4096
  const PTE_BYTES: u64 := 8
  /** The physical bytes kept back from the page list. */
  const VMEM_RESERVE_CAPACITY: u64 := 1048576

  /** The key of `vpage_to_ppage_map`: `std::pair<uint32_t, uint64_t>`. */
  datatype VPageKey = VPageKey(cpu: u32, addr: u64)

  /** The key of `page_table`: `{cpu_num, vaddr >> shamt(level), level}`. */
  datatype PageTableKey = PageTableKey(cpu: u32, vpage: u64, level: u64)

  /** The mutable state `va_to_pa` and `get_pte_pa` read and write, with the allocator's vectors. */
  datatype Tables = Tables(
    vpageToPpage: map<VPageKey, u64>,
    pageTable: map<PageTableKey, u64>,
    nextPtePage: u64,
    allocator: AllocatorState)

  // ---------------------------------------------------------------- configuration

  /** `champsim::lg2(pte_page_size / PTE_BYTES)`: the index bits one page-table level resolves. */
  function FanoutBits(ptePageSize: u64): nat
  {
    Lg2(ptePageSize / PTE_BYTES)
  }

  /**
   * The virtual address width a page table of `levels` levels resolves: the page offset
   * and one fan-out per level. The C++ computes it in `size_t`, so it wraps modulo 2^64.
   */
  function AddressBits(ptePageSize: u64, levels: u64): u64
  {
    (LOG2_PAGE_SIZE + FanoutBits(ptePageSize) * levels) % TWO_TO_64
  }

  /** `last_ppage`: `1ull << width`, which C++ defines only for a width below 64. */
  function LastPpage(ptePageSize: u64, levels: u64): (r: u64)
    requires AddressBits(ptePageSize, levels) < 64
    ensures r == Pow2(AddressBits(ptePageSize, levels))
  {
    ShiftedOne(AddressBits(ptePageSize, levels));
    Shl64(1, AddressBits(ptePageSize, levels))
  }

  /**
   * The three assertions of the constructor. A width of 64 or more makes the shift
   * that initialises `last_ppage` undefined; such a configuration is not accepted.
   */
  predicate ConfigAccepted(ptePageSize: u64, levels: u64)
  {
    && ptePageSize > 1024
    && ptePageSize == Shl64(1, Lg2(ptePageSize))
    && AddressBits(ptePageSize, levels) < 64
    && LastPpage(ptePageSize, levels) > VMEM_RESERVE_CAPACITY
  }

  /** `1ull << e` is `2^e` below 64 and loses its only bit from 64 on. */
  lemma ShiftedOne(e: nat)
    ensures e < 64 ==> Shl64(1, e) == Pow2(e)
    ensures e >= 64 ==> Shl64(1, e) == 0
  {
    if e < 64 {
      Pow2Monotone(e, 64);
      Pow2At64();
    } else {
      Pow2Add(64, e - 64);
      Pow2At64();
      DivModOfSum(Pow2(e - 64), 0, TWO_TO_64);
    }
  }

  lemma ReserveIsPow2()
    ensures Pow2(20) == VMEM_RESERVE_CAPACITY
  {
    Pow2At16();
    Pow2Add(16, 4);
  }

  /** `1ull << e` exceeds the reserve exactly for shifts from 21 to 63. */
  lemma ShiftedOneAboveReserve(e: nat)
    ensures Shl64(1, e) > VMEM_RESERVE_CAPACITY <==> 20 < e < 64
  {
    ShiftedOne(e);
    ReserveIsPow2();
    if e < 64 {
      if e > 20 {
        Pow2Monotone(20, e);
      } else {
        Pow2Monotone(e, 20);
      }
    }
  }

  /**
   * The constructor accepts a configuration exactly when the page-table page size is
   * a power of two above 1024 and the virtual address width it implies,
   * `12 + lg2(page size / 8) * levels` reduced modulo 2^64, lies strictly between
   * 20 bits (the reserve of 2^20 bytes) and 64 bits (where the shift stops being defined).
   */
  lemma ConfigAcceptedMeaning(ptePageSize: u64, levels: u64)
    ensures ConfigAccepted(ptePageSize, levels) <==>
      && ptePageSize > 1024
      && IsPowerOfTwo(ptePageSize)
      && 20 < AddressBits(ptePageSize, levels) < 64
  {
    var e := AddressBits(ptePageSize, levels);
    if e < 64 {
      assert LastPpage(ptePageSize, levels) > VMEM_RESERVE_CAPACITY <==> 20 < e by {
        ShiftedOneAboveReserve(e);
      }
    }
    PowerOfTwoTest(ptePageSize);
  }

  /**
   * The width wraps around: 2048-byte page-table pages resolve 8 bits per level, and
   * with 2^61 + 2 levels the width `12 + 8 * (2^61 + 2)` is 2^64 + 28, which `size_t`
   * holds as 28. The constructor accepts this configuration.
   */
  lemma WrappedWidthAccepted()
    ensures AddressBits(2048, 0x2000_0000_0000_0002) == 28
    ensures ConfigAccepted(2048, 0x2000_0000_0000_0002)
  {
    assert Pow2(8) == 256 && Pow2(11) == 2048;
    Lg2OfPow2(8);
    Lg2OfPow2(11);
    assert FanoutBits(2048) == 8;
    assert Shl64(1, Lg2(2048)) == 2048 by {
      ShiftedOne(11);
    }
    ReserveIsPow2();
    Pow2Monotone(20, 28);
  }

  // ---------------------------------------------------------------- shift and offset

  /**
   * `shamt(level)`: the shift that leaves the part of the address a page-table node
   * at `level` covers. Level 0 would make `level - 1` wrap around, so levels start at 1.
   */
  function Shamt(ptePageSize: u64, level: u64): (r: nat)
    requires level >= 1
    ensures r >= LOG2_PAGE_SIZE
    ensures level == 1 ==> r == LOG2_PAGE_SIZE
  {
    MulMonotone(0, FanoutBits(ptePageSize), level - 1);
    LOG2_PAGE_SIZE + FanoutBits(ptePageSize) * (level - 1)
  }

  /** Level 1 shifts out the page offset; each further level shifts out one more fan-out. */
  lemma ShamtPerLevel(ptePageSize: u64, level: u64)
    requires 1 <= level < U64_MAX
    ensures Shamt(ptePageSize, 1) == LOG2_PAGE_SIZE
    ensures Shamt(ptePageSize, level + 1) == Shamt(ptePageSize, level) + FanoutBits(ptePageSize)
  {
  }

  lemma EntryFits(r: nat, q: nat, ptePageSize: u64)
    requires r < q && q <= ptePageSize / PTE_BYTES
    ensures r * PTE_BYTES + PTE_BYTES <= ptePageSize
  {
  }

  /**
   * `get_offset(vaddr, level)`: which entry of the level's page-table node the address
   * selects. It is below the fan-out, so the entry lies inside a page-table page.
   */
  function GetOffset(ptePageSize: u64, vaddr: u64, level: u64): (r: nat)
    requires level >= 1
    ensures r < Pow2(FanoutBits(ptePageSize))
    ensures ptePageSize >= PTE_BYTES ==> r * PTE_BYTES + PTE_BYTES <= ptePageSize
    ensures ptePageSize < PTE_BYTES ==> r == 0
  {
    var r := LowBits(Shr(vaddr, Shamt(ptePageSize, level)), FanoutBits(ptePageSize));
    if ptePageSize >= PTE_BYTES then
      EntryFits(r, Pow2(FanoutBits(ptePageSize)), ptePageSize);
      r
    else
      r
  }

  // ---------------------------------------------------------------- populate_pages

  /**
   * The page list `populate_pages` builds: page addresses from the reserve upwards,
   * 64-bit arithmetic throughout. Even where the subtraction or the additions wrap
   * around, every entry is page-aligned.
   */
  function PopulatedPages(pmemSize: u64): (r: seq<u64>)
    ensures |r| == Sub64(pmemSize, VMEM_RESERVE_CAPACITY) / PAGE_SIZE
    ensures forall k :: 0 <= k < |r| ==> r[k] % PAGE_SIZE == 0
  {
    var count := Sub64(pmemSize, VMEM_RESERVE_CAPACITY) / PAGE_SIZE;
    var pages := seq(count, k requires 0 <= k < count => ((VMEM_RESERVE_CAPACITY + k * PAGE_SIZE) % TWO_TO_64) as u64);
    assert forall k :: 0 <= k < count ==> pages[k] % PAGE_SIZE == 0 by {
      forall k | 0 <= k < count {
        PageAlignedWrap(k);
      }
    }
    pages
  }

  /** `reserve + k * PAGE_SIZE`, reduced modulo 2^64, stays page-aligned. */
  lemma PageAlignedWrap(k: nat)
    ensures ((VMEM_RESERVE_CAPACITY + k * PAGE_SIZE) % TWO_TO_64) % PAGE_SIZE == 0
  {
    assert VMEM_RESERVE_CAPACITY + k * PAGE_SIZE == (256 + k) * PAGE_SIZE;
    MultipleModMultiple(256 + k, PAGE_SIZE, 0x10_0000_0000_0000, TWO_TO_64);
  }

  /** `deque::resize(n)`: keeps the first `n` elements and pads with zeros. */
  function Resized(s: seq<u64>, n: nat): (r: seq<u64>)
    ensures |r| == n
    ensures forall k :: 0 <= k < n && k < |s| ==> r[k] == s[k]
  {
    if n <= |s| then s[..n] else s + seq(n - |s|, _ => 0)
  }

  lemma ModOfShifted(q: nat, x: nat, m: nat)
    requires m >= 1
    ensures (q * m + x) % m == x % m
  {
    DivModOfSum(q + x / m, x % m, m);
    assert q * m + x == (q + x / m) * m + x % m;
  }

  /** Adding in 64-bit arithmetic step by step is reducing the total once. */
  lemma Add64Step(a: nat, b: u64)
    requires a % TWO_TO_64 < TWO_TO_64
    ensures Add64((a % TWO_TO_64) as u64, b) == (a + b) % TWO_TO_64
  {
    ModOfShifted(a / TWO_TO_64, a % TWO_TO_64 + b, TWO_TO_64);
    assert a + b == (a / TWO_TO_64) * TWO_TO_64 + (a % TWO_TO_64 + b);
  }

  /**
   * When physical memory exceeds the reserve, the page list holds every page-aligned
   * address from the reserve up to the end of physical memory, in ascending order.
   */
  lemma PopulatedPagesLayout(pmemSize: u64)
    requires pmemSize >= VMEM_RESERVE_CAPACITY
    ensures var pages := PopulatedPages(pmemSize);
      && |pages| == (pmemSize - VMEM_RESERVE_CAPACITY) / PAGE_SIZE
      && (forall k :: 0 <= k < |pages| ==> pages[k] == VMEM_RESERVE_CAPACITY + k * PAGE_SIZE)
      && (forall k :: 0 <= k < |pages| ==> pages[k] % PAGE_SIZE == 0 && pages[k] + PAGE_SIZE <= pmemSize)
  {
    var pages := PopulatedPages(pmemSize);
    var count := (pmemSize - VMEM_RESERVE_CAPACITY) / PAGE_SIZE;
    forall k | 0 <= k < |pages|
      ensures pages[k] == VMEM_RESERVE_CAPACITY + k * PAGE_SIZE
      ensures pages[k] % PAGE_SIZE == 0 && pages[k] + PAGE_SIZE <= pmemSize
    {
      assert (k + 1) * PAGE_SIZE <= count * PAGE_SIZE <= pmemSize - VMEM_RESERVE_CAPACITY;
      DivModOfSum(VMEM_RESERVE_CAPACITY / PAGE_SIZE + k, 0, PAGE_SIZE);
    }
  }

  // ---------------------------------------------------------------- va_to_pa

  /** `map[key]` read through `operator[]`: an absent key is first inserted with value 0. */
  function Subscript(m: map<VPageKey, u64>, key: VPageKey): (r: map<VPageKey, u64>)
    ensures key in r && r[key] == (if key in m then m[key] else 0)
    ensures forall k :: k in m ==> k in r && r[k] == m[k]
    ensures forall k :: k in r && k != key ==> k in m
  {
    if key in m then m else m[key := 0]
  }

  /** `splice_bits(ppage, vaddr, LOG2_PAGE_SIZE)`: the frame's page number joined to the address's page offset. */
  function PhysicalAddress(ppage: u64, vaddr: u64): (r: u64)
    ensures r % PAGE_SIZE == vaddr % PAGE_SIZE
    ensures r / PAGE_SIZE == ppage / PAGE_SIZE
  {
    assert Pow2(LOG2_PAGE_SIZE) == PAGE_SIZE;
    SpliceBits(ppage, vaddr, LOG2_PAGE_SIZE)
  }

  /** A nonzero address differs from its page number. */
  lemma PageNumberDiffers(vaddr: u64)
    requires vaddr > 0
    ensures Shr(vaddr, LOG2_PAGE_SIZE) != vaddr
  {
    assert Pow2(LOG2_PAGE_SIZE) == PAGE_SIZE;
  }

  /**
   * `va_to_pa(cpu_num, vaddr)` at cycle `cycle`. The fault test looks up the page
   * number `vaddr >> 12`, but the new mapping is stored, and the frame read back,
   * under the whole address `vaddr`.
   */
  function Translate(t: Tables, penalty: u64, cpu: u32, vaddr: u64, cycle: u64): (r: (Result<(u64, u64), AllocError>, Tables))
    ensures r.0.Err? ==> r.1 == t
    ensures r.0.Ok? ==> VPageKey(cpu, vaddr) in r.1.vpageToPpage
    ensures r.1.pageTable == t.pageTable && r.1.nextPtePage == t.nextPtePage
  {
    var faulty := VPageKey(cpu, Shr(vaddr, LOG2_PAGE_SIZE)) !in t.vpageToPpage;
    var key := VPageKey(cpu, vaddr);
    var (granted, s') := Allocate(t.allocator, cycle, vaddr);
    if faulty && granted.Err? then (Err(granted.error), t)
    else
      var t1 := if faulty then t.(vpageToPpage := t.vpageToPpage[key := granted.value], allocator := s') else t;
      var t2 := t1.(vpageToPpage := Subscript(t1.vpageToPpage, key));
      (Ok((PhysicalAddress(t2.vpageToPpage[key], vaddr), if faulty then penalty else 0)), t2)
  }

  /**
   * `va_to_pa` charges `minor_fault_penalty` exactly when the page number was not
   * mapped, fails only then (when the allocator does), and a failure changes nothing.
   */
  lemma TranslateLatency(t: Tables, penalty: u64, cpu: u32, vaddr: u64, cycle: u64)
    ensures var (r, t') := Translate(t, penalty, cpu, vaddr, cycle);
      var faulty := VPageKey(cpu, Shr(vaddr, LOG2_PAGE_SIZE)) !in t.vpageToPpage;
      && (r.Ok? ==> r.value.1 == if faulty then penalty else 0)
      && (r.Err? ==> faulty && t' == t && r.error == Allocate(t.allocator, cycle, vaddr).0.error)
  {
  }

  /**
   * The physical address keeps the 12 offset bits of `vaddr` below the upper bits of
   * the frame address now stored under the whole address `vaddr`.
   */
  lemma TranslateSplice(t: Tables, penalty: u64, cpu: u32, vaddr: u64, cycle: u64)
    requires Translate(t, penalty, cpu, vaddr, cycle).0.Ok?
    ensures var (r, t') := Translate(t, penalty, cpu, vaddr, cycle);
      && VPageKey(cpu, vaddr) in t'.vpageToPpage
      && r.value.0 % PAGE_SIZE == vaddr % PAGE_SIZE
      && r.value.0 / PAGE_SIZE == t'.vpageToPpage[VPageKey(cpu, vaddr)] / PAGE_SIZE
  {
  }

  /**
   * On a fault, the frame the allocator hands out is stored under the whole address,
   * every other mapping is kept, and the allocator moves on as `ppage_allocate` says.
   */
  lemma TranslateOnFault(t: Tables, penalty: u64, cpu: u32, vaddr: u64, cycle: u64)
    requires VPageKey(cpu, Shr(vaddr, LOG2_PAGE_SIZE)) !in t.vpageToPpage
    requires Translate(t, penalty, cpu, vaddr, cycle).0.Ok?
    ensures var (granted, s') := Allocate(t.allocator, cycle, vaddr);
      var (r, t') := Translate(t, penalty, cpu, vaddr, cycle);
      && granted.Ok?
      && t'.vpageToPpage == t.vpageToPpage[VPageKey(cpu, vaddr) := granted.value]
      && t'.allocator == s'
      && t'.pageTable == t.pageTable && t'.nextPtePage == t.nextPtePage
      && r.value.1 == penalty
  {
  }

  /**
   * Because the mapping is stored under the whole address, a second `va_to_pa` of the
   * same nonzero address faults again: the page-number key it tests is still absent.
   */
  lemma RepeatedTranslationFaultsAgain(t: Tables, penalty: u64, cpu: u32, vaddr: u64, cycle: u64)
    requires vaddr > 0
    requires VPageKey(cpu, Shr(vaddr, LOG2_PAGE_SIZE)) !in t.vpageToPpage
    requires Translate(t, penalty, cpu, vaddr, cycle).0.Ok?
    ensures VPageKey(cpu, Shr(vaddr, LOG2_PAGE_SIZE)) !in Translate(t, penalty, cpu, vaddr, cycle).1.vpageToPpage
  {
    PageNumberDiffers(vaddr);
  }

  /**
   * A `va_to_pa` whose page number is mapped takes no fault, so it never calls the
   * allocator: the allocator, the page table and its cursor are left alone.
   */
  lemma TranslateHitNoAllocation(t: Tables, penalty: u64, cpu: u32, vaddr: u64, cycle: u64)
    requires VPageKey(cpu, Shr(vaddr, LOG2_PAGE_SIZE)) in t.vpageToPpage
    ensures var (r, t') := Translate(t, penalty, cpu, vaddr, cycle);
      && r.Ok? && r.value.1 == 0
      && t'.allocator == t.allocator && t'.pageTable == t.pageTable && t'.nextPtePage == t.nextPtePage
  {
  }

  /**
   * With both the page number and the whole address mapped, `va_to_pa` changes
   * nothing and answers with the stored frame joined to the page offset, at no cost.
   */
  lemma TranslateFullHit(t: Tables, penalty: u64, cpu: u32, vaddr: u64, cycle: u64)
    requires VPageKey(cpu, Shr(vaddr, LOG2_PAGE_SIZE)) in t.vpageToPpage
    requires VPageKey(cpu, vaddr) in t.vpageToPpage
    ensures Translate(t, penalty, cpu, vaddr, cycle) ==
      (Ok((PhysicalAddress(t.vpageToPpage[VPageKey(cpu, vaddr)], vaddr), 0)), t)
  {
  }

  /**
   * When the page number is mapped but the whole address is not, `operator[]` inserts
   * frame 0: no fault is charged and the result is the page offset alone.
   */
  lemma TranslateHitReadsFrameZero(t: Tables, penalty: u64, cpu: u32, vaddr: u64, cycle: u64)
    requires VPageKey(cpu, Shr(vaddr, LOG2_PAGE_SIZE)) in t.vpageToPpage
    requires VPageKey(cpu, vaddr) !in t.vpageToPpage
    ensures var (r, t') := Translate(t, penalty, cpu, vaddr, cycle);
      && r == Ok(((vaddr % PAGE_SIZE) as u64, 0))
      && t'.vpageToPpage == t.vpageToPpage[VPageKey(cpu, vaddr) := 0]
      && t'.allocator == t.allocator
  {
    var r := Translate(t, penalty, cpu, vaddr, cycle).0;
    assert r.value.0 / PAGE_SIZE == 0 && r.value.0 % PAGE_SIZE == vaddr % PAGE_SIZE;
  }

  // ---------------------------------------------------------------- get_pte_pa

  /** `splice_bits(node, offset * PTE_BYTES, lg2(pte_page_size))`: the address of an entry of a page-table node. */
  function PteAddress(ptePageSize: u64, node: u64, offset: nat): (r: u64)
    requires offset * PTE_BYTES < TWO_TO_64
    ensures Lg2(ptePageSize) < 64
    ensures r % Pow2(Lg2(ptePageSize)) == (offset * PTE_BYTES) % Pow2(Lg2(ptePageSize))
    ensures r / Pow2(Lg2(ptePageSize)) == node / Pow2(Lg2(ptePageSize))
  {
    Lg2Below64(ptePageSize);
    SpliceBits(node, (offset * PTE_BYTES) as u64, Lg2(ptePageSize))
  }

  /**
   * For a power-of-two page-table page size, an entry address keeps the node's page
   * and holds the entry's byte offset in its low bits.
   */
  lemma PteAddressInNode(ptePageSize: u64, node: u64, offset: nat)
    requires IsPowerOfTwo(ptePageSize) && offset * PTE_BYTES < ptePageSize
    ensures PteAddress(ptePageSize, node, offset) % ptePageSize == offset * PTE_BYTES
    ensures PteAddress(ptePageSize, node, offset) / ptePageSize == node / ptePageSize
  {
    var k: nat :| ptePageSize == Pow2(k);
    Lg2OfPow2(k);
    DivModOfSum(0, offset * PTE_BYTES, ptePageSize);
  }

  /**
   * `get_pte_pa(cpu_num, vaddr, level)` at cycle `cycle`. A zero cursor is first
   * refilled from the allocator. A node not yet in `page_table` gets the cursor's
   * page and costs a fault; the cursor then advances by one page-table page, and when
   * it lands on a page boundary the allocator's new frame is stored in
   * `vpage_to_ppage_map` rather than in the cursor.
   */
  function WalkPageTable(t: Tables, ptePageSize: u64, penalty: u64, cpu: u32, vaddr: u64, level: u64, cycle: u64)
    : (r: (Result<(u64, u64), AllocError>, Tables))
    requires level >= 1
    ensures forall k :: k in t.pageTable ==> k in r.1.pageTable && r.1.pageTable[k] == t.pageTable[k]
    ensures r.1.vpageToPpage.Keys <= t.vpageToPpage.Keys + {VPageKey(cpu, vaddr)}
  {
    match RefillCursor(t, cycle, vaddr)
    case Err(e) => (Err(e), t)
    case Ok(t1) => WalkFrom(t1, ptePageSize, penalty, cpu, vaddr, level, cycle)
  }

  /** The first step of `get_pte_pa`: a zero `next_pte_page` takes the address of a newly allocated frame. */
  function RefillCursor(t: Tables, cycle: u64, vaddr: u64): (r: Result<Tables, AllocError>)
    ensures t.nextPtePage != 0 ==> r == Ok(t)
    ensures r.Ok? ==> r.value.pageTable == t.pageTable && r.value.vpageToPpage == t.vpageToPpage
  {
    if t.nextPtePage != 0 then Ok(t)
    else
      var (first, s1) := Allocate(t.allocator, cycle, vaddr);
      if first.Err? then Err(first.error) else Ok(t.(nextPtePage := first.value, allocator := s1))
  }

  /** `page_table.insert({key, next_pte_page})`, and on a miss the cursor's advance by one page-table page. */
  function InsertNode(t1: Tables, ptePageSize: u64, key: PageTableKey): (r: Tables)
    ensures key in r.pageTable
    ensures forall k :: k in t1.pageTable ==> k in r.pageTable && r.pageTable[k] == t1.pageTable[k]
    ensures r.vpageToPpage == t1.vpageToPpage && r.allocator == t1.allocator
  {
    if key in t1.pageTable then t1
    else t1.(pageTable := t1.pageTable[key := t1.nextPtePage], nextPtePage := Add64(t1.nextPtePage, ptePageSize))
  }

  /** The rest of `get_pte_pa`, from the lookup in `page_table` on. */
  function WalkFrom(t1: Tables, ptePageSize: u64, penalty: u64, cpu: u32, vaddr: u64, level: u64, cycle: u64)
    : (r: (Result<(u64, u64), AllocError>, Tables))
    requires level >= 1
    ensures PageTableKey(cpu, Shr(vaddr, Shamt(ptePageSize, level)), level) in r.1.pageTable
    ensures forall k :: k in t1.pageTable ==> k in r.1.pageTable && r.1.pageTable[k] == t1.pageTable[k]
    ensures r.1.vpageToPpage.Keys <= t1.vpageToPpage.Keys + {VPageKey(cpu, vaddr)}
  {
    var key := PageTableKey(cpu, Shr(vaddr, Shamt(ptePageSize, level)), level);
    var fault := key !in t1.pageTable;
    var t2 := InsertNode(t1, ptePageSize, key);
    var paddr := PteAddress(ptePageSize, t2.pageTable[key], GetOffset(ptePageSize, vaddr, level));
    if fault && t2.nextPtePage % PAGE_SIZE == 0 then
      match StoreNewFrame(t2, cpu, vaddr, cycle)
      case Err(e) => (Err(e), t2)
      case Ok(t3) => (Ok((paddr, penalty)), t3)
    else
      (Ok((paddr, if fault then penalty else 0)), t2)
  }

  /** `vpage_to_ppage_map[{cpu_num, vaddr}] = BA.ppage_allocate(...)`, done when the advanced cursor lands on a page boundary. */
  function StoreNewFrame(t2: Tables, cpu: u32, vaddr: u64, cycle: u64): (r: Result<Tables, AllocError>)
    ensures r.Ok? ==> r.value.vpageToPpage.Keys == t2.vpageToPpage.Keys + {VPageKey(cpu, vaddr)}
    ensures r.Ok? ==> r.value.pageTable == t2.pageTable && r.value.nextPtePage == t2.nextPtePage
  {
    var (granted, s') := Allocate(t2.allocator, cycle, vaddr);
    if granted.Err? then Err(granted.error)
    else Ok(t2.(vpageToPpage := t2.vpageToPpage[VPageKey(cpu, vaddr) := granted.value], allocator := s'))
  }

  /**
   * `page_table.insert` never overwrites: with the cursor set, a node already in the
   * table is answered from it at no cost, and nothing changes.
   */
  lemma WalkHit(t: Tables, ptePageSize: u64, penalty: u64, cpu: u32, vaddr: u64, level: u64, cycle: u64)
    requires level >= 1 && t.nextPtePage != 0
    requires PageTableKey(cpu, Shr(vaddr, Shamt(ptePageSize, level)), level) in t.pageTable
    ensures var (r, t') := WalkPageTable(t, ptePageSize, penalty, cpu, vaddr, level, cycle);
      var key := PageTableKey(cpu, Shr(vaddr, Shamt(ptePageSize, level)), level);
      && r.Ok? && r.value.1 == 0 && t' == t
      && r.value.0 == PteAddress(ptePageSize, t.pageTable[key], GetOffset(ptePageSize, vaddr, level))
  {
  }

  /**
   * With the cursor set, a node not yet in the table costs `minor_fault_penalty`, is
   * given the cursor's page, and moves the cursor on by exactly `pte_page_size`.
   */
  lemma WalkMiss(t: Tables, ptePageSize: u64, penalty: u64, cpu: u32, vaddr: u64, level: u64, cycle: u64)
    requires level >= 1 && t.nextPtePage != 0
    requires PageTableKey(cpu, Shr(vaddr, Shamt(ptePageSize, level)), level) !in t.pageTable
    requires WalkPageTable(t, ptePageSize, penalty, cpu, vaddr, level, cycle).0.Ok?
    ensures var (r, t') := WalkPageTable(t, ptePageSize, penalty, cpu, vaddr, level, cycle);
      var key := PageTableKey(cpu, Shr(vaddr, Shamt(ptePageSize, level)), level);
      && r.value.1 == penalty
      && t'.pageTable == t.pageTable[key := t.nextPtePage]
      && t'.nextPtePage == Add64(t.nextPtePage, ptePageSize)
      && (t'.nextPtePage % PAGE_SIZE != 0 ==> t'.vpageToPpage == t.vpageToPpage && t'.allocator == t.allocator)
  {
  }

  /**
   * With the cursor set, a new node whose advance lands the cursor on a page boundary
   * makes `get_pte_pa` allocate a frame and store it in `vpage_to_ppage_map` under the
   * whole address `(cpu, vaddr)`, not in the cursor: the cursor keeps its advanced value.
   */
  lemma WalkBoundaryStore(t: Tables, ptePageSize: u64, penalty: u64, cpu: u32, vaddr: u64, level: u64, cycle: u64)
    requires level >= 1 && t.nextPtePage != 0
    requires PageTableKey(cpu, Shr(vaddr, Shamt(ptePageSize, level)), level) !in t.pageTable
    requires Add64(t.nextPtePage, ptePageSize) % PAGE_SIZE == 0
    ensures var (granted, s') := Allocate(t.allocator, cycle, vaddr);
      var (r, t') := WalkPageTable(t, ptePageSize, penalty, cpu, vaddr, level, cycle);
      && (r.Ok? <==> granted.Ok?)
      && (r.Ok? ==> t'.vpageToPpage == t.vpageToPpage[VPageKey(cpu, vaddr) := granted.value] && t'.allocator == s')
      && t'.nextPtePage == Add64(t.nextPtePage, ptePageSize)
  {
  }

  /**
   * A failed walk never changes `vpage_to_ppage_map`. If the cursor refill fails,
   * nothing changes. Otherwise the failure is the page-boundary allocation, which
   * comes after the refill, the node's insertion and the cursor's advance, and those
   * changes stay.
   */
  lemma WalkFailure(t: Tables, ptePageSize: u64, penalty: u64, cpu: u32, vaddr: u64, level: u64, cycle: u64)
    requires level >= 1
    ensures var (r, t') := WalkPageTable(t, ptePageSize, penalty, cpu, vaddr, level, cycle);
      var key := PageTableKey(cpu, Shr(vaddr, Shamt(ptePageSize, level)), level);
      var refilled := RefillCursor(t, cycle, vaddr);
      r.Err? ==>
      && t'.vpageToPpage == t.vpageToPpage
      && (refilled.Err? ==> t' == t)
      && (refilled.Ok? ==>
            && key !in refilled.value.pageTable
            && t'.pageTable == refilled.value.pageTable[key := refilled.value.nextPtePage]
            && t'.nextPtePage == Add64(refilled.value.nextPtePage, ptePageSize)
            && t'.allocator == refilled.value.allocator)
  {
    match RefillCursor(t, cycle, vaddr)
    case Err(_) =>
    case Ok(t1) =>
      WalkFromFailure(t1, ptePageSize, penalty, cpu, vaddr, level, cycle);
  }

  /** A failure after the refill is the page-boundary allocation, after the insert and the advance. */
  lemma WalkFromFailure(t1: Tables, ptePageSize: u64, penalty: u64, cpu: u32, vaddr: u64, level: u64, cycle: u64)
    requires level >= 1
    ensures var (r, t') := WalkFrom(t1, ptePageSize, penalty, cpu, vaddr, level, cycle);
      var key := PageTableKey(cpu, Shr(vaddr, Shamt(ptePageSize, level)), level);
      r.Err? ==>
      && key !in t1.pageTable
      && t' == InsertNode(t1, ptePageSize, key)
  {
  }

  /**
   * Whatever the cursor, a successful walk costs `minor_fault_penalty` exactly when the
   * node was not in `page_table` before the call (the refill never touches the table).
   */
  lemma WalkLatency(t: Tables, ptePageSize: u64, penalty: u64, cpu: u32, vaddr: u64, level: u64, cycle: u64)
    requires level >= 1
    ensures var (r, _) := WalkPageTable(t, ptePageSize, penalty, cpu, vaddr, level, cycle);
      var key := PageTableKey(cpu, Shr(vaddr, Shamt(ptePageSize, level)), level);
      r.Ok? ==> r.value.1 == if key in t.pageTable then 0 else penalty
  {
  }

  /** A zero cursor is refilled with the address of a newly granted frame before the lookup. */
  lemma WalkRefillsZeroCursor(t: Tables, ptePageSize: u64, penalty: u64, cpu: u32, vaddr: u64, level: u64, cycle: u64)
    requires level >= 1 && t.nextPtePage == 0
    ensures var (first, _) := Allocate(t.allocator, cycle, vaddr);
      var key := PageTableKey(cpu, Shr(vaddr, Shamt(ptePageSize, level)), level);
      var (r, t') := WalkPageTable(t, ptePageSize, penalty, cpu, vaddr, level, cycle);
      r.Ok? ==>
      && first.Ok?
      && (key in t.pageTable ==> t'.nextPtePage == first.value && t'.pageTable == t.pageTable)
      && (key !in t.pageTable ==> t'.pageTable == t.pageTable[key := first.value])
  {
  }

  /**
   * For a power-of-two page-table page size, a successful walk answers with an
   * address inside the node the table now holds for the key, at the byte offset
   * `offset * PTE_BYTES` of the entry `get_offset` selects.
   */
  lemma WalkEntryOffset(t: Tables, ptePageSize: u64, penalty: u64, cpu: u32, vaddr: u64, level: u64, cycle: u64)
    requires level >= 1 && ptePageSize >= PTE_BYTES && IsPowerOfTwo(ptePageSize)
    ensures var (r, t') := WalkPageTable(t, ptePageSize, penalty, cpu, vaddr, level, cycle);
      var key := PageTableKey(cpu, Shr(vaddr, Shamt(ptePageSize, level)), level);
      r.Ok? ==>
      && key in t'.pageTable
      && r.value.0 % ptePageSize == GetOffset(ptePageSize, vaddr, level) * PTE_BYTES
      && r.value.0 / ptePageSize == t'.pageTable[key] / ptePageSize
  {
    var (r, t') := WalkPageTable(t, ptePageSize, penalty, cpu, vaddr, level, cycle);
    var key := PageTableKey(cpu, Shr(vaddr, Shamt(ptePageSize, level)), level);
    if r.Ok? {
      PteAddressInNode(ptePageSize, t'.pageTable[key], GetOffset(ptePageSize, vaddr, level));
    }
  }

  // ---------------------------------------------------------------- the C++ class

  class VirtualMemory {
    const minorFaultPenalty: u64
    const ptLevels: u64
    const ptePageSize: u64
    const pmemSize: u64
    const lastPpage: u64
    /** The member object `BA`. */
    const ba: BuddyAllocator
    var nextPpage: u64
    var ppageFreeList: seq<u64>
    var vpageToPpageMap: map<VPageKey, u64>
    var pageTable: map<PageTableKey, u64>
    var nextPtePage: u64

    function Snapshot(): Tables
      reads this, ba
    {
      Tables(vpageToPpageMap, pageTable, nextPtePage, ba.State())
    }

    /** `VirtualMemory(page_table_page_size, page_table_levels, minor_penalty, dram)`, with `dram.size()` as `dramSize`. */
    constructor (pageTablePageSize: u64, pageTableLevels: u64, minorPenalty: u64, dramSize: u64)
      requires ConfigAccepted(pageTablePageSize, pageTableLevels)
      ensures ptePageSize == pageTablePageSize && ptLevels == pageTableLevels
      ensures minorFaultPenalty == minorPenalty && pmemSize == dramSize
      ensures nextPpage == VMEM_RESERVE_CAPACITY && lastPpage == LastPpage(pageTablePageSize, pageTableLevels)
      ensures fresh(ba) && ba.State() == InitialState(dramSize, FRAME_BYTES as u64)
      ensures Snapshot() == Tables(map[], map[], 0, InitialState(dramSize, FRAME_BYTES as u64))
      ensures ppageFreeList == []
    {
      nextPpage := VMEM_RESERVE_CAPACITY;
      lastPpage := LastPpage(pageTablePageSize, pageTableLevels);
      minorFaultPenalty := minorPenalty;
      ptLevels := pageTableLevels;
      ptePageSize := pageTablePageSize;
      pmemSize := dramSize;
      ba := new BuddyAllocator(dramSize, FRAME_BYTES as u64);
      ppageFreeList := [];
      vpageToPpageMap := map[];
      pageTable := map[];
      nextPtePage := 0;
    }

    /** `populate_pages()` */
    method PopulatePages()
      modifies this`ppageFreeList
      ensures ppageFreeList == PopulatedPages(pmemSize)
    {
      var count := Sub64(pmemSize, VMEM_RESERVE_CAPACITY) / PAGE_SIZE;
      ppageFreeList := Resized(ppageFreeList, count);
      var baseAddress: u64 := VMEM_RESERVE_CAPACITY;
      var i := 0;
      while i < count
        invariant 0 <= i <= count && |ppageFreeList| == count
        invariant baseAddress == (VMEM_RESERVE_CAPACITY + i * PAGE_SIZE) % TWO_TO_64
        invariant forall k :: 0 <= k < i ==> ppageFreeList[k] == PopulatedPages(pmemSize)[k]
      {
        ppageFreeList := ppageFreeList[i := baseAddress];
        Add64Step(VMEM_RESERVE_CAPACITY + i * PAGE_SIZE, PAGE_SIZE);
        baseAddress := Add64(baseAddress, PAGE_SIZE);
        i := i + 1;
      }
    }

    /** `shamt(level)` */
    function ShiftAmount(level: u64): nat
      requires level >= 1
    {
      Shamt(ptePageSize, level)
    }

    /** `va_to_pa(cpu_num, vaddr)`, with `dram.current_cycle` as `cycle`. */
    method VaToPa(cpuNum: u32, vaddr: u64, cycle: u64) returns (r: Result<(u64, u64), AllocError>)
      modifies this, ba
      ensures (r, Snapshot()) == Translate(old(Snapshot()), minorFaultPenalty, cpuNum, vaddr, cycle)
      ensures ppageFreeList == old(ppageFreeList) && nextPpage == old(nextPpage)
    {
      var faulty := VPageKey(cpuNum, Shr(vaddr, LOG2_PAGE_SIZE)) !in vpageToPpageMap;
      if faulty {
        var granted := ba.PpageAllocate(cycle, vaddr);
        if granted.Err? {
          return Err(granted.error);
        }
        vpageToPpageMap := vpageToPpageMap[VPageKey(cpuNum, vaddr) := granted.value];
      }
      vpageToPpageMap := Subscript(vpageToPpageMap, VPageKey(cpuNum, vaddr));
      var ppage := vpageToPpageMap[VPageKey(cpuNum, vaddr)];
      var paddr := PhysicalAddress(ppage, vaddr);
      return Ok((paddr, if faulty then minorFaultPenalty else 0));
    }

    /** The opening step of `get_pte_pa`: refill a zero `next_pte_page` from the allocator. */
    method RefillPteCursor(vaddr: u64, cycle: u64) returns (r: Result<(), AllocError>)
      modifies this`nextPtePage, ba
      ensures r.Err? ==> RefillCursor(old(Snapshot()), cycle, vaddr) == Err(r.error) && Snapshot() == old(Snapshot())
      ensures r.Ok? ==> RefillCursor(old(Snapshot()), cycle, vaddr) == Ok(Snapshot())
    {
      if nextPtePage == 0 {
        var granted := ba.PpageAllocate(cycle, vaddr);
        if granted.Err? {
          return Err(granted.error);
        }
        nextPtePage := granted.value;
      }
      return Ok(());
    }

    /** The page-boundary step of `get_pte_pa`: store a newly allocated frame under the whole address. */
    method StorePteFrame(cpuNum: u32, vaddr: u64, cycle: u64) returns (r: Result<(), AllocError>)
      modifies this`vpageToPpageMap, ba
      ensures r.Err? ==> StoreNewFrame(old(Snapshot()), cpuNum, vaddr, cycle) == Err(r.error) && Snapshot() == old(Snapshot())
      ensures r.Ok? ==> StoreNewFrame(old(Snapshot()), cpuNum, vaddr, cycle) == Ok(Snapshot())
    {
      var granted := ba.PpageAllocate(cycle, vaddr);
      if granted.Err? {
        return Err(granted.error);
      }
      vpageToPpageMap := vpageToPpageMap[VPageKey(cpuNum, vaddr) := granted.value];
      return Ok(());
    }

    /** `get_pte_pa(cpu_num, vaddr, level)`, with `dram.current_cycle` as `cycle`. */
    method GetPtePa(cpuNum: u32, vaddr: u64, level: u64, cycle: u64) returns (r: Result<(u64, u64), AllocError>)
      requires level >= 1
      modifies this, ba
      ensures (r, Snapshot()) == WalkPageTable(old(Snapshot()), ptePageSize, minorFaultPenalty, cpuNum, vaddr, level, cycle)
      ensures ppageFreeList == old(ppageFreeList) && nextPpage == old(nextPpage)
    {
      var refilled := RefillPteCursor(vaddr, cycle);
      if refilled.Err? {
        return Err(refilled.error);
      }
      ghost var t1 := Snapshot();
      var key := PageTableKey(cpuNum, Shr(vaddr, ShiftAmount(level)), level);
      var fault := key !in pageTable;
      if fault {
        pageTable := pageTable[key := nextPtePage];
      }
      var ppage := pageTable[key];
      if fault {
        nextPtePage := Add64(nextPtePage, ptePageSize);
        if nextPtePage % PAGE_SIZE == 0 {
          var stored := StorePteFrame(cpuNum, vaddr, cycle);
          if stored.Err? {
            return Err(stored.error);
          }
        }
      }
      var offset := GetOffset(ptePageSize, vaddr, level);
      var paddr := PteAddress(ptePageSize, ppage, offset);
      return Ok((paddr, if fault then minorFaultPenalty else 0));
    }
  }
}
