// The memory system calls of a ring-3 process (syscall.c): SYS_MMAP, SYS_DEV_MAP, SYS_V2P and the pointer
// gate, over the process's page tables.
module UserMemory {
  import opened PhysMemory
  import opened FrameAllocator
  import opened Alignment
  import opened PageTables
  import opened UserRights
  import opened TableDepth
  import opened AddressSpaces
  import opened ProcessMemory
  import opened ClearedPages

  const MAX_REGIONS: nat := 8
  const MAX_MMAP: nat := 8192
  const GUARD: nat := 0x10000
  const MAX_DEVICE: nat := 0x100000
  const U64: nat := 0x1_0000_0000_0000_0000

  // umap_base[i], umap_size[i]
  datatype Span = Span(base: nat, size: nat)

  ghost predicate Accepts(umap: seq<Span>, v: nat)
  {
    exists i | 0 <= i < |umap| :: umap[i].base <= v < umap[i].base + umap[i].size
  }

  // The lower-half slots from USER_BASE up are the process's own.
  ghost predicate UserSlotsFree(s: State)
    requires s.ker < |s.mem|
  {
    forall i | 64 <= i < 256 :: !KernelSlot(s, i)
  }

  lemma UserRange(s: State, v: nat)
    requires s.ker < |s.mem| && UserSlotsFree(s) && USER_BASE <= v < USER_END
    ensures UserAddress(s, v)
  {
    hide KernelSlot;
    assert 64 <= v / 0x80_0000_0000 < 256;
  }

  // A leaf that may be written may not be executed.
  predicate WriteXorExecute(e: nat) { !(Writable(e) && !NoExecute(e)) }

  // A leaf for data of ring 3: read and written, not executed.
  predicate DataLeaf(e: nat): (b: bool)
    ensures b ==> WriteXorExecute(e)
  {
    Present(e) && UserBit(e) && Writable(e) && NoExecute(e)
  }

  // What the process table says about a process's memory, and that the page tables agree: below the device
  // window an address is mapped exactly when it lies in a recorded region; the window holds only MMIO leaves.
  ghost predicate Layout(s: State, root: nat, umap: seq<Span>, heap: int)
  {
    s.ker < |s.mem| && UserSlotsFree(s) && root < |s.tag| && s.tag[root].Root?
    && Regions(umap, heap)
    && (forall v: nat | USER_BASE <= v < USER_END :: AddressOk(s.mem, root, umap, v))
  }

  ghost predicate AddressOk(mem: Memory, root: nat, umap: seq<Span>, v: nat)
  {
    var e := Translate(mem, root, v);
    (v < DEVIO_BASE ==> (e.Some? <==> Accepts(umap, v)))
    && (e.Some? ==> (Mmio(e.value) <==> v >= DEVIO_BASE) && WriteXorExecute(e.value))
  }

  lemma AlignedSum(a: nat, b: nat)
    requires PageAligned(a) && PageAligned(b)
    ensures PageAligned(a + b)
  {
  }

  ghost predicate Regions(umap: seq<Span>, heap: int)
  {
    0 < |umap| <= MAX_REGIONS && (heap == -1 || heap == |umap| - 1 >= 0)
    && (forall i | 0 <= i < |umap| :: PageAligned(umap[i].base) && PageAligned(umap[i].size)
                                      && USER_BASE <= umap[i].base && umap[i].base + umap[i].size <= DEVIO_BASE)
    && (heap >= 0 ==> forall i | 0 <= i < heap :: umap[i].base + umap[i].size <= umap[heap].base)
  }

  // The highest end of any region.
  function Top(umap: seq<Span>): nat
  {
    if umap == [] then 0
    else
      var t, last := Top(umap[..|umap| - 1]), umap[|umap| - 1];
      if last.base + last.size > t then last.base + last.size else t
  }

  lemma {:induction false} TopBounds(umap: seq<Span>)
    ensures forall i | 0 <= i < |umap| :: umap[i].base + umap[i].size <= Top(umap)
  {
    if umap != [] { TopBounds(umap[..|umap| - 1]); }
  }

  function RoundUp(n: nat): nat { (n + PAGE - 1) / PAGE * PAGE }

  // Where the next SYS_MMAP starts: the end of the heap region, or past the highest region and a guard gap.
  function NextBase(umap: seq<Span>, heap: int): nat
    requires -1 <= heap < |umap|
  {
    if heap >= 0 then umap[heap].base + umap[heap].size else RoundUp(Top(umap)) + GUARD
  }

  // A request for no page is one for a page.
  function Pages(request: nat): nat { if request == 0 then 1 else request }

  function GrownRegions(umap: seq<Span>, heap: int, bytes: nat): seq<Span>
    requires -1 <= heap < |umap|
  {
    if heap >= 0 then umap[heap := Span(umap[heap].base, umap[heap].size + bytes)]
    else umap + [Span(NextBase(umap, heap), bytes)]
  }

  lemma NextBaseFree(umap: seq<Span>, heap: int, v: nat)
    requires Regions(umap, heap) && v >= NextBase(umap, heap)
    ensures !Accepts(umap, v)
  {
    if heap < 0 {
      TopBounds(umap);
      assert RoundUp(Top(umap)) >= Top(umap);
    }
  }

  // Consecutive calls return consecutive ranges.
  lemma NextBaseContiguous(umap: seq<Span>, heap: int, bytes: nat)
    requires Regions(umap, heap)
    ensures var u := GrownRegions(umap, heap, bytes);
            NextBase(u, |u| - 1) == NextBase(umap, heap) + bytes
  {
  }

  lemma RoundUpFacts(n: nat)
    ensures RoundUp(n) >= n && PageAligned(RoundUp(n)) && PageAligned(RoundUp(n) + GUARD)
  {
  }

  lemma GrownRegionsOk(umap: seq<Span>, heap: int, bytes: nat)
    requires Regions(umap, heap) && (heap < 0 ==> |umap| < MAX_REGIONS) && PageAligned(bytes)
    requires NextBase(umap, heap) + bytes <= DEVIO_BASE
    ensures var u := GrownRegions(umap, heap, bytes); Regions(u, |u| - 1)
    ensures PageAligned(NextBase(umap, heap)) && NextBase(umap, heap) >= USER_BASE
  {
    TopBounds(umap);
    RoundUpFacts(Top(umap));
    hide RoundUp, Top, PageAligned;
    assert umap[0].base + umap[0].size <= Top(umap);
    var u := GrownRegions(umap, heap, bytes);
    if heap < 0 {
      assert forall i | 0 <= i < |umap| :: u[i] == umap[i];
    } else {
      AlignedSum(umap[heap].size, bytes);
      AlignedSum(umap[heap].base, umap[heap].size);
      assert forall i | 0 <= i < heap :: u[i] == umap[i];
    }
  }

  lemma GrownAccepts(umap: seq<Span>, heap: int, bytes: nat, v: nat)
    requires -1 <= heap < |umap|
    ensures Accepts(GrownRegions(umap, heap, bytes), v)
            <==> Accepts(umap, v) || NextBase(umap, heap) <= v < NextBase(umap, heap) + bytes
  {
    hide RoundUp, Top;
    var u, b := GrownRegions(umap, heap, bytes), NextBase(umap, heap);
    var k := if heap >= 0 then heap else |umap|;
    if Accepts(umap, v) {
      var i :| 0 <= i < |umap| && umap[i].base <= v < umap[i].base + umap[i].size;
      assert u[i].base <= v < u[i].base + u[i].size;
    }
    if b <= v < b + bytes { assert u[k].base <= v < u[k].base + u[k].size; }
  }

  // ---------------------------------------------------------------- room for the heap

  // Own leaves of one address space on different pages hold different frames.
  lemma OneLeafPerFrame(s: State, root: nat, v: nat, w: nat, f: nat)
    requires Inv(s) && root < |s.tag| && s.tag[root].Root? && UserAddress(s, v) && UserAddress(s, w)
    requires Holds(Translate(s.mem, root, v), f) && Holds(Translate(s.mem, root, w), f)
    ensures SamePage(v, w)
  {
    hide WordAt, Present, Huge, Mmio, Frame, L4, L3, L2, L1, EntriesOk, ParentsOk, KernelApart;
    WalkTags(s, root, v);
    WalkTags(s, root, w);
  }

  // The pages lo..lo+n hold a frame each.
  ghost predicate Held(s: State, root: nat, lo: nat, n: nat)
    requires s.ker < |s.mem|
  {
    forall p | lo <= p < lo + n :: p * PAGE < USER_END && UserAddress(s, p * PAGE) && HeldSome(s.mem, root, p * PAGE)
  }

  ghost predicate HeldSome(mem: Memory, root: nat, v: nat)
  {
    var e := Translate(mem, root, v);
    e.Some? && OwnLeaf(e.value)
  }

  // So there are no more of them than frames.
  lemma {:induction false} HeldFrames(s: State, root: nat, lo: nat, n: nat) returns (fs: set<nat>)
    requires Inv(s) && root < |s.tag| && s.tag[root].Root? && Held(s, root, lo, n)
    ensures |fs| == n && fs <= Run(0, |s.mem|)
    ensures forall f | f in fs :: exists p | lo <= p < lo + n :: Holds(Translate(s.mem, root, p * PAGE), f)
  {
    hide Translate, OwnLeaf, Frame, L4, L3, L2, L1, KernelSlot, EntriesOk, ParentsOk, KernelApart;
    if n == 0 {
      fs := {};
    } else {
      var q := lo + n - 1;
      var gs := HeldFrames(s, root, lo, n - 1);
      assert HeldSome(s.mem, root, q * PAGE);
      var f := Frame(Translate(s.mem, root, q * PAGE).value);
      assert Holds(Translate(s.mem, root, q * PAGE), f);
      HeldFrame(s, root, q * PAGE);
      if f in gs {
        var p :| lo <= p < lo + n - 1 && Holds(Translate(s.mem, root, p * PAGE), f);
        OneLeafPerFrame(s, root, p * PAGE, q * PAGE, f);
        SamePageIsSameFrameOfAddresses(p * PAGE, q * PAGE);
        assert false;
      }
      fs := gs + {f};
    }
  }

  lemma {:induction false} SubsetSize(a: set<nat>, b: set<nat>)
    requires a <= b
    ensures |a| <= |b|
  {
    if x :| x in a { SubsetSize(a - {x}, b - {x}); }
  }

  lemma {:induction false} RunSize(f: nat, n: nat)
    ensures |Run(f, n)| == n
  {
    if n > 0 { RunSize(f, n - 1); }
  }

  // The heap of a process is never larger than memory.
  lemma HeapBounded(s: State, root: nat, umap: seq<Span>, heap: int)
    requires Inv(s) && Layout(s, root, umap, heap) && heap >= 0
    ensures umap[heap].size <= |s.mem| * PAGE
  {
    hide Translate, Frame, L4, L3, L2, L1, KernelSlot, WordAt, EntriesOk, ParentsOk, KernelApart, WriteXorExecute, Mmio;
    hide Present;
    var sp := umap[heap];
    var lo, n := sp.base / PAGE, sp.size / PAGE;
    forall p | lo <= p < lo + n
      ensures p * PAGE < USER_END && UserAddress(s, p * PAGE) && HeldSome(s.mem, root, p * PAGE)
    {
      assert sp.base <= p * PAGE < sp.base + sp.size;
      assert Accepts(umap, p * PAGE);
      UserRange(s, p * PAGE);
      assert AddressOk(s.mem, root, umap, p * PAGE);
      TranslatePresent(s.mem, root, p * PAGE);
    }
    var fs := HeldFrames(s, root, lo, n);
    SubsetSize(fs, Run(0, |s.mem|));
    RunSize(0, |s.mem|);
  }

  // Where the heap region starts, or will start.
  function HeapStart(umap: seq<Span>, heap: int): nat
    requires -1 <= heap < |umap|
  {
    if heap >= 0 then umap[heap].base else NextBase(umap, heap)
  }

  // All of memory and one more request fit between the heap's start and the device window.
  predicate HeapPlaced(umap: seq<Span>, heap: int)
  {
    -1 <= heap < |umap| && HeapStart(umap, heap) + (MAX_FRAMES + MAX_MMAP) * PAGE <= DEVIO_BASE
  }

  // A heap that starts low enough never reaches the window, whatever is asked for.
  lemma RoomForHeap(s: State, root: nat, umap: seq<Span>, heap: int, pages: nat)
    requires Inv(s) && Layout(s, root, umap, heap) && HeapPlaced(umap, heap) && pages <= MAX_MMAP
    ensures NextBase(umap, heap) + pages * PAGE <= DEVIO_BASE
  {
    hide Layout, Translate, EntriesOk, ParentsOk, KernelApart;
    if heap >= 0 { HeapBounded(s, root, umap, heap); }
  }

  lemma StillPlaced(umap: seq<Span>, heap: int, bytes: nat)
    requires HeapPlaced(umap, heap) && (heap >= 0 ==> heap == |umap| - 1)
    ensures var u := GrownRegions(umap, heap, bytes); HeapPlaced(u, |u| - 1)
  {
    hide NextBase;
  }

  // ---------------------------------------------------------------- where there is none

  // The window ends where the lower half does: past it, the next address belongs to the upper half's slots.
  lemma WindowEnd(w: nat)
    requires DEVIO_BASE + w < 2 * USER_END
    ensures L4(DEVIO_BASE + w) >= 256 <==> w >= USER_END - DEVIO_BASE
  {
  }

  // ---------------------------------------------------------------- the mapping loop

  // The pages lo..hi, each an own leaf for data.
  ghost predicate HeapPages(m: map<nat, Word>, lo: nat, hi: nat)
  {
    (forall p :: p in m <==> lo <= p < hi)
    && (forall p | p in m :: OwnLeaf(m[p]) && DataLeaf(m[p]))
  }

  lemma HeapPage(f: nat)
    requires f < FRAME_LIMIT
    ensures LeafFlags(DATA_FLAGS) && !Mmio(DATA_FLAGS) && DataLeaf(DATA_FLAGS)
    ensures var e := Entry(f, DATA_FLAGS); e < U64 && OwnLeaf(e) && DataLeaf(e) && Frame(e) == f
  {
    hide Entry, Present, Huge, Mmio, Writable, NoExecute, UserBit, Frame, LeafFlags;
    FlagConstants();
    EntryReads(f, DATA_FLAGS);
  }

  lemma DevicePage(f: nat)
    ensures LeafFlags(DEVICE_FLAGS) && Mmio(DEVICE_FLAGS)
    ensures var e := Entry(f, DEVICE_FLAGS);
            e < U64 && Present(e) && Mmio(e) && DataLeaf(e) && Frame(e) == f % FRAME_LIMIT
  {
    hide Entry, Present, Huge, Mmio, Writable, NoExecute, UserBit, Frame, LeafFlags;
    FlagConstants();
    EntryReads(f, DEVICE_FLAGS);
  }

  lemma HeapPagesMore(m: map<nat, Word>, lo: nat, hi: nat, e: Word)
    requires HeapPages(m, lo, hi) && lo <= hi && OwnLeaf(e) && DataLeaf(e)
    ensures HeapPages(m[hi := e], lo, hi + 1)
  {
  }

  lemma HeapPagesLess(m: map<nat, Word>, lo: nat, hi: nat)
    requires HeapPages(m, lo, hi) && lo < hi
    ensures lo in m && HeapPages(m - {lo}, lo + 1, hi)
  {
  }

  // ---------------------------------------------------------------- what ring 3 may do there

  // Pages just mapped as data are data memory to ring 3.
  lemma DataRights(s0: State, s: State, root: nat, m: map<nat, Word>, loose: set<nat>, lo: nat, n: nat)
    requires Extended(s0, s, root, m, loose) && forall p | lo <= p < lo + n :: p in m && DataLeaf(m[p])
    ensures DataMemory(s.mem, root, lo * PAGE, (lo + n) * PAGE)
  {
    hide Inv, Translate, KernelSlot, Walk, Untouched, NewFrame, NoOwnLeaf, OwnLeaf, UserBit, Writable, NoExecute;
    hide Ring3Reads, Ring3Writes, Ring3Fetches, Frame, DataLeaf;
    ExtendedFacts(s0, s, root, m, loose);
    forall v | lo * PAGE <= v < (lo + n) * PAGE
      ensures Ring3Reads(s.mem, root, v) && Ring3Writes(s.mem, root, v) && !Ring3Fetches(s.mem, root, v)
    {
      var p := v / PAGE;
      assert p in m && DataLeaf(m[p]);
      SamePageUser(s0, v);
      RightsOfLeaf(s, root, v);
      DataLeafBits(m[p]);
    }
  }

  lemma HeapRights(s0: State, s: State, root: nat, m: map<nat, Word>, base: nat, n: nat)
    requires Extended(s0, s, root, m, {}) && base % PAGE == 0 && HeapPages(m, base / PAGE, base / PAGE + n)
    ensures DataMemory(s.mem, root, base, base + n * PAGE)
  {
    hide Extended, DataMemory, DataLeaf, OwnLeaf;
    DataRights(s0, s, root, m, {}, base / PAGE, n);
  }

  lemma WindowRights(s0: State, s: State, root: nat, m: map<nat, Word>, base: nat, f: nat, n: nat)
    requires Extended(s0, s, root, m, {}) && base % PAGE == 0 && DevicePages(m, base / PAGE, f, n)
    ensures DataMemory(s.mem, root, base, base + n * PAGE)
  {
    hide Extended, DataMemory, DataLeaf, Entry, Mmio, Present;
    DataRights(s0, s, root, m, {}, base / PAGE, n);
  }

  lemma NoMemory(mem: Memory, root: nat, lo: nat)
    ensures DataMemory(mem, root, lo, lo)
  {
  }

  lemma DataLeafBits(e: nat)
    requires DataLeaf(e)
    ensures UserBit(e) && Writable(e) && NoExecute(e)
  {
  }

  lemma SamePageUser(s: State, v: nat)
    requires s.ker < |s.mem| && v / PAGE * PAGE < USER_END && UserAddress(s, v / PAGE * PAGE)
    ensures v < USER_END && UserAddress(s, v)
  {
    hide KernelSlot;
    assert v / PAGE * PAGE / 0x80_0000_0000 == v / 0x80_0000_0000;
  }

  // Everywhere else, and in every other address space, ring 3 may do what it could before.
  lemma RightsKept(s0: State, s: State, root: nat, m: map<nat, Word>, loose: set<nat>, r: nat, v: nat)
    requires Extended(s0, s, root, m, loose) && r < |s0.tag| && s0.tag[r].Root?
    requires s0.ker < |s0.mem| && v < USER_END && UserAddress(s0, v) && (r == root ==> v / PAGE !in m)
    ensures Ring3Reads(s.mem, r, v) == Ring3Reads(s0.mem, r, v)
    ensures Ring3Writes(s.mem, r, v) == Ring3Writes(s0.mem, r, v)
    ensures Ring3Fetches(s.mem, r, v) == Ring3Fetches(s0.mem, r, v)
  {
    hide EntriesOk, ParentsOk, KernelApart, Translate, KernelSlot, Ring3Reads, Ring3Writes, Ring3Fetches, NoOwnLeaf;
    hide NewFrame, Frame, OwnLeaf;
    RightsFollow(s0, s, r, v);
  }

  // A page past the recorded regions holds no frame, and below the device window nothing at all.
  lemma PastRegions(s: State, root: nat, umap: seq<Span>, heap: int, p: nat)
    requires Layout(s, root, umap, heap) && NextBase(umap, heap) <= p * PAGE < USER_END && p * PAGE >= USER_BASE
    ensures UserAddress(s, p * PAGE) && NoOwnLeaf(s, root, p * PAGE)
    ensures p * PAGE < DEVIO_BASE ==> Translate(s.mem, root, p * PAGE) == None
  {
    hide Translate, KernelSlot, WordAt, L4, Mmio, Present;
    UserRange(s, p * PAGE);
    assert AddressOk(s.mem, root, umap, p * PAGE);
    NextBaseFree(umap, heap, p * PAGE);
  }

  lemma HeapOpen(s: State, root: nat, umap: seq<Span>, heap: int, lo: nat, n: nat)
    requires Layout(s, root, umap, heap) && USER_BASE <= NextBase(umap, heap) <= lo * PAGE
    requires (lo + n) * PAGE <= USER_END
    ensures s.ker < |s.mem| && PagesOpen(s, root, lo, n)
    ensures (lo + n) * PAGE <= DEVIO_BASE ==> PagesEmpty(s, root, lo, n)
  {
    hide Translate, KernelSlot, WordAt, L4, NoOwnLeaf, Layout;
    LayoutShape(s, root, umap, heap);
    forall p | lo <= p < lo + n
      ensures UserAddress(s, p * PAGE) && NoOwnLeaf(s, root, p * PAGE)
      ensures p * PAGE < DEVIO_BASE ==> Translate(s.mem, root, p * PAGE) == None
    {
      PastRegions(s, root, umap, heap, p);
    }
  }

  lemma LayoutShape(s: State, root: nat, umap: seq<Span>, heap: int)
    requires Layout(s, root, umap, heap)
    ensures s.ker < |s.mem| && root < |s.tag| && s.tag[root].Root? && Regions(umap, heap)
  {
  }

  // Still so while the call is under way, for the pages it has not reached.
  lemma OpenPage(s0: State, s: State, root: nat, m: map<nat, Word>, lo: nat, n: nat, p: nat)
    requires Extended(s0, s, root, m, {}) && s0.ker < |s0.mem| && PagesOpen(s0, root, lo, n) && lo <= p < lo + n
    requires p !in m
    ensures p * PAGE < USER_END && UserAddress(s0, p * PAGE) && UserAddress(s, p * PAGE)
    ensures NoOwnLeaf(s0, root, p * PAGE) && NoOwnLeaf(s, root, p * PAGE)
  {
    hide Translate, KernelSlot, Inv, OwnLeaf, WordAt, L4;
    AtPage(s0, s, root, m, p);
  }

  // A page mapped by this call: what unmapping it will find.
  lemma HeldPage(z: State, s: State, root: nat, m: map<nat, Word>, p: nat)
    requires Extended(z, s, root, m, {}) && p in m && OwnLeaf(m[p])
    ensures UserAddress(s, p * PAGE) && Translate(s.mem, root, p * PAGE) == Some(m[p])
    ensures 0 < Frame(m[p]) < |s.tag|
  {
    hide Translate, KernelSlot, OwnLeaf, WordAt, L4, Frame, EntriesOk, ParentsOk, KernelApart;
    AtPage(z, s, root, m, p);
    HeldFrame(s, root, p * PAGE);
  }

  lemma EmptyAt(z: State, root: nat, lo: nat, n: nat, p: nat)
    requires z.ker < |z.mem| && PagesEmpty(z, root, lo, n) && lo <= p < lo + n
    ensures Translate(z.mem, root, p * PAGE) == None
  {
    hide Translate, KernelSlot, L4;
  }

  lemma LayoutBounds(s: State, root: nat, umap: seq<Span>, heap: int)
    requires Layout(s, root, umap, heap)
    ensures NextBase(umap, heap) % PAGE == 0 && NextBase(umap, heap) >= USER_BASE && -1 <= heap < |umap|
    ensures heap == -1 || heap == |umap| - 1
  {
    hide Translate, KernelSlot, WordAt, Mmio, WriteXorExecute, Accepts;
    TopBounds(umap);
    RoundUpFacts(Top(umap));
    hide RoundUp, Top;
    assert umap[0].base + umap[0].size <= Top(umap);
  }

  lemma HeapPagesAt(m: map<nat, Word>, lo: nat, hi: nat, p: nat)
    requires HeapPages(m, lo, hi)
    ensures p in m <==> lo <= p < hi
    ensures p in m ==> OwnLeaf(m[p]) && DataLeaf(m[p])
  {
  }

  lemma HeapPagesNone(lo: nat)
    ensures HeapPages(map[], lo, lo)
  {
  }

  lemma HeapPagesEmpty(m: map<nat, Word>, lo: nat)
    requires HeapPages(m, lo, lo)
    ensures m == map[]
  {
    if p :| p in m { assert false; }
  }

  // Every translation there was is still there.
  ghost predicate KeepsTranslations(s: State, s': State)
    requires s.ker < |s.mem|
  {
    forall r: nat, v: nat | r < |s.tag| && s.tag[r].Root? && v < USER_END && UserAddress(s, v)
    && Translate(s.mem, r, v).Some? ::
      Translate(s'.mem, r, v) == Translate(s.mem, r, v)
  }

  // A heap call that succeeds overwrites a translation exactly when its range held a device leaf.
  lemma HeapOverWindow(s: State, s': State, root: nat, m: map<nat, Word>, lo: nat, n: nat)
    requires s.ker < |s.mem| && PagesOpen(s, root, lo, n) && HeapPages(m, lo, lo + n) && Extended(s, s', root, m, {})
    ensures KeepsTranslations(s, s') <==> PagesEmpty(s, root, lo, n)
  {
    hide Translate, KernelSlot, Inv, L4, OwnLeaf, DataLeaf, MappedBy;
    if PagesEmpty(s, root, lo, n) {
      forall r: nat, v: nat | r < |s.tag| && s.tag[r].Root? && v < USER_END && UserAddress(s, v)
      && Translate(s.mem, r, v).Some?
        ensures Translate(s'.mem, r, v) == Translate(s.mem, r, v)
      {
        PageStart(s, root, v);
      }
    } else {
      var p :| lo <= p < lo + n && Translate(s.mem, root, p * PAGE) != None;
      AtPage(s, s', root, m, p);
      assert NoOwnLeaf(s, root, p * PAGE);
    }
  }

  // The layout after the regions grew by the pages just mapped.
  lemma LayoutGrown(s0: State, s: State, root: nat, umap: seq<Span>, heap: int, m: map<nat, Word>, pages: nat)
    requires Layout(s0, root, umap, heap) && Extended(s0, s, root, m, {})
    requires (heap < 0 ==> |umap| < MAX_REGIONS) && NextBase(umap, heap) + pages * PAGE <= DEVIO_BASE
    requires HeapPages(m, NextBase(umap, heap) / PAGE, NextBase(umap, heap) / PAGE + pages)
    ensures var u := GrownRegions(umap, heap, pages * PAGE); Layout(s, root, u, |u| - 1)
  {
    hide Translate, KernelSlot, Inv, OwnLeaf, WordAt, L4, Mmio, WriteXorExecute, Accepts, Extended, AddressOk;
    hide HeapPages;
    var u, b := GrownRegions(umap, heap, pages * PAGE), NextBase(umap, heap);
    GrownRegionsOk(umap, heap, pages * PAGE);
    ExtendedFacts(s0, s, root, m, {});
    forall v: nat | USER_BASE <= v < USER_END
      ensures AddressOk(s.mem, root, u, v)
    {
      assert AddressOk(s0.mem, root, umap, v);
      UserRange(s0, v);
      HeapAddress(s0, s, root, umap, heap, m, pages, v);
    }
  }

  lemma HeapAddress(s0: State, s: State, root: nat, umap: seq<Span>, heap: int, m: map<nat, Word>, pages: nat, v: nat)
    requires Extended(s0, s, root, m, {}) && -1 <= heap < |umap|
    requires NextBase(umap, heap) % PAGE == 0 && NextBase(umap, heap) + pages * PAGE <= DEVIO_BASE
    requires HeapPages(m, NextBase(umap, heap) / PAGE, NextBase(umap, heap) / PAGE + pages)
    requires v < USER_END && UserAddress(s0, v) && AddressOk(s0.mem, root, umap, v)
    ensures AddressOk(s.mem, root, GrownRegions(umap, heap, pages * PAGE), v)
  {
    hide Translate, KernelSlot, Inv, WordAt, L4, Mmio, WriteXorExecute, DataLeaf, Accepts, Untouched;
    hide NextBase, GrownRegions;
    GrownAccepts(umap, heap, pages * PAGE, v);
    PageOf(v, NextBase(umap, heap), pages);
  }

  lemma PageOf(v: nat, b: nat, pages: nat)
    requires b % PAGE == 0
    ensures b / PAGE <= v / PAGE < b / PAGE + pages <==> b <= v < b + pages * PAGE
  {
  }

  // A call that failed leaves the layout as it is.
  lemma LayoutCleared(s0: State, s: State, root: nat, umap: seq<Span>, heap: int, lo: nat, k: nat)
    requires Layout(s0, root, umap, heap) && Cleared(s0, s, root, lo, k) && NextBase(umap, heap) <= lo * PAGE
    ensures Layout(s, root, umap, heap)
  {
    hide Translate, KernelSlot, OwnLeaf, WordAt, L4, Mmio, WriteXorExecute, Accepts, Untouched, EntriesOk, ParentsOk;
    hide KernelApart;
    forall v: nat | USER_BASE <= v < USER_END
      ensures AddressOk(s.mem, root, umap, v)
    {
      UserRange(s0, v);
      assert AddressOk(s0.mem, root, umap, v);
      if v >= NextBase(umap, heap) { NextBaseFree(umap, heap, v); }
    }
  }

  // paging_map_user of one allocated frame at one page; on failure the caller still holds the frame.
  method MapLoose(vm: AddressSpaceTable, pml4: nat, ghost s0: State, ghost m: map<nat, Word>, ghost loose: set<nat>,
          page: nat, f: nat, flags: nat)
    returns (ok: bool, ghost m': map<nat, Word>)
    requires vm.Valid() && vm.IsSpace(pml4) && Extended(s0, vm.S(), pml4 / PAGE, m, loose) && f in loose
    requires page * PAGE < USER_END && UserAddress(s0, page * PAGE) && LeafFlags(flags) && !Mmio(flags)
    requires NoOwnLeaf(s0, pml4 / PAGE, page * PAGE) && NoOwnLeaf(vm.S(), pml4 / PAGE, page * PAGE)
    modifies vm, vm.pmm, vm.pmm.bitmap
    ensures vm.Valid() && vm.IsSpace(pml4)
    ensures ok ==>
              Entry(f, flags) < U64 && m' == m[page := Entry(f, flags)]
              && Extended(s0, vm.S(), pml4 / PAGE, m', loose - {f})
    ensures !ok ==> m' == m && Extended(s0, vm.S(), pml4 / PAGE, m, loose)
    ensures var n := Missing(old(vm.mem), pml4 / PAGE, page * PAGE, 3);
            (ok <==> old(vm.pmm.used) + n <= |vm.S().bits|) && vm.S().bits == TakeOnes(old(vm.S()).bits, n)
    ensures ok ==>
              vm.S().ker < |vm.mem| && old(vm.S()).ker < |old(vm.mem)|
              && Deeper(old(vm.S()), vm.S(), pml4 / PAGE, page * PAGE, 3)
    ensures |vm.mem| == |old(vm.mem)|
    ensures KeepsContents(old(vm.S()), vm.S())
  {
    hide Inv, Translate, KernelSlot, OwnLeaf, Frame, Mmio, WordAt, Extended, Mapped, LeafFlags, Entry, Grown, L4;
    hide NoOwnLeaf;
    hide Deeper, Missing, TakeOnes, CountSet, InKernel;
    ghost var root := pml4 / PAGE;
    ghost var s1 := vm.S();
    ExtendedFacts(s0, s1, root, m, loose);
    LeafEntry(f, flags);
    ok := vm.MapUser(pml4, page * PAGE, f * PAGE, flags);
    ghost var s2 := vm.S();
    m' := m;
    if ok {
      m' := m[page := Entry(f, flags)];
      ExtendedMap(s0, s1, s2, root, m, loose, page, Entry(f, flags));
      ExtendedFacts(s0, s2, root, m', loose - {f});
      MappedKeeps(s1, s2, root, page * PAGE, Some(Entry(f, flags)));
    } else {
      ExtendedGrown(s0, s1, s2, root, m, loose);
      ExtendedFacts(s0, s2, root, m, loose);
      GrownKeeps(s1, s2, root);
    }
  }

  lemma LeafEntry(f: nat, flags: nat)
    requires LeafFlags(flags) && !Mmio(flags) && f < FRAME_LIMIT
    ensures var e := Entry(f, flags); e < U64 && OwnLeaf(e) && Frame(e) == f
    ensures WriteXorExecute(flags) ==> WriteXorExecute(Entry(f, flags))
  {
    hide Entry, Present, Huge, Mmio, Writable, NoExecute, Frame, LeafFlags;
    EntryReads(f, flags);
  }

  // Frames in use that hold no table keep their contents and do not become tables.
  ghost predicate KeepsContents(s: State, s': State)
  {
    |s.mem| == |s.tag| == |s.bits| == |s'.mem| == |s'.tag| == |s'.bits|
    && forall g | 0 <= g < |s.mem| && s.bits[g] && !IsTable(s.tag[g]) ::
      s'.mem[g] == s.mem[g] && s'.bits[g] && !IsTable(s'.tag[g])
  }

  lemma MappedKeeps(s: State, s': State, root: nat, virt: nat, e: Option<Word>)
    requires Mapped(s, s', root, virt, e)
    ensures KeepsContents(s, s')
  {
    hide Translate, EntriesOk, ParentsOk, KernelApart, WordAt;
  }

  lemma GrownKeeps(s: State, s': State, root: nat)
    requires Grown(s, s', root)
    ensures KeepsContents(s, s')
  {
  }

  lemma DeeperBit(s: State, f: nat, s': State, root: nat, virt: nat)
    requires f < |s.bits| && s.ker < |s.mem| && Deeper(WithBit(s, f, true), s', root, virt, 3)
    ensures Deeper(s, s', root, virt, 3)
  {
    hide Depth, Common, L4;
    forall v: nat | UserAddress(s, v)
      ensures Depth(s'.mem, root, v) == Max(Depth(s.mem, root, v), Min(Common(virt, v), 3))
    {
      assert UserAddress(WithBit(s, f, true), v);
    }
  }

  lemma PagesOpenLess(s: State, root: nat, lo: nat, k: nat, n: nat)
    requires s.ker < |s.mem| && PagesOpen(s, root, lo, n) && k <= n
    ensures PagesOpen(s, root, lo, k)
  {
    hide Translate, KernelSlot, NoOwnLeaf, L4;
  }

  lemma HeapPagesKeys(m: map<nat, Word>, lo: nat, hi: nat)
    requires HeapPages(m, lo, hi)
    ensures forall p :: p in m <==> lo <= p < hi
  {
  }

  lemma ClearedNone(s: State, root: nat, lo: nat)
    requires Inv(s) && root < |s.tag| && s.tag[root].Root?
    ensures Cleared(s, s, root, lo, 0)
  {
    WipedNone(s, root, lo);
  }

  lemma NextBaseBound(umap: seq<Span>, heap: int, s: State, root: nat)
    requires Layout(s, root, umap, heap)
    ensures -1 <= heap < |umap| && NextBase(umap, heap) <= DEVIO_BASE + GUARD
  {
    hide Translate, KernelSlot, WordAt, Mmio, WriteXorExecute, Accepts;
    if heap < 0 { TopBelow(umap, DEVIO_BASE); }
  }

  lemma {:induction false} TopBelow(umap: seq<Span>, limit: nat)
    requires forall i | 0 <= i < |umap| :: umap[i].base + umap[i].size <= limit
    ensures Top(umap) <= limit
  {
    if umap != [] { TopBelow(umap[..|umap| - 1], limit); }
  }

  lemma TooFar(s: State, root: nat, umap: seq<Span>, heap: int, bytes: nat)
    requires (heap == -1 || heap == |umap| - 1 >= 0) && NextBase(umap, heap) + bytes > DEVIO_BASE
    ensures var u := GrownRegions(umap, heap, bytes); !Layout(s, root, u, |u| - 1)
  {
    hide Translate, KernelSlot, WordAt, Mmio, WriteXorExecute, Accepts;
    var u := GrownRegions(umap, heap, bytes);
    assert NextBase(u, |u| - 1) == NextBase(umap, heap) + bytes;
  }

  lemma LayoutAfter(s0: State, s: State, root: nat, umap: seq<Span>, heap: int, m: map<nat, Word>, pages: nat)
    requires Layout(s0, root, umap, heap) && Extended(s0, s, root, m, {}) && (heap < 0 ==> |umap| < MAX_REGIONS)
    requires -1 <= heap < |umap| && (heap == -1 || heap == |umap| - 1)
    requires HeapPages(m, NextBase(umap, heap) / PAGE, NextBase(umap, heap) / PAGE + pages)
    ensures var u := GrownRegions(umap, heap, pages * PAGE);
            Layout(s, root, u, |u| - 1) <==> NextBase(umap, heap) + pages * PAGE <= DEVIO_BASE
  {
    hide Layout, Extended, HeapPages, NextBase, GrownRegions;
    if NextBase(umap, heap) + pages * PAGE <= DEVIO_BASE {
      LayoutGrown(s0, s, root, umap, heap, m, pages);
    } else {
      TooFar(s, root, umap, heap, pages * PAGE);
    }
  }

  // The fields of process_t that describe a ring-3 process's memory.
  class Process {
    var isUser: bool
    var cr3: nat
    var umap: seq<Span>
    var umapHeap: int
    var devioBase: nat
    var devioUsed: nat

    // A slot of the process table at boot.
    constructor ()
      ensures !isUser && cr3 == 0 && umap == [] && umapHeap == 0 && devioBase == 0 && devioUsed == 0 && SlotOk()
    {
      isUser, cr3, umap, umapHeap, devioBase, devioUsed := false, 0, [], 0, 0, 0;
    }

    // What holds of a slot whoever owned it: the window's base and its running counter are never reset.
    ghost predicate SlotOk()
      reads this
    {
      (devioBase == 0 || devioBase == DEVIO_BASE) && devioUsed % PAGE == 0
    }

    ghost predicate Valid(vm: AddressSpaceTable)
      reads this, vm, vm.pmm, vm.pmm.bitmap
    {
      vm.Valid() && vm.IsSpace(cr3) && Layout(vm.S(), cr3 / PAGE, umap, umapHeap) && SlotOk()
    }

    // One turn of the SYS_MMAP loop: a frame, mapped at the page; if it cannot be mapped it is freed again. It fails
    // exactly when there are not enough frames for the page and the tables missing on its walk.
    method MapOne(vm: AddressSpaceTable, ghost s0: State, ghost m: map<nat, Word>, page: nat)
      returns (ok: bool, ghost m': map<nat, Word>)
      requires vm.Valid() && vm.IsSpace(cr3) && Extended(s0, vm.S(), cr3 / PAGE, m, {})
      requires s0.ker < |s0.mem| && vm.S().ker < |vm.S().mem| && page * PAGE < USER_END
      requires UserAddress(s0, page * PAGE) && UserAddress(vm.S(), page * PAGE)
      requires NoOwnLeaf(s0, cr3 / PAGE, page * PAGE) && NoOwnLeaf(vm.S(), cr3 / PAGE, page * PAGE)
      modifies vm, vm.pmm, vm.pmm.bitmap
      ensures vm.Valid() && vm.IsSpace(cr3) && Extended(s0, vm.S(), cr3 / PAGE, m', {})
      ensures ok ==> page in m' && m' == m[page := m'[page]] && OwnLeaf(m'[page]) && DataLeaf(m'[page])
      ensures !ok ==> m' == m
      ensures var n := PageCost(old(vm.mem), cr3 / PAGE, page, true);
              (ok <==> old(vm.pmm.used) + n <= |old(vm.S()).bits|)
              && (ok ==> vm.S().bits == TakeOnes(old(vm.S()).bits, n))
      ensures ok ==> old(vm.S()).ker < |old(vm.S()).mem| && Deeper(old(vm.S()), vm.S(), cr3 / PAGE, page * PAGE, 3)
    {
      hide Inv, Translate, KernelSlot, OwnLeaf, Frame, Mmio, WordAt, Accepts, Extended, DataLeaf, Layout, Entry;
      hide L4, NoOwnLeaf;
      hide Deeper, Missing, CountSet, TakeRun, LowFirst, InKernel;
      ghost var root := cr3 / PAGE;
      ghost var s := vm.S();
      ExtendedFacts(s0, s, root, m, {});
      CountFull(s.bits);
      m' := m;
      var phys := vm.AllocFrame();
      if phys == 0 { return false, m; }
      var f := phys / PAGE;
      OneTaken(s.bits, f);
      ExtendedAlloc(s0, s, root, m, {}, f);
      assert vm.S() == WithBit(s, f, true) && {} + {f} == {f};
      ExtendedFacts(s0, vm.S(), root, m, {f});
      SameLeaf(s, vm.S(), root, page * PAGE);
      HeapPage(f);
      ok, m' := MapLoose(vm, cr3, s0, m, {f}, page, f, DATA_FLAGS);
      assert {f} - {f} == {};
      ExtendedFacts(s0, vm.S(), root, m', if ok then {} else {f});
      if ok {
        TakeOnesMore(s.bits, 1, Missing(s.mem, root, page * PAGE, 3));
        DeeperBit(s, f, vm.S(), root, page * PAGE);
      } else {
        ghost var s2 := vm.S();
        ExtendedFacts(s0, s2, root, m, {f});
        ExtendedFree(s0, s2, root, m, {f}, f);
        vm.FreeLoose(f);
        assert vm.S() == WithBit(s2, f, false) && {f} - {f} == {};
        ExtendedFacts(s0, vm.S(), root, m, {});
      }
    }

    // The rollback loop of SYS_MMAP: every page mapped so far is unmapped and its frame freed.
    method Rollback(vm: AddressSpaceTable, ghost z: State, ghost m0: map<nat, Word>, base: nat, n: nat)
      requires vm.Valid() && vm.IsSpace(cr3) && Extended(z, vm.S(), cr3 / PAGE, m0, {})
      requires base % PAGE == 0 && z.ker < |z.mem| && PagesEmpty(z, cr3 / PAGE, base / PAGE, n)
      requires HeapPages(m0, base / PAGE, base / PAGE + n)
      modifies vm, vm.pmm, vm.pmm.bitmap
      ensures vm.Valid() && vm.IsSpace(cr3) && Extended(z, vm.S(), cr3 / PAGE, map[], {})
    {
      hide Inv, Extended, HeapPages, PagesEmpty, KernelSlot;
      ghost var root := cr3 / PAGE;
      ghost var m: map<nat, Word> := m0;
      var va := base;
      ghost var j := 0;
      while va < base + n * PAGE
        invariant j <= n && va == base + j * PAGE
        invariant vm.Valid() && vm.IsSpace(cr3) && Extended(z, vm.S(), root, m, {})
        invariant HeapPages(m, base / PAGE + j, base / PAGE + n)
      {
        ghost var p := base / PAGE + j;
        HeapPagesLess(m, p, base / PAGE + n);
        HeapPagesAt(m, p, base / PAGE + n, p);
        EmptyAt(z, root, base / PAGE, n, p);
        m := UnmapPage(vm, z, m, va);
        j := j + 1;
        va := va + PAGE;
      }
      HeapPagesEmpty(m, base / PAGE + n);
    }

    // One turn of that loop.
    method UnmapPage(vm: AddressSpaceTable, ghost z: State, ghost m: map<nat, Word>, va: nat)
      returns (ghost m': map<nat, Word>)
      requires vm.Valid() && vm.IsSpace(cr3) && Extended(z, vm.S(), cr3 / PAGE, m, {}) && va % PAGE == 0
      requires va / PAGE in m && OwnLeaf(m[va / PAGE]) && Translate(z.mem, cr3 / PAGE, va) == None
      modifies vm, vm.pmm, vm.pmm.bitmap
      ensures vm.Valid() && vm.IsSpace(cr3) && m' == m - {va / PAGE} && Extended(z, vm.S(), cr3 / PAGE, m', {})
    {
      hide Inv, Translate, KernelSlot, OwnLeaf, Frame, Mmio, WordAt, Extended, Mapped, Grown, RunFree, InKernel;
      ghost var root, p, s := cr3 / PAGE, va / PAGE, vm.S();
      assert va == p * PAGE;
      ExtendedFacts(z, s, root, m, {});
      HeldPage(z, s, root, m, p);
      var frame := vm.UnmapUser(cr3, va);
      ghost var s1 := vm.S();
      ghost var f := Frame(m[p]);
      ExtendedUnmap(z, s, s1, root, m, {}, p);
      ExtendedFacts(z, s1, root, m - {p}, {} + {f});
      m' := m - {p};
      ExtendedFree(z, s1, root, m', {} + {f}, f);
      if frame != 0 { vm.FreeLoose(frame / PAGE); }
      assert {} + {f} - {f} == {};
      ExtendedFacts(z, vm.S(), root, m', {});
    }

    // The requests SYS_MMAP and SYS_DEV_MAP act on; the others are refused before anything is touched.
    predicate MmapActs(request: nat)
      reads this
    {
      isUser && request <= MAX_MMAP && (umapHeap >= 0 || |umap| < MAX_REGIONS)
    }

    predicate DevMapActs(cap: bool, phys: nat, size: nat)
      reads this
    {
      isUser && cap && phys % PAGE == 0 && 0 < size <= MAX_DEVICE
    }

    // The mapping loop of SYS_MMAP, with its rollback: k pages were mapped.
    method MapHeap(vm: AddressSpaceTable, base: nat, pages: nat)
      returns (ok: bool, ghost m: map<nat, Word>, ghost k: nat)
      requires vm.Valid() && vm.IsSpace(cr3) && base % PAGE == 0
      requires vm.S().ker < |vm.S().mem| && PagesOpen(vm.S(), cr3 / PAGE, base / PAGE, pages)
      modifies vm, vm.pmm, vm.pmm.bitmap
      ensures vm.Valid() && vm.IsSpace(cr3) && k <= pages && (ok <==> k == pages)
      ensures ok <==> PagesFit(old(vm.S()), cr3 / PAGE, PageSeq(base / PAGE, pages), true)
      ensures ok ==> HeapPages(m, base / PAGE, base / PAGE + pages) && Extended(old(vm.S()), vm.S(), cr3 / PAGE, m, {})
                     && PagesMade(old(vm.S()), vm.S(), cr3 / PAGE, PageSeq(base / PAGE, pages), true)
                     && DataMemory(vm.mem, cr3 / PAGE, base, base + pages * PAGE)
      ensures !ok ==> m == map[] && MostThatFit(old(vm.S()), cr3 / PAGE, base / PAGE, k, true)
                      && Cleared(old(vm.S()), vm.S(), cr3 / PAGE, base / PAGE, k)
    {
      hide Inv, Translate, KernelSlot, OwnLeaf, WordAt, Extended, HeapPages, Cleared, Wiped, PagesOpen, PagesEmpty;
      hide PagesMade, PagesFit, DataMemory;
      ghost var s0, root, lo := vm.S(), cr3 / PAGE, base / PAGE;
      m, k := map[], 0;
      ExtendedReflexive(s0, root);
      ExtendedFacts(s0, s0, root, m, {});
      HeapPagesNone(lo);
      assert PageSeq(lo, 0) == [];
      PagesNone(s0, root, true);
      var i := 0;
      while i < pages
        invariant k == i <= pages && vm.Valid() && vm.IsSpace(cr3)
        invariant Extended(s0, vm.S(), root, m, {}) && HeapPages(m, lo, lo + i)
        invariant PagesMade(s0, vm.S(), root, PageSeq(lo, i), true)
      {
        PagesMadeFit(s0, vm.S(), root, PageSeq(lo, i), true);
        ghost var m1 := m;
        ok, m := MapHeapPage(vm, s0, m, base, i, pages);
        if !ok {
          FewerFit(s0, root, lo, i + 1, pages, true);
          PagesOpenLess(s0, root, lo, i, pages);
          ghost var z := WipePages(s0, root, lo, i);
          HeapPagesKeys(m1, lo, lo + i);
          Rebase(s0, z, vm.S(), root, lo, i, m1);
          ExtendedFacts(z, vm.S(), root, m1, {});
          Rollback(vm, z, m1, base, i);
          ClearedAfter(s0, z, vm.S(), root, lo, i);
          m := map[];
          return;
        }
        i := i + 1;
        k := i;
      }
      PagesMadeFit(s0, vm.S(), root, PageSeq(lo, i), true);
      HeapRights(s0, vm.S(), root, m, base, pages);
      ok := true;
    }

    method MapHeapPage(vm: AddressSpaceTable, ghost s0: State, ghost m: map<nat, Word>, base: nat, i: nat,
            ghost pages: nat)
      returns (ok: bool, ghost m': map<nat, Word>)
      requires vm.Valid() && vm.IsSpace(cr3) && Extended(s0, vm.S(), cr3 / PAGE, m, {})
      requires i < pages && s0.ker < |s0.mem| && PagesOpen(s0, cr3 / PAGE, base / PAGE, pages) && base % PAGE == 0
      requires HeapPages(m, base / PAGE, base / PAGE + i)
      requires PagesMade(s0, vm.S(), cr3 / PAGE, PageSeq(base / PAGE, i), true)
      modifies vm, vm.pmm, vm.pmm.bitmap
      ensures vm.Valid() && vm.IsSpace(cr3) && Extended(s0, vm.S(), cr3 / PAGE, m', {})
      ensures if ok then HeapPages(m', base / PAGE, base / PAGE + i + 1) else m' == m
      ensures ok <==> PagesFit(s0, cr3 / PAGE, PageSeq(base / PAGE, i + 1), true)
      ensures ok ==> PagesMade(s0, vm.S(), cr3 / PAGE, PageSeq(base / PAGE, i + 1), true)
    {
      hide Inv, Translate, KernelSlot, OwnLeaf, WordAt, Extended, HeapPages, PagesOpen, PagesMade, PagesFit, Deeper;
      hide Missing, TakeOnes, CountSet;
      hide NoOwnLeaf, L4, DataLeaf, PageCost;
      ghost var s, root, lo := vm.S(), cr3 / PAGE, base / PAGE;
      HeapPagesAt(m, lo, lo + i, lo + i);
      ExtendedFacts(s0, s, root, m, {});
      OpenPage(s0, s, root, m, lo, pages, lo + i);
      ok, m' := MapOne(vm, s0, m, base / PAGE + i);
      PageSeqMore(lo, i);
      NextPageFits(s0, s, root, PageSeq(lo, i), lo + i, true);
      if ok {
        HeapPagesMore(m, lo, lo + i, m'[lo + i]);
        NextPageMade(s0, s, vm.S(), root, PageSeq(lo, i), lo + i, true);
      }
    }

    // SYS_MMAP: 'request' more pages of heap, or none. It succeeds exactly when the free frames suffice for the pages
    // and their new tables. Nothing keeps the pages out of the device window: a successful call replaces the device
    // leaves in its range; a failed one, which got k pages far, leaves exactly those k pages without translation.
    // The process's records stay sound unless a successful call ends inside the window.
    method Mmap(vm: AddressSpaceTable, request: nat) returns (r: Option<nat>, ghost m: map<nat, Word>, ghost k: nat)
      requires Valid(vm)
      modifies this, vm, vm.pmm, vm.pmm.bitmap
      ensures vm.Valid() && vm.IsSpace(cr3) && -1 <= old(umapHeap) < |old(umap)|
      ensures cr3 == old(cr3) && isUser == old(isUser) && devioBase == old(devioBase) && devioUsed == old(devioUsed)
      ensures !old(MmapActs(request)) ==> r.None? && k == 0 && vm.S() == old(vm.S())
      ensures old(MmapActs(request)) ==>
                var s0, lo := old(vm.S()), NextBase(old(umap), old(umapHeap)) / PAGE;
                (r.Some? <==> PagesFit(s0, cr3 / PAGE, PageSeq(lo, Pages(request)), true))
                && (r.Some? ==> PagesMade(s0, vm.S(), cr3 / PAGE, PageSeq(lo, Pages(request)), true))
                && (r.None? ==> k < Pages(request) && MostThatFit(s0, cr3 / PAGE, lo, k, true))
      ensures var base := NextBase(old(umap), old(umapHeap)); var lo := base / PAGE;
              var s0 := old(vm.S());
              && base % PAGE == 0 && USER_BASE <= base && s0.ker < |s0.mem|
              && (r.None? ==>
                    Cleared(s0, vm.S(), cr3 / PAGE, lo, k) && m == map[] && umap == old(umap)
                    && umapHeap == old(umapHeap))
              && (r.Some? ==> r.value == base && k == Pages(request) && Extended(s0, vm.S(), cr3 / PAGE, m, {})
                              && HeapPages(m, lo, lo + k) && DataMemory(vm.mem, cr3 / PAGE, base, base + k * PAGE)
                              && umap == GrownRegions(old(umap), old(umapHeap), k * PAGE)
                              && umapHeap == |umap| - 1)
              && PagesOpen(s0, cr3 / PAGE, lo, k)
              && (base + k * PAGE <= DEVIO_BASE ==> PagesEmpty(s0, cr3 / PAGE, lo, k))
              && (Valid(vm) <==> r.None? || base + k * PAGE <= DEVIO_BASE)
    {
      hide Inv, Translate, KernelSlot, OwnLeaf, Mmio, WordAt, Accepts, Extended, HeapPages, WriteXorExecute, Layout;
      hide Cleared, PagesOpen, PagesEmpty, PagesFit, PagesMade, MostThatFit, GrownRegions, Top, RoundUp, PageSeq;
      hide DataLeaf, DataMemory, NextBase;
      ghost var s0, u0, h0 := vm.S(), umap, umapHeap;
      r, m, k := None, map[], 0;
      LayoutBounds(s0, cr3 / PAGE, umap, umapHeap);
      NextBaseBound(umap, umapHeap, s0, cr3 / PAGE);
      HeapOpen(s0, cr3 / PAGE, umap, umapHeap, NextBase(umap, umapHeap) / PAGE, 0);
      ClearedNone(s0, cr3 / PAGE, NextBase(umap, umapHeap) / PAGE);
      if !isUser { return; }
      var pages := Pages(request);
      if pages > MAX_MMAP { return; }
      if umapHeap < 0 && |umap| >= MAX_REGIONS { return; }
      var base := NextBase(umap, umapHeap);
      HeapOpen(s0, cr3 / PAGE, umap, umapHeap, base / PAGE, pages);
      var ok: bool;
      ok, m, k := MapHeap(vm, base, pages);
      if !ok {
        HeapOpen(s0, cr3 / PAGE, umap, umapHeap, base / PAGE, k);
        LayoutCleared(s0, vm.S(), cr3 / PAGE, umap, umapHeap, base / PAGE, k);
        return;
      }
      umap := GrownRegions(umap, umapHeap, pages * PAGE);
      umapHeap := |umap| - 1;
      r := Some(base);
      LayoutAfter(s0, vm.S(), cr3 / PAGE, u0, h0, m, pages);
    }

    // One turn of the SYS_DEV_MAP loop.
    method MapDevicePage(vm: AddressSpaceTable, ghost s0: State, ghost m: map<nat, Word>, va: nat, phys: nat, k: nat)
      returns (ok: bool, ghost m': map<nat, Word>)
      requires vm.Valid() && vm.IsSpace(cr3) && Extended(s0, vm.S(), cr3 / PAGE, m, {})
      requires Layout(s0, cr3 / PAGE, umap, umapHeap) && DevicePages(m, va / PAGE, phys / PAGE, k)
      requires va % PAGE == 0 && phys % PAGE == 0 && DEVIO_BASE <= va && va + k * PAGE < USER_END
      requires PagesMade(s0, vm.S(), cr3 / PAGE, PageSeq(va / PAGE, k), false)
      modifies vm, vm.pmm, vm.pmm.bitmap
      ensures vm.Valid() && vm.IsSpace(cr3) && Extended(s0, vm.S(), cr3 / PAGE, m', {})
      ensures if ok then DevicePages(m', va / PAGE, phys / PAGE, k + 1) else m' == m
      ensures ok <==> PagesFit(s0, cr3 / PAGE, PageSeq(va / PAGE, k + 1), false)
      ensures ok ==> PagesMade(s0, vm.S(), cr3 / PAGE, PageSeq(va / PAGE, k + 1), false)
    {
      hide PagesMade, PagesFit, InKernel, Deeper, Missing, TakeOnes, CountSet, Inv, Translate, KernelSlot, OwnLeaf;
      hide Frame, Mmio, WordAt, Accepts, Extended, DataLeaf, Layout, Mapped, LeafFlags, Entry, Grown;
      hide DevicePages, NoOwnLeaf, L4;
      ghost var s, root := vm.S(), cr3 / PAGE;
      ghost var p := va / PAGE + k;
      assert va + k * PAGE == p * PAGE && (phys + k * PAGE) / PAGE == phys / PAGE + k;
      DeviceRoom(s0, s, root, umap, umapHeap, m, va / PAGE, phys / PAGE, k);
      DevicePage(phys / PAGE + k);
      ExtendedFacts(s0, s, root, m, {});
      ok := vm.MapUser(cr3, va + k * PAGE, phys + k * PAGE, DEVICE_FLAGS);
      PageSeqMore(va / PAGE, k);
      NextPageFits(s0, s, root, PageSeq(va / PAGE, k), p, false);
      m' := m;
      if ok {
        ghost var e := Entry(phys / PAGE + k, DEVICE_FLAGS);
        NotOwnDevice(e);
        ExtendedMap(s0, s, vm.S(), root, m, {}, p, e);
        DevicePagesMore(m, va / PAGE, phys / PAGE, k);
        m' := m[p := e];
        NextPageMade(s0, s, vm.S(), root, PageSeq(va / PAGE, k), p, false);
      } else {
        ExtendedGrown(s0, s, vm.S(), root, m, {});
      }
      ExtendedFacts(s0, vm.S(), root, m', {});
    }

    // The SYS_DEV_MAP loop.
    method MapWindow(vm: AddressSpaceTable, va: nat, phys: nat, bytes: nat)
      returns (ok: bool, ghost m: map<nat, Word>, ghost k: nat)
      requires vm.Valid() && vm.IsSpace(cr3) && Layout(vm.S(), cr3 / PAGE, umap, umapHeap)
      requires va % PAGE == 0 && phys % PAGE == 0 && bytes % PAGE == 0 && DEVIO_BASE <= va && va + bytes <= USER_END
      modifies vm, vm.pmm, vm.pmm.bitmap
      ensures vm.Valid() && vm.IsSpace(cr3) && Extended(old(vm.S()), vm.S(), cr3 / PAGE, m, {})
      ensures k * PAGE <= bytes && DevicePages(m, va / PAGE, phys / PAGE, k) && (ok <==> k * PAGE == bytes)
      ensures ok <==> PagesFit(old(vm.S()), cr3 / PAGE, PageSeq(va / PAGE, bytes / PAGE), false)
      ensures ok ==> PagesMade(old(vm.S()), vm.S(), cr3 / PAGE, PageSeq(va / PAGE, k), false)
      ensures !ok ==> MostThatFit(old(vm.S()), cr3 / PAGE, va / PAGE, k, false)
    {
      hide PagesMade, PagesFit, Inv, Translate, KernelSlot, OwnLeaf, WordAt, Extended, Layout, Entry, DevicePages;
      ghost var s0 := vm.S();
      assert PageSeq(va / PAGE, 0) == [];
      m := map[];
      ExtendedReflexive(s0, cr3 / PAGE);
      ExtendedFacts(s0, s0, cr3 / PAGE, m, {});
      PagesNone(s0, cr3 / PAGE, false);
      DevicePagesNone(va / PAGE, phys / PAGE);
      var done := 0;
      k := 0;
      while done < bytes
        invariant done == k * PAGE <= bytes && vm.Valid() && vm.IsSpace(cr3)
        invariant Extended(s0, vm.S(), cr3 / PAGE, m, {}) && DevicePages(m, va / PAGE, phys / PAGE, k)
        invariant PagesMade(s0, vm.S(), cr3 / PAGE, PageSeq(va / PAGE, k), false)
      {
        PagesMadeFit(s0, vm.S(), cr3 / PAGE, PageSeq(va / PAGE, k), false);
        ok, m := MapDevicePage(vm, s0, m, va, phys, done / PAGE);
        if !ok {
          FewerFit(s0, cr3 / PAGE, va / PAGE, k + 1, bytes / PAGE, false);
          return;
        }
        k := k + 1;
        done := done + PAGE;
      }
      PagesMadeFit(s0, vm.S(), cr3 / PAGE, PageSeq(va / PAGE, k), false);
      ok := true;
    }

    // SYS_DEV_MAP: a device range into the MMIO window. A request it acts on fails exactly when fewer frames are free
    // than its pages need new tables. Then it leaves as many pages as there were frames for (the next call starts at
    // the same address), but never takes a data frame.
    method DevMap(vm: AddressSpaceTable, cap: bool, phys: nat, size: nat)
      returns (r: Option<nat>, ghost m: map<nat, Word>, ghost k: nat)
      requires Valid(vm) && (DevMapActs(cap, phys, size) ==> devioUsed + RoundUp(size) <= USER_END - DEVIO_BASE)
      modifies this, vm, vm.pmm, vm.pmm.bitmap
      ensures Valid(vm) && cr3 == old(cr3) && isUser == old(isUser) && umap == old(umap) && umapHeap == old(umapHeap)
      ensures Extended(old(vm.S()), vm.S(), cr3 / PAGE, m, {})
      ensures DevicePages(m, (DEVIO_BASE + old(devioUsed)) / PAGE, phys / PAGE, k)
      ensures DataMemory(vm.mem, cr3 / PAGE, DEVIO_BASE + old(devioUsed), DEVIO_BASE + old(devioUsed) + k * PAGE)
      ensures !old(DevMapActs(cap, phys, size)) ==> r.None? && k == 0 && vm.S() == old(vm.S())
      ensures old(DevMapActs(cap, phys, size)) ==>
                (r.Some? <==> PagesFit(old(vm.S()), cr3 / PAGE,
                                       PageSeq((DEVIO_BASE + old(devioUsed)) / PAGE, RoundUp(size) / PAGE), false))
      ensures old(DevMapActs(cap, phys, size)) && r.None? ==>
                k * PAGE < RoundUp(size)
                && MostThatFit(old(vm.S()), cr3 / PAGE, (DEVIO_BASE + old(devioUsed)) / PAGE, k, false)
      ensures devioBase == (if old(DevMapActs(cap, phys, size)) then DEVIO_BASE else old(devioBase))
      ensures r.None? ==> devioUsed == old(devioUsed)
      ensures r.Some? ==> r.value == DEVIO_BASE + old(devioUsed) && devioUsed == r.value + RoundUp(size) - DEVIO_BASE
                          && k == RoundUp(size) / PAGE
                          && PagesMade(old(vm.S()), vm.S(), cr3 / PAGE, PageSeq(r.value / PAGE, k), false)
    {
      hide PagesMade, PagesFit, MostThatFit, Inv, Translate, KernelSlot, OwnLeaf, WordAt, Extended, Layout, Entry;
      hide DevicePages, DataMemory;
      ghost var s0 := vm.S();
      ExtendedReflexive(s0, cr3 / PAGE);
      NoMemory(vm.mem, cr3 / PAGE, DEVIO_BASE + devioUsed);
      DevicePagesNone((DEVIO_BASE + devioUsed) / PAGE, phys / PAGE);
      r, m, k := None, map[], 0;
      if !isUser || !cap { return; }
      if phys % PAGE != 0 || size == 0 || size > MAX_DEVICE { return; }
      var bytes := RoundUp(size);
      if devioBase == 0 { devioBase := DEVIO_BASE; }
      var va := devioBase + devioUsed;
      var ok: bool;
      ok, m, k := MapWindow(vm, va, phys, bytes);
      LayoutDevice(s0, vm.S(), cr3 / PAGE, umap, umapHeap, m, va / PAGE, phys / PAGE, k);
      WindowRights(s0, vm.S(), cr3 / PAGE, m, va, phys / PAGE, k);
      if !ok { return; }
      devioUsed := devioUsed + bytes;
      r := Some(va);
    }

    // user_ptr_ok for the current process: the range lies inside one recorded region, hence every byte of it
    // is mapped; and a byte mapped below the device window is accepted.
    method UserPtrOk(vm: AddressSpaceTable, addr: nat, len: nat) returns (ok: bool)
      requires Valid(vm) && addr < U64 && len < U64
      ensures ok <==> len == 0
                      || (addr != 0 && addr + len < U64
                          && (!isUser || exists i | 0 <= i < |umap| ::
                                umap[i].base <= addr && addr + len <= umap[i].base + umap[i].size))
      ensures ok && isUser ==> forall v | addr <= v < addr + len :: Translate(vm.mem, cr3 / PAGE, v).Some?
      ensures isUser && USER_BASE <= addr < DEVIO_BASE && Translate(vm.mem, cr3 / PAGE, addr).Some? && len == 1 ==> ok
    {
      hide Translate, KernelSlot, WordAt, Mmio, WriteXorExecute;
      if addr == 0 { return len == 0; }
      if len == 0 { return true; }
      if addr + len >= U64 { return false; }
      if !isUser { return true; }
      for i := 0 to |umap|
        invariant forall j | 0 <= j < i :: !(umap[j].base <= addr && addr + len <= umap[j].base + umap[j].size)
      {
        var b, sz := umap[i].base, umap[i].size;
        if sz == 0 { continue; }
        if addr >= b && addr - b < sz && addr - b + len <= sz {
          RegionMapped(vm.S(), cr3 / PAGE, umap, umapHeap, i);
          return true;
        }
      }
      assert USER_BASE <= addr < DEVIO_BASE ==> AddressOk(vm.mem, cr3 / PAGE, umap, addr);
      return false;
    }

    // user_str: the NUL-terminated string at src, at most max - 1 bytes, every byte checked before it is read. It fails
    // exactly when there is none whose bytes all lie in recorded regions.
    method UserStr(vm: AddressSpaceTable, src: nat, max: nat) returns (r: Option<seq<Byte>>)
      requires Valid(vm) && isUser && src < U64 && max < U64
      ensures r.Some? ==> |r.value| < max && Accessible(vm.mem, cr3 / PAGE, umap, src, r.value)
      ensures r.None? ==>
                src == 0 || max == 0 || forall s: seq<Byte> | Accessible(vm.mem, cr3 / PAGE, umap, src, s) :: |s| >= max
      ensures r.None? ==>
                src == 0 || max == 0
                || (exists a | src <= a < src + max :: !Accepts(umap, a) && NonZero(vm.mem, cr3 / PAGE, src, a))
                || NonZero(vm.mem, cr3 / PAGE, src, src + max)
    {
      hide Translate, KernelSlot, WordAt, Mmio, WriteXorExecute, Inv, Begun, Accessible, Accepts, NonZero, UserByte;
      hide Layout;
      if src == 0 || max == 0 { return None; }
      var dst: seq<Byte> := [];
      BegunNone(vm.mem, cr3 / PAGE, umap, src);
      while true
        invariant |dst| < max && src + |dst| < U64
        invariant Begun(vm.mem, cr3 / PAGE, umap, src, dst)
        decreases max - |dst|
      {
        var ok := UserPtrOk(vm, src + |dst|, 1);
        if !ok {
          LayoutShape(vm.S(), cr3 / PAGE, umap, umapHeap);
          NotAccepted(umap, src + |dst|, umapHeap);
          BegunByte(vm.mem, cr3 / PAGE, umap, src, dst, 0);
          NoString(vm.mem, cr3 / PAGE, umap, src, dst);
          return None;
        }
        InRegion(umap, src + |dst|);
        Readable(vm.S(), cr3 / PAGE, umap, umapHeap, src + |dst|);
        var c := UserByte(vm.mem, cr3 / PAGE, src + |dst|).value;
        BegunMore(vm.mem, cr3 / PAGE, umap, src, dst, c);
        if c == 0 { return Some(dst); }
        if |dst| + 1 >= max {
          BegunByte(vm.mem, cr3 / PAGE, umap, src, dst + [c], 0);
          NoString(vm.mem, cr3 / PAGE, umap, src, dst);
          return None;
        }
        LayoutShape(vm.S(), cr3 / PAGE, umap, umapHeap);
        AcceptedBelow(umap, umapHeap, src + |dst|);
        dst := dst + [c];
      }
    }
  }

  // ---------------------------------------------------------------- user bytes

  // The byte behind address v of this address space: what the kernel reads there, and ring 3 where it may read.
  function UserByte(mem: Memory, root: nat, v: nat): Option<Byte>
  {
    match Translate(mem, root, v)
    case None => None
    case Some(e) => if Frame(e) < |mem| then Some(mem[Frame(e)][v % PAGE]) else None
  }

  // A C string at v.
  ghost predicate HoldsString(mem: Memory, root: nat, v: nat, s: seq<Byte>)
  {
    (forall a | v <= a < v + |s| :: UserByte(mem, root, a) == Some(s[a - v]) && s[a - v] != 0)
    && UserByte(mem, root, v + |s|) == Some(0)
  }

  // All of its bytes lie in recorded regions.
  ghost predicate Accessible(mem: Memory, root: nat, umap: seq<Span>, v: nat, s: seq<Byte>)
  {
    HoldsString(mem, root, v, s) && forall a | v <= a <= v + |s| :: Accepts(umap, a)
  }

  // A string so far: accepted bytes that are not NUL.
  ghost predicate Begun(mem: Memory, root: nat, umap: seq<Span>, v: nat, s: seq<Byte>)
  {
    (forall i | 0 <= i < |s| :: s[i] != 0 && UserByte(mem, root, v + i) == Some(s[i]))
    && forall a | v <= a < v + |s| :: Accepts(umap, a)
  }

  lemma BegunNone(mem: Memory, root: nat, umap: seq<Span>, v: nat)
    ensures Begun(mem, root, umap, v, [])
  {
  }

  lemma BegunMore(mem: Memory, root: nat, umap: seq<Span>, v: nat, s: seq<Byte>, c: Byte)
    requires Begun(mem, root, umap, v, s) && UserByte(mem, root, v + |s|) == Some(c) && Accepts(umap, v + |s|)
    ensures c != 0 ==> Begun(mem, root, umap, v, s + [c])
    ensures c == 0 ==> Accessible(mem, root, umap, v, s)
  {
    hide UserByte, Accepts;
    if c == 0 {
      forall a | v <= a < v + |s|
        ensures UserByte(mem, root, a) == Some(s[a - v]) && s[a - v] != 0
      {
        assert v + (a - v) == a;
      }
    }
  }

  lemma StringByte(mem: Memory, root: nat, v: nat, s: seq<Byte>, k: nat)
    requires HoldsString(mem, root, v, s) && k <= |s|
    ensures UserByte(mem, root, v + k) == Some(if k < |s| then s[k] else 0) && (k < |s| ==> s[k] != 0)
  {
    hide UserByte;
  }

  lemma BegunByte(mem: Memory, root: nat, umap: seq<Span>, v: nat, s: seq<Byte>, k: nat)
    requires Begun(mem, root, umap, v, s) && k <= |s|
    ensures k < |s| ==> UserByte(mem, root, v + k) == Some(s[k]) && s[k] != 0
    ensures NonZero(mem, root, v, v + |s|)
  {
    hide UserByte, Accepts;
    forall a | v <= a < v + |s|
      ensures UserByte(mem, root, a).Some? && UserByte(mem, root, a) != Some(0)
    {
      assert s[a - v] != 0 && v + (a - v) == a;
    }
  }

  // If the next byte is not accepted, there is no string; if it is not NUL, there is none that ends there.
  lemma NoString(mem: Memory, root: nat, umap: seq<Span>, v: nat, s: seq<Byte>)
    requires Begun(mem, root, umap, v, s)
    ensures !Accepts(umap, v + |s|) ==> forall t: seq<Byte> :: !Accessible(mem, root, umap, v, t)
    ensures UserByte(mem, root, v + |s|) != Some(0) ==>
              forall t: seq<Byte> | Accessible(mem, root, umap, v, t) :: |t| > |s|
  {
    hide UserByte, Accepts, Begun, HoldsString;
    forall t: seq<Byte> | Accessible(mem, root, umap, v, t)
      ensures |t| >= |s| && Accepts(umap, v + |s|) && (UserByte(mem, root, v + |s|) != Some(0) ==> |t| > |s|)
    {
      var k := if |t| < |s| then |t| else |s|;
      StringByte(mem, root, v, t, k);
      BegunByte(mem, root, umap, v, s, k);
    }
  }

  // The bytes lo..hi can be read and none of them is NUL.
  ghost predicate NonZero(mem: Memory, root: nat, lo: nat, hi: nat)
  {
    forall a | lo <= a < hi :: UserByte(mem, root, a).Some? && UserByte(mem, root, a) != Some(0)
  }

  lemma NotAccepted(umap: seq<Span>, v: nat, heap: int)
    requires Regions(umap, heap) && v < U64
    requires !(v != 0 && v + 1 < U64
               && exists i | 0 <= i < |umap| :: umap[i].base <= v && v + 1 <= umap[i].base + umap[i].size)
    ensures !Accepts(umap, v)
  {
  }

  lemma AcceptedBelow(umap: seq<Span>, heap: int, v: nat)
    requires Regions(umap, heap)
    requires exists i | 0 <= i < |umap| :: umap[i].base <= v && v + 1 <= umap[i].base + umap[i].size
    ensures v < DEVIO_BASE
  {
  }

  // Accepted bytes are backed by RAM.
  lemma Readable(s: State, root: nat, umap: seq<Span>, heap: int, v: nat)
    requires Inv(s) && Layout(s, root, umap, heap)
    requires exists i | 0 <= i < |umap| :: umap[i].base <= v && v + 1 <= umap[i].base + umap[i].size
    ensures UserByte(s.mem, root, v).Some?
  {
    hide Translate, KernelSlot, WordAt, Mmio, WriteXorExecute, EntriesOk, ParentsOk, KernelApart, Frame, Accepts;
    AcceptedBelow(umap, heap, v);
    assert Accepts(umap, v) by { InRegion(umap, v); }
    assert AddressOk(s.mem, root, umap, v);
    UserRange(s, v);
    HeldFrame(s, root, v);
    TranslatePresent(s.mem, root, v);
    assert Holds(Translate(s.mem, root, v), Frame(Translate(s.mem, root, v).value));
  }

  lemma RegionMapped(s: State, root: nat, umap: seq<Span>, heap: int, i: nat)
    requires Layout(s, root, umap, heap) && i < |umap|
    ensures forall v | umap[i].base <= v < umap[i].base + umap[i].size :: Translate(s.mem, root, v).Some?
  {
    hide Translate, KernelSlot, Mmio, WriteXorExecute;
    forall v | umap[i].base <= v < umap[i].base + umap[i].size
      ensures Translate(s.mem, root, v).Some?
    {
      assert AddressOk(s.mem, root, umap, v);
    }
  }

  lemma InRegion(umap: seq<Span>, v: nat)
    requires exists i | 0 <= i < |umap| :: umap[i].base <= v && v + 1 <= umap[i].base + umap[i].size
    ensures Accepts(umap, v)
  {
  }

  lemma TranslatePresent(mem: Memory, root: nat, v: nat)
    ensures Translate(mem, root, v).Some? ==> Present(Translate(mem, root, v).value)
  {
  }

  // ---------------------------------------------------------------- device pages

  // k consecutive pages from lo, each an MMIO leaf for the corresponding frame from f.
  ghost predicate DevicePages(m: map<nat, Word>, lo: nat, f: nat, k: nat)
  {
    (forall p :: p in m <==> lo <= p < lo + k)
    && (forall p | p in m ::
          m[p] == Entry(f + (p - lo), DEVICE_FLAGS) && Mmio(m[p]) && Present(m[p]) && DataLeaf(m[p]))
  }

  lemma DevicePagesNone(lo: nat, f: nat)
    ensures DevicePages(map[], lo, f, 0)
  {
  }

  lemma DevicePagesMore(m: map<nat, Word>, lo: nat, f: nat, k: nat)
    requires DevicePages(m, lo, f, k) && Entry(f + k, DEVICE_FLAGS) < U64
    ensures DevicePages(m[lo + k := Entry(f + k, DEVICE_FLAGS)], lo, f, k + 1)
  {
    hide Entry, Mmio, Present, DataLeaf;
    DevicePage(f + k);
  }

  lemma NotOwnDevice(e: Word)
    requires Mmio(e)
    ensures !OwnLeaf(e)
  {
  }

  // The next window page holds no frame of ours, before the call or during it.
  lemma DeviceRoom(s0: State, s: State, root: nat, umap: seq<Span>, heap: int, m: map<nat, Word>, lo: nat, f: nat,
          k: nat)
    requires Layout(s0, root, umap, heap) && Extended(s0, s, root, m, {}) && DevicePages(m, lo, f, k)
    requires DEVIO_BASE <= (lo + k) * PAGE < USER_END
    ensures UserAddress(s0, (lo + k) * PAGE) && UserAddress(s, (lo + k) * PAGE)
    ensures NoOwnLeaf(s0, root, (lo + k) * PAGE) && NoOwnLeaf(s, root, (lo + k) * PAGE)
  {
    hide Translate, KernelSlot, Inv, WordAt, L4, Mmio, Present, Entry, Accepts;
    UserRange(s0, (lo + k) * PAGE);
    assert AddressOk(s0.mem, root, umap, (lo + k) * PAGE);
    AtPage(s0, s, root, m, lo + k);
  }

  lemma LayoutDevice(s0: State, s: State, root: nat, umap: seq<Span>, heap: int, m: map<nat, Word>, lo: nat, f: nat,
          k: nat)
    requires Layout(s0, root, umap, heap) && Extended(s0, s, root, m, {}) && DevicePages(m, lo, f, k)
    requires DEVIO_BASE <= lo * PAGE
    ensures Layout(s, root, umap, heap)
  {
    hide Translate, KernelSlot, Inv, WordAt, L4, Mmio, WriteXorExecute, DataLeaf, Accepts, Untouched, Entry, Present;
    ExtendedFacts(s0, s, root, m, {});
    forall v: nat | USER_BASE <= v < USER_END
      ensures AddressOk(s.mem, root, umap, v)
    {
      UserRange(s0, v);
      assert AddressOk(s0.mem, root, umap, v);
    }
  }
}
