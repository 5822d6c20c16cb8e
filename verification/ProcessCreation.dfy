// Creation of a ring-3 process from ELF segments (proc_create_user_regions and proc_enter_user) and its
// collection (proc_gc_run): what the new process sees through its page tables, and where the frames go.
module ProcessCreation {
  import opened PhysMemory
  import opened FrameAllocator
  import opened Alignment
  import opened PageTables
  import opened UserRights
  import opened TableDepth
  import opened Teardown
  import opened AddressSpaces
  import opened ProcessMemory
  import opened UserMemory
  import opened Argv

  const STACK_PAGES: nat := 16
  const MAX_SEGMENTS: nat := 7

  // ureg_t: file bytes, size in memory (the rest is zero) and p_flags (bit 0 execute, bit 1 write).
  datatype Segment = Segment(vaddr: nat, data: seq<Byte>, memSz: nat, flags: nat)

  function SegBase(seg: Segment): nat { seg.vaddr / PAGE * PAGE }

  function SegPages(seg: Segment): nat
  {
    var n := (seg.vaddr - SegBase(seg) + seg.memSz + PAGE - 1) / PAGE;
    if n == 0 then 1 else n
  }

  function SegFlags(seg: Segment): nat
  {
    if seg.flags % 2 == 1 then CODE_FLAGS else if seg.flags / 2 % 2 == 1 then DATA_FLAGS else READ_FLAGS
  }

  // What the segment loop decides about one segment, given the bitmap.
  ghost function SegmentCode(bits: seq<bool>, seg: Segment): int
  {
    if SegBase(seg) < USER_BASE then -10 else if NoRun(bits, SegPages(seg)) then -11 else 0
  }

  function SegSpan(seg: Segment): Span { Span(SegBase(seg), SegPages(seg) * PAGE) }

  lemma SegFlagsOk(seg: Segment)
    ensures LeafFlags(SegFlags(seg)) && !Mmio(SegFlags(seg)) && WriteXorExecute(SegFlags(seg))
  {
    FlagConstants();
  }

  // ---------------------------------------------------------------- bytes of physical memory

  function Phys(mem: Memory, a: nat): Byte
    requires a < |mem| * PAGE
  {
    mem[a / PAGE][a % PAGE]
  }

  // memcpy to physical memory.
  method CopyBytes(vm: AddressSpaceTable, pa: nat, data: seq<Byte>)
    requires pa + |data| <= |vm.mem| * PAGE
    modifies vm`mem
    ensures |vm.mem| == |old(vm.mem)|
    ensures forall a | 0 <= a < |vm.mem| * PAGE ::
              Phys(vm.mem, a) == if pa <= a < pa + |data| then data[a - pa] else Phys(old(vm.mem), a)
    ensures forall f | 0 <= f < |vm.mem| && !(pa / PAGE <= f < (pa + |data| + PAGE - 1) / PAGE) ::
              vm.mem[f] == old(vm.mem)[f]
  {
    for i := 0 to |data|
      invariant |vm.mem| == |old(vm.mem)|
      invariant forall a | 0 <= a < |vm.mem| * PAGE ::
                  Phys(vm.mem, a) == if pa <= a < pa + i then data[a - pa] else Phys(old(vm.mem), a)
      invariant forall f | 0 <= f < |vm.mem| && !(pa / PAGE <= f < (pa + |data| + PAGE - 1) / PAGE) ::
                  vm.mem[f] == old(vm.mem)[f]
    {
      PutByte(vm, pa + i, data[i]);
    }
  }

  method PutByte(vm: AddressSpaceTable, a: nat, b: Byte)
    requires a < |vm.mem| * PAGE
    modifies vm`mem
    ensures |vm.mem| == |old(vm.mem)| && forall f | 0 <= f < |vm.mem| && f != a / PAGE :: vm.mem[f] == old(vm.mem)[f]
    ensures forall c | 0 <= c < |vm.mem| * PAGE :: Phys(vm.mem, c) == if c == a then b else Phys(old(vm.mem), c)
  {
    vm.mem := vm.mem[a / PAGE := vm.mem[a / PAGE][a % PAGE := b]];
    forall c | 0 <= c < |vm.mem| * PAGE && c != a
      ensures Phys(vm.mem, c) == Phys(old(vm.mem), c)
    {
      assert c / PAGE != a / PAGE || c % PAGE != a % PAGE;
    }
  }

  // memset of whole frames to zero.
  method ZeroFrames(vm: AddressSpaceTable, f: nat, n: nat)
    requires f + n <= |vm.mem|
    modifies vm`mem
    ensures |vm.mem| == |old(vm.mem)|
    ensures forall g | 0 <= g < |vm.mem| :: vm.mem[g] == if f <= g < f + n then ZeroPage() else old(vm.mem)[g]
  {
    for i := 0 to n
      invariant |vm.mem| == |old(vm.mem)|
      invariant forall g | 0 <= g < |vm.mem| :: vm.mem[g] == if f <= g < f + i then ZeroPage() else old(vm.mem)[g]
    {
      vm.mem := vm.mem[f + i := ZeroPage()];
    }
  }

  // ---------------------------------------------------------------- a run of frames at a run of pages

  // Pages lo..lo+k onto frames f..f+k with the same flags; the frames in 'lost' could not be mapped.
  ghost predicate RunMapped(m: map<nat, Word>, lo: nat, f: nat, k: nat, flags: nat, lost: set<nat>)
  {
    (forall p :: p in m <==> lo <= p < lo + k && f + (p - lo) !in lost)
    && (forall p | p in m :: m[p] == Entry(f + (p - lo), flags))
    && (forall g | g in lost :: f <= g < f + k)
  }

  lemma RunMappedMore(m: map<nat, Word>, lo: nat, f: nat, k: nat, flags: nat, lost: set<nat>, ok: bool)
    requires RunMapped(m, lo, f, k, flags, lost) && Entry(f + k, flags) < U64
    ensures lo + k !in m
    ensures ok ==> RunMapped(m[lo + k := Entry(f + k, flags)], lo, f, k + 1, flags, lost)
    ensures !ok ==> RunMapped(m, lo, f, k + 1, flags, lost + {f + k})
  {
    hide Entry;
  }

  // The user addresses of a run of pages, none of them mapped.
  ghost predicate Vacant(s: State, root: nat, lo: nat, n: nat)
    requires s.ker < |s.mem|
  {
    UserSlotsFree(s) && USER_BASE <= lo * PAGE && (lo + n) * PAGE <= DEVIO_BASE
    && forall p | lo <= p < lo + n :: Translate(s.mem, root, p * PAGE) == None
  }

  lemma VacantPage(s0: State, s: State, root: nat, lo: nat, n: nat, m: map<nat, Word>, loose: set<nat>, p: nat)
    requires Extended(s0, s, root, m, loose) && s0.ker < |s0.mem| && Vacant(s0, root, lo, n) && lo <= p < lo + n
    requires p !in m
    ensures p * PAGE < USER_END && UserAddress(s0, p * PAGE) && NoOwnLeaf(s0, root, p * PAGE)
    ensures NoOwnLeaf(s, root, p * PAGE)
  {
    hide Translate, KernelSlot, Inv, OwnLeaf, WordAt, L4;
    UserRange(s0, p * PAGE);
    AtPage(s0, s, root, m, p);
  }

  // Where a mapping loop stands after k of n pages.
  ghost predicate RunState(s0: State, s: State, mem0: Memory, root: nat, lo: nat, f: nat, k: nat, n: nat, flags: nat,
          m: map<nat, Word>, lost: set<nat>)
    requires k <= n
  {
    RunMapped(m, lo, f, k, flags, lost) && Extended(s0, s, root, m, lost + Run(f + k, n - k))
    && |s.mem| == |mem0| == |s.bits| == |s.tag|
    && forall g | f <= g < f + n && g < |mem0| :: s.mem[g] == mem0[g] && s.bits[g] && !IsTable(s.tag[g])
  }

  // The frames of the run still hold what they held.
  lemma StillUnchanged(s: State, s': State, mem0: Memory, f: nat, n: nat)
    requires KeepsContents(s, s') && |s.mem| == |mem0|
    requires forall g | f <= g < f + n && g < |mem0| :: s.mem[g] == mem0[g] && s.bits[g] && !IsTable(s.tag[g])
    ensures |s'.mem| == |mem0| == |s'.bits| == |s'.tag|
    ensures forall g | f <= g < f + n && g < |mem0| :: s'.mem[g] == mem0[g] && s'.bits[g] && !IsTable(s'.tag[g])
  {
  }

  // What k turns of the loop took: the missing tables, or all there was, with some pages not mapped then.
  ghost predicate RunTaken(s1: State, s: State, root: nat, lo: nat, k: nat, lost: set<nat>)
  {
    s1.ker < |s1.mem| && s.ker < |s.mem| && |s.bits| == |s1.bits|
    && (forall i | 0 <= i < SLOTS :: KernelSlot(s, i) == KernelSlot(s1, i))
    && if lost == {} then PagesMade(s1, s, root, PageSeq(lo, k), false)
       else NoRun(s.bits, 1) && !PagesFit(s1, root, PageSeq(lo, k), false)
  }

  lemma RunTakenNone(s: State, root: nat, lo: nat)
    requires s.ker < |s.mem|
    ensures RunTaken(s, s, root, lo, 0, {})
  {
    assert PageSeq(lo, 0) == [];
    PagesNone(s, root, false);
  }

  lemma RunTakenMore(s1: State, s: State, s': State, root: nat, lo: nat, k: nat, lost: set<nat>, f: nat, ok: bool)
    requires RunTaken(s1, s, root, lo, k, lost) && UserAddress(s1, (lo + k) * PAGE) && |s'.bits| == |s.bits|
    requires s'.ker < |s'.mem| && forall i | 0 <= i < SLOTS :: KernelSlot(s', i) == KernelSlot(s1, i)
    requires var n := Missing(s.mem, root, (lo + k) * PAGE, 3);
             (ok <==> CountSet(s.bits) + n <= |s.bits|) && s'.bits == TakeOnes(s.bits, n)
             && (ok ==> Deeper(s, s', root, (lo + k) * PAGE, 3))
    ensures RunTaken(s1, s', root, lo, k + 1, if ok then lost else lost + {f})
  {
    hide PagesMade, PagesFit, NoRun, CountSet, TakeOnes, Missing, Deeper, KernelSlot, PageSeq, UserAddress;
    var p, n := lo + k, Missing(s.mem, root, (lo + k) * PAGE, 3);
    PageSeqMore(lo, k);
    if lost == {} {
      NextPageFits(s1, s, root, PageSeq(lo, k), p, false);
      if ok {
        NextPageMade(s1, s, s', root, PageSeq(lo, k), p, false);
      } else {
        TakeOnesCount(s.bits, n);
        CountFull(s'.bits);
      }
    } else {
      FewerFit(s1, root, lo, k, k + 1, false);
      FullStays(s.bits, n);
    }
  }

  // At the end: every page is mapped exactly when there were frames for all the tables.
  lemma RunTakenAll(s1: State, s: State, root: nat, lo: nat, n: nat, lost: set<nat>)
    requires RunTaken(s1, s, root, lo, n, lost)
    ensures lost == {} <==> PagesFit(s1, root, PageSeq(lo, n), false)
    ensures s.bits == TakeOnes(s1.bits, NewTables(s1.mem, root, PageSeq(lo, n)))
    ensures lost == {} ==> PagesMade(s1, s, root, PageSeq(lo, n), false)
    ensures lost != {} ==> NoRun(s.bits, 1)
  {
    hide PagesFit, NoRun, CountSet, TakeOnes, KernelSlot, PageSeq, Grew, NewTables;
    if lost == {} {
      PagesMadeFit(s1, s, root, PageSeq(lo, n), false);
    } else {
      FullTaken(s1, s.bits, root, PageSeq(lo, n));
    }
  }

  // One turn: the result of paging_map_user is ignored.
  method MapRunStep(vm: AddressSpaceTable, pml4: nat, virt: nat, f: nat, k: nat, n: nat, flags: nat,
        ghost s0: State, ghost s1: State, ghost m: map<nat, Word>, ghost lost: set<nat>)
    returns (ghost m': map<nat, Word>, ghost lost': set<nat>)
    requires vm.Valid() && vm.IsSpace(pml4) && k < n
    requires RunState(s0, vm.S(), s1.mem, pml4 / PAGE, virt / PAGE, f, k, n, flags, m, lost)
    requires virt % PAGE == 0 && s0.ker < |s0.mem| && Vacant(s0, pml4 / PAGE, virt / PAGE, n) && LeafFlags(flags)
    requires !Mmio(flags)
    requires RunTaken(s1, vm.S(), pml4 / PAGE, virt / PAGE, k, lost)
    requires forall i | 0 <= i < SLOTS :: KernelSlot(s1, i) == KernelSlot(s0, i)
    modifies vm, vm.pmm, vm.pmm.bitmap
    ensures vm.Valid() && vm.IsSpace(pml4)
    ensures RunState(s0, vm.S(), s1.mem, pml4 / PAGE, virt / PAGE, f, k + 1, n, flags, m', lost')
    ensures RunTaken(s1, vm.S(), pml4 / PAGE, virt / PAGE, k + 1, lost')
  {
    hide Inv, InKernel, KeepsContents, Translate, KernelSlot, OwnLeaf, Frame, Mmio, WordAt, Extended, LeafFlags, Entry;
    hide L4, NoOwnLeaf, RunMapped, Vacant, Run;
    hide RunTaken, Missing, Deeper, TakeOnes, CountSet;
    ghost var s, root := vm.S(), pml4 / PAGE;
    ghost var loose := lost + Run(f + k, n - k);
    ExtendedFacts(s0, vm.S(), pml4 / PAGE, m, loose);
    assert f + k in loose;
    assert forall g | g in lost :: f <= g < f + k by { RunMappedLost(m, virt / PAGE, f, k, flags, lost); }
    LeafEntry(f + k, flags);
    RunMappedMore(m, virt / PAGE, f, k, flags, lost, true);
    RunMappedMore(m, virt / PAGE, f, k, flags, lost, false);
    VacantPage(s0, vm.S(), pml4 / PAGE, virt / PAGE, n, m, loose, virt / PAGE + k);
    RunSplit(f, k, n, lost);
    var ok: bool;
    ok, m' := MapLoose(vm, pml4, s0, m, loose, virt / PAGE + k, f + k, flags);
    lost' := if ok then lost else lost + {f + k};
    StillUnchanged(s, vm.S(), s1.mem, f, n);
    ExtendedFacts(s0, vm.S(), root, m', if ok then loose - {f + k} else loose);
    RunTakenMore(s1, s, vm.S(), root, virt / PAGE, k, lost, f + k, ok);
  }

  // The mapping loops of process creation. The missing tables take the lowest free frames; a page stays unmapped,
  // its frame lost, exactly when these do not suffice.
  method MapRun(vm: AddressSpaceTable, pml4: nat, virt: nat, f: nat, n: nat, flags: nat, ghost s0: State)
    returns (ghost m: map<nat, Word>, ghost lost: set<nat>)
    requires vm.Valid() && vm.IsSpace(pml4) && Extended(s0, vm.S(), pml4 / PAGE, map[], Run(f, n))
    requires virt % PAGE == 0 && s0.ker < |s0.mem| && Vacant(s0, pml4 / PAGE, virt / PAGE, n) && LeafFlags(flags)
    requires !Mmio(flags)
    modifies vm, vm.pmm, vm.pmm.bitmap
    ensures vm.Valid() && vm.IsSpace(pml4)
    ensures RunMapped(m, virt / PAGE, f, n, flags, lost) && Extended(s0, vm.S(), pml4 / PAGE, m, lost)
    ensures |vm.mem| == |old(vm.mem)| && forall g | f <= g < f + n && g < |vm.mem| :: vm.mem[g] == old(vm.mem)[g]
    ensures RunTaken(old(vm.S()), vm.S(), pml4 / PAGE, virt / PAGE, n, lost)
  {
    hide Inv, Translate, KernelSlot, OwnLeaf, Frame, Mmio, WordAt, Extended, LeafFlags, Entry, L4, NoOwnLeaf, RunMapped;
    hide Vacant, RunTaken;
    ghost var s1 := vm.S();
    m, lost := map[], {};
    RunMappedNone(virt / PAGE, f, flags);
    assert {} + Run(f, n) == Run(f, n);
    LooseContents(s0, s1, pml4 / PAGE, map[], Run(f, n));
    ExtendedFacts(s0, s1, pml4 / PAGE, map[], Run(f, n));
    RunTakenNone(s1, pml4 / PAGE, virt / PAGE);
    for i := 0 to n
      invariant vm.Valid() && vm.IsSpace(pml4)
      invariant RunState(s0, vm.S(), s1.mem, pml4 / PAGE, virt / PAGE, f, i, n, flags, m, lost)
      invariant RunTaken(s1, vm.S(), pml4 / PAGE, virt / PAGE, i, lost)
    {
      m, lost := MapRunStep(vm, pml4, virt, f, i, n, flags, s0, s1, m, lost);
    }
    assert lost + Run(f + n, 0) == lost;
  }

  lemma RunSplit(f: nat, k: nat, n: nat, lost: set<nat>)
    requires k < n && forall g | g in lost :: f <= g < f + k
    ensures lost + Run(f + k, n - k) - {f + k} == lost + Run(f + k + 1, n - k - 1)
    ensures lost + Run(f + k, n - k) == lost + {f + k} + Run(f + k + 1, n - k - 1)
  {
  }

  lemma RunMappedNone(lo: nat, f: nat, flags: nat)
    ensures RunMapped(map[], lo, f, 0, flags, {})
  {
  }

  lemma RunMappedLost(m: map<nat, Word>, lo: nat, f: nat, k: nat, flags: nat, lost: set<nat>)
    requires RunMapped(m, lo, f, k, flags, lost)
    ensures forall g | g in lost :: f <= g < f + k
  {
  }

  lemma LooseContents(s0: State, s: State, root: nat, m: map<nat, Word>, loose: set<nat>)
    requires Extended(s0, s, root, m, loose)
    ensures forall g | g in loose :: g < |s.tag| == |s.bits| && s.bits[g] && !IsTable(s.tag[g])
  {
    ExtendedFacts(s0, s, root, m, loose);
  }

  // ---------------------------------------------------------------- one segment

  // What the address a of the segment must read as.
  function SegByte(seg: Segment, a: nat): Byte
    requires seg.vaddr <= a
  {
    if a - seg.vaddr < |seg.data| then seg.data[a - seg.vaddr] else 0
  }

  // The leaf for a carries exactly these flags.
  ghost predicate LeafIs(mem: Memory, root: nat, a: nat, flags: nat)
  {
    var e := Translate(mem, root, a);
    e.Some? && OwnLeaf(e.value) && e.value == Entry(Frame(e.value), flags)
  }

  // Reading the segment through the page tables gives the file bytes, then zeros, under its protection.
  ghost predicate Image(mem: Memory, root: nat, seg: Segment)
  {
    forall a | seg.vaddr <= a < seg.vaddr + seg.memSz ::
      UserByte(mem, root, a) == Some(SegByte(seg, a)) && LeafIs(mem, root, a, SegFlags(seg))
  }

  // What ring 3 may do with the segment, from p_flags: execute what PF_X allows; write what PF_W allows, unless it is
  // executable; and read both of these. A segment with PF_R alone it cannot even read.
  ghost predicate Protected(mem: Memory, root: nat, seg: Segment)
  {
    var x, w := seg.flags % 2 == 1, seg.flags / 2 % 2 == 1;
    forall a | seg.vaddr <= a < seg.vaddr + seg.memSz ::
      (Ring3Fetches(mem, root, a) <==> x) && (Ring3Writes(mem, root, a) <==> w && !x)
      && (Ring3Reads(mem, root, a) <==> x || w)
  }

  lemma SegBits(seg: Segment)
    ensures var x, w, e := seg.flags % 2 == 1, seg.flags / 2 % 2 == 1, SegFlags(seg);
            (UserBit(e) <==> x || w) && (Writable(e) <==> w && !x) && (NoExecute(e) <==> !x)
  {
    hide UserBit, Writable, NoExecute;
    FlagConstants();
  }

  // The leaf decides, and the tables above it take nothing away.
  lemma ImageProtected(s: State, root: nat, seg: Segment)
    requires Inv(s) && root < |s.tag| && s.tag[root].Root? && UserSlotsFree(s)
    requires USER_BASE <= SegBase(seg) && SegBase(seg) + SegPages(seg) * PAGE <= DEVIO_BASE
    requires Image(s.mem, root, seg)
    ensures Protected(s.mem, root, seg)
  {
    hide Inv, KernelSlot, Translate, UserBit, Writable, NoExecute, Ring3Reads, Ring3Writes, Ring3Fetches, Walk;
    hide SegFlags, SegBase, SegPages, Frame, Entry, OwnLeaf, SegByte, UserByte, LeafFlags;
    forall a | seg.vaddr <= a < seg.vaddr + seg.memSz
      ensures (Ring3Fetches(s.mem, root, a) <==> seg.flags % 2 == 1)
      ensures (Ring3Writes(s.mem, root, a) <==> seg.flags / 2 % 2 == 1 && seg.flags % 2 == 0)
      ensures (Ring3Reads(s.mem, root, a) <==> seg.flags % 2 == 1 || seg.flags / 2 % 2 == 1)
    {
      SegCovers(seg, a);
      KernelInRam(s);
      UserRange(s, a);
      assert LeafIs(s.mem, root, a, SegFlags(seg));
      SegFlagsOk(seg);
      SegBits(seg);
      EntryReads(Frame(Translate(s.mem, root, a).value), SegFlags(seg));
      RightsOfLeaf(s, root, a);
    }
  }

  lemma LoadedProtected(s0: State, s: State, root: nat, seg: Segment, m: map<nat, Word>)
    requires Extended(s0, s, root, m, {}) && s0.ker < |s0.mem| && Vacant(s0, root, SegBase(seg) / PAGE, SegPages(seg))
    requires Image(s.mem, root, seg)
    ensures Protected(s.mem, root, seg)
  {
    hide Extended, Image, KernelSlot, SegPages, Protected, Translate;
    ExtendedFacts(s0, s, root, m, {});
    ImageProtected(s, root, seg);
  }

  lemma SegCovers(seg: Segment, a: nat)
    requires seg.vaddr <= a < seg.vaddr + seg.memSz
    ensures SegBase(seg) <= a < SegBase(seg) + SegPages(seg) * PAGE
    ensures SegBase(seg) / PAGE <= a / PAGE < SegBase(seg) / PAGE + SegPages(seg)
    ensures SegBase(seg) / PAGE * PAGE == SegBase(seg)
  {
  }

  // What the segment's pages hold at address a: zeros around the file bytes.
  function SegContent(seg: Segment, a: nat): Byte
  {
    if a < seg.vaddr then 0 else SegByte(seg, a)
  }

  ghost predicate Filled(mem: Memory, phys: nat, seg: Segment)
  {
    phys + SegPages(seg) * PAGE <= |mem| * PAGE
    && forall a | SegBase(seg) <= a < SegBase(seg) + SegPages(seg) * PAGE ::
         Phys(mem, phys + (a - SegBase(seg))) == SegContent(seg, a)
  }

  // memset and memcpy of one segment.
  method FillFrames(vm: AddressSpaceTable, phys: nat, seg: Segment)
    requires phys % PAGE == 0 && phys / PAGE + SegPages(seg) <= |vm.mem| && |seg.data| <= seg.memSz
    modifies vm`mem
    ensures |vm.mem| == |old(vm.mem)| && Filled(vm.mem, phys, seg)
    ensures forall g | 0 <= g < |vm.mem| && !(phys / PAGE <= g < phys / PAGE + SegPages(seg)) ::
              vm.mem[g] == old(vm.mem)[g]
  {
    var n, off := SegPages(seg), seg.vaddr - SegBase(seg);
    ZeroFrames(vm, phys / PAGE, n);
    ghost var mem1 := vm.mem;
    CopyBytes(vm, phys + off, seg.data);
    FilledFrames(old(vm.mem), mem1, vm.mem, phys / PAGE, n, off, |seg.data|);
    forall a | SegBase(seg) <= a < SegBase(seg) + n * PAGE
      ensures Phys(vm.mem, phys + (a - SegBase(seg))) == SegContent(seg, a)
    {
      ZeroRun(mem1, phys / PAGE, n, phys + (a - SegBase(seg)));
    }
  }

  // The allocation and filling half of the loop body.
  method FillSegment(vm: AddressSpaceTable, pml4: nat, seg: Segment) returns (phys: nat)
    requires vm.Valid() && vm.IsSpace(pml4) && |seg.data| <= seg.memSz
    modifies vm, vm.pmm, vm.pmm.bitmap
    ensures vm.Valid() && vm.IsSpace(pml4) && phys % PAGE == 0
    ensures phys == 0 ==> vm.S() == old(vm.S())
    ensures phys != 0 ==>
              Extended(old(vm.S()), vm.S(), pml4 / PAGE, map[], Run(phys / PAGE, SegPages(seg)))
              && Filled(vm.mem, phys, seg)
    ensures phys == 0 <==> NoRun(old(vm.S()).bits, SegPages(seg))
    ensures vm.S().bits == TakeRun(old(vm.S()).bits, SegPages(seg))
    ensures old(vm.S()).ker < |old(vm.S()).mem| && SameDepths(old(vm.S()), vm.S(), pml4 / PAGE)
  {
    hide NoRun, Inv, KernelSlot, WordAt, Extended, CountSet, Filled, SameDepths, TakeRun;
    ghost var s0, root := vm.S(), pml4 / PAGE;
    var n := SegPages(seg);
    phys := AllocRun(vm, pml4, n);
    SameDepthsNone(s0, root);
    if phys == 0 { return; }
    ghost var s1 := vm.S();
    ExtendedFacts(s0, s1, root, map[], Run(phys / PAGE, n));
    assert forall g | phys / PAGE <= g < phys / PAGE + n :: g in Run(phys / PAGE, n);
    FillFrames(vm, phys, seg);
    FreshFrames(s0, s1, root, Run(phys / PAGE, n));
    ExtendedWrite(s0, s1, vm.mem, root, map[], Run(phys / PAGE, n));
    ExtendedFacts(s0, vm.S(), root, map[], Run(phys / PAGE, n));
    FreeFramesWritten(s0, vm.S(), root);
  }

  lemma SameDepthsNone(s: State, root: nat)
    requires Inv(s)
    ensures s.ker < |s.mem| && SameDepths(s, s, root)
  {
    hide PageDepth;
  }

  lemma FreeFramesWritten(s: State, s': State, root: nat)
    requires Inv(s) && root < |s.tag| && s.tag[root].Root? && |s'.mem| == |s.mem|
    requires forall g | 0 <= g < |s.mem| && s.bits[g] :: s'.mem[g] == s.mem[g]
    ensures s.ker < |s.mem| && SameDepths(s, s', root)
  {
    hide EntriesOk, ParentsOk, KernelApart, SameDepths;
    WrittenDepths(s, s', root);
  }

  lemma FreshFrames(s0: State, s: State, root: nat, loose: set<nat>)
    requires Extended(s0, s, root, map[], loose)
    ensures forall g | g in loose :: 0 <= g < |s0.bits| && !s0.bits[g] && !IsTable(s.tag[g])
  {
    hide EntriesOk, ParentsOk, KernelApart, Translations;
  }

  // pmm_alloc of n frames for the address space.
  method AllocRun(vm: AddressSpaceTable, pml4: nat, n: nat) returns (phys: nat)
    requires vm.Valid() && vm.IsSpace(pml4)
    modifies vm.pmm, vm.pmm.bitmap
    ensures vm.Valid() && phys % PAGE == 0
    ensures phys == 0 ==> vm.S() == old(vm.S())
    ensures phys != 0 ==>
              Extended(old(vm.S()), vm.S(), pml4 / PAGE, map[], Run(phys / PAGE, n)) && phys / PAGE + n <= |vm.mem|
    ensures vm.mem == old(vm.mem)
    ensures phys == 0 <==> n == 0 || NoRun(old(vm.S()).bits, n)
    ensures vm.S().bits == TakeRun(old(vm.S()).bits, n)
  {
    hide NoRun, InUse, EntriesOk, ParentsOk, KernelApart, KernelSlot, WordAt, Extended, CountSet, TakeRun, LowFirst;
    ghost var s0, root := vm.S(), pml4 / PAGE;
    phys := vm.pmm.Alloc(n);
    if phys == 0 { return; }
    CountSetRun(s0.bits, phys / PAGE, n);
    ExtendedReflexive(s0, root);
    ExtendedAllocRun(s0, s0, root, map[], {}, phys / PAGE, n);
    assert {} + Run(phys / PAGE, n) == Run(phys / PAGE, n);
    assert vm.S() == State(s0.mem, s0.tag, SetRun(s0.bits, phys / PAGE, n, true), s0.ker);
    ExtendedFacts(s0, vm.S(), root, map[], Run(phys / PAGE, n));
  }

  lemma ZeroRun(mem: Memory, f: nat, n: nat, a: nat)
    requires f + n <= |mem| && f * PAGE <= a < (f + n) * PAGE
    requires forall g | f <= g < f + n :: mem[g] == ZeroPage()
    ensures Phys(mem, a) == 0
  {
  }

  lemma FilledFrames(mem0: Memory, mem1: Memory, mem2: Memory, f: nat, n: nat, off: nat, len: nat)
    requires |mem0| == |mem1| == |mem2| && off + len <= n * PAGE
    requires forall g | 0 <= g < |mem0| && !(f <= g < f + n) :: mem1[g] == mem0[g]
    requires forall g | 0 <= g < |mem0| && !((f * PAGE + off) / PAGE <= g < (f * PAGE + off + len + PAGE - 1) / PAGE) ::
               mem2[g] == mem1[g]
    ensures forall g | 0 <= g < |mem0| && !(f <= g < f + n) :: mem2[g] == mem0[g]
  {
  }

  // One turn of the segment loop of proc_create_user_regions.
  method LoadSegment(vm: AddressSpaceTable, pml4: nat, seg: Segment)
    returns (code: int, ghost f: nat, ghost m: map<nat, Word>, ghost lost: set<nat>)
    requires vm.Valid() && vm.IsSpace(pml4) && |seg.data| <= seg.memSz
    requires SegBase(seg) >= USER_BASE ==> Vacant(vm.S(), pml4 / PAGE, SegBase(seg) / PAGE, SegPages(seg))
    modifies vm, vm.pmm, vm.pmm.bitmap
    ensures vm.Valid() && vm.IsSpace(pml4) && Extended(old(vm.S()), vm.S(), pml4 / PAGE, m, lost)
    ensures code == SegmentCode(old(vm.S()).bits, seg)
    ensures code != 0 ==> vm.S() == old(vm.S()) && m == map[] && lost == {}
    ensures code == 0 ==>
              RunMapped(m, SegBase(seg) / PAGE, f, SegPages(seg), SegFlags(seg), lost)
              && f + SegPages(seg) <= FRAME_LIMIT
    ensures code == 0 && lost == {} ==> Image(vm.mem, pml4 / PAGE, seg) && Protected(vm.mem, pml4 / PAGE, seg)
    ensures code == 0 ==> FramesTaken(old(vm.S()), vm.S(), pml4 / PAGE, SegBase(seg) / PAGE, SegPages(seg), lost)
    ensures code == 0 && lost == {} ==> PagesGrown(old(vm.S()), vm.S(), pml4 / PAGE, SegBase(seg) / PAGE, SegPages(seg))
  {
    hide NoRun, Inv, InKernel, Run, KernelSlot, WordAt, Extended, CountSet, RunMapped, Image, LeafFlags, Mmio;
    hide Translate, Frame;
    hide Protected, WriteXorExecute, Filled, SegPages, SegFlags;
    hide RunTaken, FramesTaken, PagesGrown, SameDepths, TakeRun, Vacant;
    ghost var s0, root := vm.S(), pml4 / PAGE;
    code, f, m, lost := 0, 0, map[], {};
    ExtendedReflexive(s0, root);
    if SegBase(seg) < USER_BASE { return -10, 0, map[], {}; }
    var phys := FillSegment(vm, pml4, seg);
    if phys == 0 { return -11, 0, map[], {}; }
    ghost var mem1, s1 := vm.mem, vm.S();
    FilledBounds(mem1, phys, seg);
    SegFlagsOk(seg);
    ExtendedFacts(s0, vm.S(), root, map[], Run(phys / PAGE, SegPages(seg)));
    f := phys / PAGE;
    m, lost := MapRun(vm, pml4, SegBase(seg), phys / PAGE, SegPages(seg), SegFlags(seg), s0);
    ExtendedFacts(s0, vm.S(), root, m, lost);
    RunFrames(s0, s1, vm.S(), root, SegBase(seg) / PAGE, SegPages(seg), lost);
    if lost == {} {
      ImageLoaded(s0, vm.S(), mem1, root, seg, f, m);
      LoadedProtected(s0, vm.S(), root, seg, m);
    }
  }

  // What n pages from lo on took: a run of n frames, then one frame for each missing table; or, with some pages not
  // mapped, all there was.
  ghost predicate FramesTaken(s0: State, s: State, root: nat, lo: nat, n: nat, lost: set<nat>)
  {
    s.bits == TakeOnes(TakeRun(s0.bits, n), NewTables(s0.mem, root, PageSeq(lo, n)))
    && (lost == {} <==> PagesFit(s0, root, PageSeq(lo, n), true)) && (lost != {} ==> NoRun(s.bits, 1))
  }

  ghost predicate PagesGrown(s0: State, s: State, root: nat, lo: nat, n: nat)
  {
    s0.ker < |s0.mem| && Grew(s0, s, root, PageSeq(lo, n))
    && CountSet(s.bits) == CountSet(s0.bits) + n + NewTables(s0.mem, root, PageSeq(lo, n))
  }

  lemma VacantUser(s: State, root: nat, lo: nat, n: nat)
    requires s.ker < |s.mem| && Vacant(s, root, lo, n)
    ensures UserPages(s, PageSeq(lo, n))
  {
    hide KernelSlot, Translate, L4;
    forall i | 0 <= i < n
      ensures UserAddress(s, PageSeq(lo, n)[i] * PAGE)
    {
      UserRange(s, (lo + i) * PAGE);
    }
  }

  lemma RunFrames(s0: State, s1: State, s: State, root: nat, lo: nat, n: nat, lost: set<nat>)
    requires s0.ker < |s0.mem| && s1.ker < |s1.mem| && SameDepths(s0, s1, root) && |s1.bits| == |s0.bits|
    requires Vacant(s0, root, lo, n) && forall i | 0 <= i < SLOTS :: KernelSlot(s1, i) == KernelSlot(s0, i)
    requires !NoRun(s0.bits, n) && s1.bits == TakeRun(s0.bits, n) && RunTaken(s1, s, root, lo, n, lost)
    ensures FramesTaken(s0, s, root, lo, n, lost) && (lost == {} ==> PagesGrown(s0, s, root, lo, n))
  {
    hide Vacant, NoRun, CountSet, TakeOnes, TakeRun, KernelSlot, PageSeq, NewTables, Grew, RunTaken, SameDepths;
    hide UserPages;
    VacantUser(s0, root, lo, n);
    SameNewTables(s0, s1, root, PageSeq(lo, n));
    TakeRunCount(s0.bits, n);
    RunTakenAll(s1, s, root, lo, n, lost);
    if lost == {} { SameGrew(s0, s1, s, root, PageSeq(lo, n)); }
  }

  lemma FilledBounds(mem: Memory, phys: nat, seg: Segment)
    requires Filled(mem, phys, seg) && phys % PAGE == 0
    ensures phys / PAGE + SegPages(seg) <= |mem|
  {
    hide SegPages;
  }

  lemma ImageLoaded(s0: State, s: State, mem1: Memory, root: nat, seg: Segment, f: nat, m: map<nat, Word>)
    requires Extended(s0, s, root, m, {}) && s0.ker < |s0.mem| && Vacant(s0, root, SegBase(seg) / PAGE, SegPages(seg))
    requires RunMapped(m, SegBase(seg) / PAGE, f, SegPages(seg), SegFlags(seg), {})
    requires |mem1| == |s.mem| && f + SegPages(seg) <= |mem1| <= MAX_FRAMES && Filled(mem1, f * PAGE, seg)
    requires forall g | f <= g < f + SegPages(seg) :: s.mem[g] == mem1[g]
    ensures Image(s.mem, root, seg)
  {
    hide Extended, RunMapped, Vacant, Filled;
    forall a | seg.vaddr <= a < seg.vaddr + seg.memSz
      ensures UserByte(s.mem, root, a) == Some(SegByte(seg, a)) && LeafIs(s.mem, root, a, SegFlags(seg))
    {
      ImageByte(s0, s, mem1, root, seg, f, m, a);
    }
  }

  lemma ImageByte(s0: State, s: State, mem1: Memory, root: nat, seg: Segment, f: nat, m: map<nat, Word>, a: nat)
    requires Extended(s0, s, root, m, {}) && s0.ker < |s0.mem| && Vacant(s0, root, SegBase(seg) / PAGE, SegPages(seg))
    requires RunMapped(m, SegBase(seg) / PAGE, f, SegPages(seg), SegFlags(seg), {})
    requires |mem1| == |s.mem| && f + SegPages(seg) <= |mem1| <= MAX_FRAMES && Filled(mem1, f * PAGE, seg)
    requires forall g | f <= g < f + SegPages(seg) :: s.mem[g] == mem1[g]
    requires seg.vaddr <= a < seg.vaddr + seg.memSz
    ensures UserByte(s.mem, root, a) == Some(SegByte(seg, a)) && LeafIs(s.mem, root, a, SegFlags(seg))
  {
    hide Extended, RunMapped, Vacant, Filled, Translate, Mmio, Frame, Entry, WriteXorExecute, LeafFlags, OwnLeaf;
    hide SegFlags, SegBase, SegPages, SegByte;
    SegCovers(seg, a);
    var k := a / PAGE - SegBase(seg) / PAGE;
    RunTranslate(s0, s, root, SegBase(seg) / PAGE, f, SegPages(seg), SegFlags(seg), m, a);
    SegFlagsOk(seg);
    LeafEntry(f + k, SegFlags(seg));
    assert f + k < |mem1| && mem1[f + k][a % PAGE] == SegByte(seg, a) by {
      RunAddress(f, SegBase(seg), a);
      FilledByte(mem1, f, seg, a, k);
    }
    LeafRead(s.mem, root, a, f + k, SegFlags(seg));
  }

  lemma LeafRead(mem: Memory, root: nat, a: nat, f: nat, flags: nat)
    requires f < |mem| && Entry(f, flags) < U64 && Translate(mem, root, a) == Some(Entry(f, flags))
    requires OwnLeaf(Entry(f, flags)) && Frame(Entry(f, flags)) == f
    ensures UserByte(mem, root, a) == Some(mem[f][a % PAGE]) && LeafIs(mem, root, a, flags)
  {
    hide Translate, Entry, Frame, OwnLeaf;
  }

  lemma FilledByte(mem: Memory, f: nat, seg: Segment, a: nat, k: nat)
    requires Filled(mem, f * PAGE, seg) && SegBase(seg) <= a < SegBase(seg) + SegPages(seg) * PAGE && seg.vaddr <= a
    requires (f * PAGE + (a - SegBase(seg))) / PAGE == f + k && (f * PAGE + (a - SegBase(seg))) % PAGE == a % PAGE
    ensures f + k < |mem| && mem[f + k][a % PAGE] == SegByte(seg, a)
  {
    hide SegBase, SegPages, SegByte;
    assert SegContent(seg, a) == SegByte(seg, a);
  }

  // The translation of an address of a fully mapped run.
  lemma RunTranslate(s0: State, s: State, root: nat, lo: nat, f: nat, n: nat, flags: nat, m: map<nat, Word>, a: nat)
    requires Extended(s0, s, root, m, {}) && s0.ker < |s0.mem| && Vacant(s0, root, lo, n)
    requires RunMapped(m, lo, f, n, flags, {}) && lo <= a / PAGE < lo + n
    ensures Entry(f + (a / PAGE - lo), flags) < U64
    ensures Translate(s.mem, root, a) == Some(Entry(f + (a / PAGE - lo), flags))
  {
    hide Inv, KernelSlot, WordAt, Translate, Entry, OwnLeaf, Untouched;
    UserRange(s0, a);
    assert m[a / PAGE] == Entry(f + (a / PAGE - lo), flags);
  }

  lemma RunAddress(f: nat, base: nat, a: nat)
    requires base / PAGE * PAGE == base && base <= a
    ensures (f * PAGE + (a - base)) / PAGE == f + (a / PAGE - base / PAGE) && (f * PAGE + (a - base)) % PAGE == a % PAGE
  {
  }

  // ---------------------------------------------------------------- the user stack and argv

  // n consecutive bytes as the user program sees them.
  function UserBytes(mem: Memory, root: nat, v: nat, n: nat): (r: Option<seq<Byte>>)
    ensures r.Some? ==> |r.value| == n
  {
    if n == 0 then Some([])
    else
      match (UserBytes(mem, root, v, n - 1), UserByte(mem, root, v + n - 1))
      case (Some(s), Some(b)) => Some(s + [b])
      case _ => None
  }

  // A 64-bit load by the user program.
  function UserWord(mem: Memory, root: nat, v: nat): Option<Word>
  {
    match UserBytes(mem, root, v, 8)
    case Some(b) => Some(FromBytes(b))
    case None => None
  }

  // The page at v reads as p.
  ghost predicate PageReads(mem: Memory, root: nat, v: nat, p: Page)
  {
    forall a | v <= a < v + PAGE :: UserByte(mem, root, a) == Some(p[a - v])
  }

  lemma PageWord(mem: Memory, root: nat, v: nat, p: Page, i: nat)
    requires PageReads(mem, root, v, p) && i < SLOTS
    ensures UserWord(mem, root, v + 8 * i) == Some(WordAt(p, i))
  {
    hide UserByte, FromBytes;
    PageBytes(mem, root, v, p, 8 * i, 8);
  }

  lemma {:induction false} PageBytes(mem: Memory, root: nat, v: nat, p: Page, o: nat, n: nat)
    requires PageReads(mem, root, v, p) && o + n <= PAGE
    ensures UserBytes(mem, root, v + o, n) == Some(p[o..o + n])
  {
    hide UserByte;
    if n == 0 {
      assert p[o..o] == [];
    } else {
      assert UserByte(mem, root, v + o + n - 1) == Some(p[o + n - 1]);
      PageBytes(mem, root, v, p, o, n - 1);
      assert p[o..o + n] == p[o..o + n - 1] + [p[o + n - 1]];
    }
  }

  lemma PageString(mem: Memory, root: nat, v: nat, p: Page, o: nat, s: seq<Byte>)
    requires PageReads(mem, root, v, p) && StringAt(p, o, s) && CString(s)
    ensures HoldsString(mem, root, v + o, s)
  {
    hide UserByte;
    forall a | v + o <= a < v + o + |s|
      ensures UserByte(mem, root, a) == Some(s[a - (v + o)])
    {
      assert p[o..o + |s|][a - (v + o)] == p[a - v];
    }
  }

  // What the program finds when it follows argv: every argument that fits the zone, in order, then a null.
  ghost predicate ArgvReads(mem: Memory, root: nat, zone: nat, argv: seq<Option<seq<Byte>>>)
    requires |argv| <= ARG_MAX
  {
    var va := zone + ArrayOffset(|argv|);
    (forall i | 0 <= i < |argv| && Fits(argv, i) ::
       UserWord(mem, root, va + 8 * i) == Some(zone + StringOffset(argv, i))
       && HoldsString(mem, root, zone + StringOffset(argv, i), argv[i].value))
    && UserWord(mem, root, va + 8 * |argv|) == Some(0)
  }

  lemma ArgvFromPage(mem: Memory, root: nat, zone: nat, p: Page, argv: seq<Option<seq<Byte>>>)
    requires 0 < |argv| <= ARG_MAX && PageReads(mem, root, zone, p) && zone + PAGE <= USER_END
    requires forall i | 0 <= i < |argv| && argv[i].Some? :: CString(argv[i].value)
    requires forall i | 0 <= i < |argv| && Fits(argv, i) ::
               StringAt(p, StringOffset(argv, i), argv[i].value)
               && WordAt(p, ArrayOffset(|argv|) / 8 + i) == zone + StringOffset(argv, i)
    requires WordAt(p, ArrayOffset(|argv|) / 8 + |argv|) == 0
    ensures ArgvReads(mem, root, zone, argv)
  {
    hide WordAt, PageReads, UserWord, HoldsString, StringAt;
    var k := ArrayOffset(|argv|) / 8;
    assert 8 * k == ArrayOffset(|argv|);
    forall i | 0 <= i < |argv| && Fits(argv, i)
      ensures UserWord(mem, root, zone + ArrayOffset(|argv|) + 8 * i) == Some(zone + StringOffset(argv, i))
      ensures HoldsString(mem, root, zone + StringOffset(argv, i), argv[i].value)
    {
      PageWord(mem, root, zone, p, k + i);
      assert zone + 8 * (k + i) == zone + ArrayOffset(|argv|) + 8 * i;
      PageString(mem, root, zone, p, StringOffset(argv, i), argv[i].value);
    }
    PageWord(mem, root, zone, p, k + |argv|);
    assert zone + 8 * (k + |argv|) == zone + ArrayOffset(|argv|) + 8 * |argv|;
  }

  // The argv round trip for every vector SYS_EXEC admits: nothing is dropped.
  lemma AdmittedArgvComplete(argv: seq<Option<seq<Byte>>>)
    requires 0 < |argv| <= ARG_MAX
    requires forall j | 0 <= j < |argv| :: argv[j].Some? && |argv[j].value| < ARG_BUFFER
    ensures forall i | 0 <= i < |argv| :: Fits(argv, i)
  {
    forall i | 0 <= i < |argv|
      ensures Fits(argv, i)
    {
      AdmittedFits(argv, i);
    }
  }

  // An argument vector as SYS_EXEC passes it on.
  ghost predicate AdmittedArgv(argv: seq<Option<seq<Byte>>>)
  {
    0 < |argv| <= ARG_MAX
    && forall j | 0 <= j < |argv| :: argv[j].Some? && |argv[j].value| < ARG_BUFFER && CString(argv[j].value)
  }

  // main(argc, argv) in ring 3 finds exactly these strings: argc of them, in order, then a null pointer.
  ghost predicate FindsArgv(mem: Memory, root: nat, argc: nat, va: nat, argv: seq<Option<seq<Byte>>>)
  {
    argc == |argv| && UserWord(mem, root, va + 8 * argc) == Some(0) && MayRead(mem, root, va, va + 8 * argc + 8)
    && forall i | 0 <= i < argc :: argv[i].Some? && PointsTo(mem, root, va + 8 * i, argv[i].value)
  }

  ghost predicate PointsTo(mem: Memory, root: nat, v: nat, s: seq<Byte>)
  {
    var q := UserWord(mem, root, v);
    q.Some? && HoldsString(mem, root, q.value, s) && MayRead(mem, root, q.value, q.value + |s| + 1)
  }

  lemma AdmittedFound(mem: Memory, root: nat, zone: nat, argv: seq<Option<seq<Byte>>>)
    requires AdmittedArgv(argv) && ArgvReads(mem, root, zone, argv) && DataMemory(mem, root, zone, zone + PAGE)
    ensures FindsArgv(mem, root, |argv|, zone + ArrayOffset(|argv|), argv)
  {
    hide UserWord, HoldsString, CString, Ring3Reads, Ring3Writes, Ring3Fetches;
    AdmittedArgvComplete(argv);
    forall i | 0 <= i < |argv|
      ensures StringOffset(argv, i) + |argv[i].value| + 1 <= PAGE
    {
      NeedMonotone(argv, i + 1, |argv|);
    }
  }

  // Stack frames, mapping and argv block of proc_enter_user. 'argv' is already cut to ARG_MAX entries.
  method BuildStack(vm: AddressSpaceTable, pml4: nat, base: nat, argv: seq<Option<seq<Byte>>>, junk: seq<Word>)
    returns (ok: bool, ghost f: nat, ghost m: map<nat, Word>, ghost lost: set<nat>)
    requires vm.Valid() && vm.IsSpace(pml4) && base % PAGE == 0 && Vacant(vm.S(), pml4 / PAGE, base / PAGE, STACK_PAGES)
    requires |argv| <= ARG_MAX == |junk| && forall i | 0 <= i < |argv| && argv[i].Some? :: CString(argv[i].value)
    modifies vm, vm.pmm, vm.pmm.bitmap
    ensures vm.Valid() && vm.IsSpace(pml4) && Extended(old(vm.S()), vm.S(), pml4 / PAGE, m, lost)
    ensures !ok ==> vm.S() == old(vm.S()) && m == map[] && lost == {}
    ensures ok ==> RunMapped(m, base / PAGE, f, STACK_PAGES, DATA_FLAGS, lost) && f + STACK_PAGES <= FRAME_LIMIT
    ensures ok && lost == {} && argv != [] ==> ArgvReads(vm.mem, pml4 / PAGE, base + (STACK_PAGES - 1) * PAGE, argv)
    ensures ok && lost == {} ==> DataMemory(vm.mem, pml4 / PAGE, base, base + STACK_PAGES * PAGE)
    ensures ok ==> FramesTaken(old(vm.S()), vm.S(), pml4 / PAGE, base / PAGE, STACK_PAGES, lost)
    ensures ok && lost == {} ==> PagesGrown(old(vm.S()), vm.S(), pml4 / PAGE, base / PAGE, STACK_PAGES)
    ensures !ok <==> NoRun(old(vm.S()).bits, STACK_PAGES)
  {
    hide NoRun, Inv, KernelSlot, WordAt, Extended, RunMapped, Translate, Vacant, LeafFlags, Mmio, ArgvReads;
    hide FramesTaken, PagesGrown, RunTaken, SameDepths, TakeRun, DataMemory;
    ghost var s0, root := vm.S(), pml4 / PAGE;
    f, m, lost := 0, map[], {};
    ExtendedReflexive(s0, root);
    var phys := AllocRun(vm, pml4, STACK_PAGES);
    if phys == 0 { return false, 0, map[], {}; }
    ExtendedFacts(s0, vm.S(), root, map[], Run(phys / PAGE, STACK_PAGES));
    FlagConstants();
    f := phys / PAGE;
    ghost var s1 := vm.S();
    FreeFramesWritten(s0, s1, root);
    m, lost := MapRun(vm, pml4, base, phys / PAGE, STACK_PAGES, DATA_FLAGS, s0);
    RunFrames(s0, s1, vm.S(), root, base / PAGE, STACK_PAGES, lost);
    ok := true;
    ghost var s2 := vm.S();
    ExtendedFacts(s0, s2, root, m, lost);
    SameDepthsNone(s2, root);
    if argv != [] { BuildArgv(vm, pml4, base, phys / PAGE, argv, junk, s0, m, lost); }
    SameFrames(s0, s2, vm.S(), root, base / PAGE, STACK_PAGES, lost);
    if lost == {} { StackRights(s0, vm.S(), root, base, f, m); }
  }

  lemma StackRights(s0: State, s: State, root: nat, base: nat, f: nat, m: map<nat, Word>)
    requires Extended(s0, s, root, m, {}) && base % PAGE == 0 && f + STACK_PAGES <= FRAME_LIMIT
    requires RunMapped(m, base / PAGE, f, STACK_PAGES, DATA_FLAGS, {})
    ensures DataMemory(s.mem, root, base, base + STACK_PAGES * PAGE)
  {
    hide Extended, DataMemory, DataLeaf, OwnLeaf, Entry, Frame, LeafFlags, Mmio;
    var lo := base / PAGE;
    forall p | lo <= p < lo + STACK_PAGES
      ensures p in m && DataLeaf(m[p])
    {
      HeapPage(f + (p - lo));
    }
    DataRights(s0, s, root, m, {}, lo, STACK_PAGES);
  }

  lemma SameFrames(s0: State, s: State, s': State, root: nat, lo: nat, n: nat, lost: set<nat>)
    requires FramesTaken(s0, s, root, lo, n, lost) && s'.bits == s.bits && s.ker < |s.mem| && SameDepths(s, s', root)
    requires s0.ker < |s0.mem| && forall i | 0 <= i < SLOTS :: KernelSlot(s, i) == KernelSlot(s0, i)
    ensures FramesTaken(s0, s', root, lo, n, lost)
    ensures PagesGrown(s0, s, root, lo, n) ==> PagesGrown(s0, s', root, lo, n)
  {
    hide PageDepth, MaxCommon, NewTables, KernelSlot;
    if PagesGrown(s0, s, root, lo, n) {
      forall q: nat | UserAddress(s0, q * PAGE)
        ensures PageDepth(s'.mem, root, q) == Max(PageDepth(s0.mem, root, q), MaxCommon(PageSeq(lo, n), q))
      {
        assert UserAddress(s, q * PAGE);
      }
    }
  }

  // The argv block, written through the physical address of the top stack page.
  method BuildArgv(vm: AddressSpaceTable, pml4: nat, base: nat, f: nat, argv: seq<Option<seq<Byte>>>, junk: seq<Word>,
        ghost s0: State, ghost m: map<nat, Word>, ghost lost: set<nat>)
    requires vm.Valid() && vm.IsSpace(pml4) && Extended(s0, vm.S(), pml4 / PAGE, m, lost)
    requires base % PAGE == 0 && s0.ker < |s0.mem| && Vacant(s0, pml4 / PAGE, base / PAGE, STACK_PAGES)
    requires f + STACK_PAGES <= |vm.mem|
    requires RunMapped(m, base / PAGE, f, STACK_PAGES, DATA_FLAGS, lost)
    requires 0 < |argv| <= ARG_MAX == |junk| && forall i | 0 <= i < |argv| && argv[i].Some? :: CString(argv[i].value)
    modifies vm`mem
    ensures vm.Valid() && vm.IsSpace(pml4) && Extended(s0, vm.S(), pml4 / PAGE, m, lost)
    ensures vm.S().bits == old(vm.S()).bits
    ensures old(vm.S()).ker < |old(vm.S()).mem| && SameDepths(old(vm.S()), vm.S(), pml4 / PAGE)
    ensures lost == {} ==> ArgvReads(vm.mem, pml4 / PAGE, base + (STACK_PAGES - 1) * PAGE, argv)
  {
    hide Inv, KernelSlot, WordAt, Extended, RunMapped, Translate, Vacant, LeafFlags, Mmio, ArgvReads, SameDepths;
    ghost var s1, root := vm.S(), pml4 / PAGE;
    var g, zone := f + STACK_PAGES - 1, base + (STACK_PAGES - 1) * PAGE;
    ExtendedFacts(s0, s1, root, m, lost);
    VacantSlots(s0, root, base / PAGE, STACK_PAGES);
    FlagConstants();
    var page := Marshal(vm.mem[g], zone, argv, junk);
    RunFrame(s0, s1, root, base / PAGE, f, STACK_PAGES, DATA_FLAGS, m, lost, g);
    vm.mem := vm.mem[g := page];
    WrittenDepths(s1, vm.S(), root);
    ExtendedWrite(s0, s1, vm.mem, root, m, lost);
    ExtendedFacts(s0, vm.S(), root, m, lost);
    if lost == {} {
      ZoneReads(s0, vm.S(), root, base, f, m);
      ArgvFromPage(vm.mem, root, zone, page, argv);
    }
  }

  lemma VacantSlots(s: State, root: nat, lo: nat, n: nat)
    requires s.ker < |s.mem| && Vacant(s, root, lo, n)
    ensures UserSlotsFree(s) && (lo + n) * PAGE <= DEVIO_BASE
  {
  }

  // A frame of the run is no table, mapped or not.
  lemma RunFrame(s0: State, s: State, root: nat, lo: nat, f: nat, n: nat, flags: nat, m: map<nat, Word>,
          lost: set<nat>, g: nat)
    requires Extended(s0, s, root, m, lost) && RunMapped(m, lo, f, n, flags, lost) && f <= g < f + n
    requires g < |s.mem| <= MAX_FRAMES
    requires LeafFlags(flags) && !Mmio(flags)
    ensures g < |s0.bits| && !s0.bits[g] && !IsTable(s.tag[g])
  {
    hide Extended, Mmio, LeafFlags, Frame, Entry;
    if g !in lost {
      var p := lo + (g - f);
      LeafEntry(g, flags);
      assert p in m && m[p] == Entry(g, flags);
      ExtendedLeaf(s0, s, root, m, lost, p);
    } else {
      ExtendedLoose(s0, s, root, m, lost, g);
    }
  }

  lemma ZoneReads(s0: State, s: State, root: nat, base: nat, f: nat, m: map<nat, Word>)
    requires Extended(s0, s, root, m, {}) && s0.ker < |s0.mem| && base % PAGE == 0
    requires Vacant(s0, root, base / PAGE, STACK_PAGES)
    requires RunMapped(m, base / PAGE, f, STACK_PAGES, DATA_FLAGS, {}) && f + STACK_PAGES <= |s.mem| <= MAX_FRAMES
    ensures PageReads(s.mem, root, base + (STACK_PAGES - 1) * PAGE, s.mem[f + STACK_PAGES - 1])
  {
    hide Extended, RunMapped, Vacant, Translate, Entry, Frame, LeafFlags, Mmio;
    var v := base + (STACK_PAGES - 1) * PAGE;
    forall a | v <= a < v + PAGE
      ensures UserByte(s.mem, root, a) == Some(s.mem[f + STACK_PAGES - 1][a - v])
    {
      RunTranslate(s0, s, root, base / PAGE, f, STACK_PAGES, DATA_FLAGS, m, a);
      FlagConstants();
      LeafEntry(f + STACK_PAGES - 1, DATA_FLAGS);
    }
  }

  // ---------------------------------------------------------------- the whole process

  function Spans(segs: seq<Segment>): (r: seq<Span>)
    ensures |r| == |segs| && forall i | 0 <= i < |segs| :: r[i] == SegSpan(segs[i])
  {
    seq(|segs|, i requires 0 <= i < |segs| => SegSpan(segs[i]))
  }

  function TotalPages(segs: seq<Segment>): nat
  {
    if segs == [] then 0 else TotalPages(segs[..|segs| - 1]) + SegPages(segs[|segs| - 1])
  }

  function StackBase(segs: seq<Segment>): nat { RoundUp(Top(Spans(segs))) + GUARD }

  function UserRegions(segs: seq<Segment>): seq<Span> { Spans(segs) + [Span(StackBase(segs), STACK_PAGES * PAGE)] }

  // Segments the gABI allows and the loader can place: file part within the memory part, no shared page,
  // everything and the stack below the device window.
  ghost predicate Loadable(segs: seq<Segment>)
  {
    (forall i | 0 <= i < |segs| :: |segs[i].data| <= segs[i].memSz)
    && (forall i, j | 0 <= i < j < |segs| ::
          SegBase(segs[i]) + SegPages(segs[i]) * PAGE <= SegBase(segs[j])
          || SegBase(segs[j]) + SegPages(segs[j]) * PAGE <= SegBase(segs[i]))
    && StackBase(segs) + STACK_PAGES * PAGE <= DEVIO_BASE
  }

  // After k segments: exactly their pages are mapped (if every mapping succeeded), and they read as they must.
  ghost predicate Loaded(c: State, s: State, root: nat, segs: seq<Segment>, k: nat, m: map<nat, Word>, lost: set<nat>)
    requires k <= |segs|
  {
    Extended(c, s, root, m, lost) && Fresh(c, root)
    && (forall i | 0 <= i < k :: SegBase(segs[i]) >= USER_BASE)
    && (forall p | p in m :: Accepts(Spans(segs[..k]), p * PAGE))
    && (lost == {} ==> Complete(m, Spans(segs[..k])) && forall i | 0 <= i < k :: Image(s.mem, root, segs[i]))
  }

  // An address space with no user mapping yet.
  ghost predicate Fresh(c: State, root: nat)
  {
    c.ker < |c.mem| && UserSlotsFree(c) && NoTables(c, root)
    && forall v: nat | USER_BASE <= v < USER_END :: Translate(c.mem, root, v) == None
  }

  ghost predicate Complete(m: map<nat, Word>, spans: seq<Span>)
  {
    forall p: nat :: (p in m <==> Accepts(spans, p * PAGE)) && (p in m ==> OwnLeaf(m[p]) && WriteXorExecute(m[p]))
  }

  lemma SpansBounds(segs: seq<Segment>, i: nat)
    requires Loadable(segs) && i < |segs|
    ensures SegBase(segs[i]) % PAGE == 0 && SegBase(segs[i]) + SegPages(segs[i]) * PAGE <= StackBase(segs)
    ensures StackBase(segs) % PAGE == 0 && StackBase(segs) + STACK_PAGES * PAGE <= DEVIO_BASE
  {
    hide SegPages;
    TopBounds(Spans(segs));
    assert RoundUp(Top(Spans(segs))) >= Top(Spans(segs));
    assert Spans(segs)[i] == SegSpan(segs[i]);
  }

  lemma VacantSegment(c: State, s: State, root: nat, segs: seq<Segment>, k: nat, m: map<nat, Word>, lost: set<nat>)
    requires Loadable(segs) && k < |segs| && Loaded(c, s, root, segs, k, m, lost) && SegBase(segs[k]) >= USER_BASE
    ensures s.ker < |s.mem| && Vacant(s, root, SegBase(segs[k]) / PAGE, SegPages(segs[k]))
  {
    hide Extended, Translate, KernelSlot, Image, SegPages, StackBase, SegBase;
    ExtendedFacts(c, s, root, m, lost);
    SpansBounds(segs, k);
    forall p | SegBase(segs[k]) / PAGE <= p < SegBase(segs[k]) / PAGE + SegPages(segs[k])
      ensures Translate(s.mem, root, p * PAGE) == None
    {
      assert !Accepts(Spans(segs[..k]), p * PAGE);
      StillVacant(c, s, root, m, lost, p);
    }
  }

  lemma StillVacant(c: State, s: State, root: nat, m: map<nat, Word>, lost: set<nat>, p: nat)
    requires Extended(c, s, root, m, lost) && Fresh(c, root) && USER_BASE <= p * PAGE < USER_END && p !in m
    ensures Translate(s.mem, root, p * PAGE) == None
  {
    hide Translate, KernelSlot, Inv;
    UserRange(c, p * PAGE);
    AtPage(c, s, root, m, p);
  }

  // Images survive later mappings of other pages.
  lemma ImageKept(s: State, s': State, root: nat, m: map<nat, Word>, lost: set<nat>, seg: Segment)
    requires Extended(s, s', root, m, lost) && s.ker < |s.mem| && UserSlotsFree(s)
    requires USER_BASE <= SegBase(seg) && SegBase(seg) + SegPages(seg) * PAGE <= DEVIO_BASE
    requires forall p | p in m :: !(SegBase(seg) / PAGE <= p < SegBase(seg) / PAGE + SegPages(seg))
    requires Image(s.mem, root, seg)
    ensures Image(s'.mem, root, seg)
  {
    hide Translate, KernelSlot, EntriesOk, ParentsOk, KernelApart, SegBase, SegPages, SegByte, OwnLeaf, Frame, Entry;
    hide SegFlags, MappedBy, WordAt, L4;
    forall a | seg.vaddr <= a < seg.vaddr + seg.memSz
      ensures UserByte(s'.mem, root, a) == Some(SegByte(seg, a)) && LeafIs(s'.mem, root, a, SegFlags(seg))
    {
      SegCovers(seg, a);
      UserRange(s, a);
      HeldFrame(s, root, a);
      assert LeafIs(s.mem, root, a, SegFlags(seg)) && UserByte(s.mem, root, a) == Some(SegByte(seg, a));
      assert Holds(Translate(s.mem, root, a), Frame(Translate(s.mem, root, a).value));
    }
  }

  // The pages of a run, as addresses of a span.
  lemma RunIsSpan(m: map<nat, Word>, base: nat, f: nat, n: nat, flags: nat, lost: set<nat>, spans: seq<Span>, p: nat)
    requires RunMapped(m, base / PAGE, f, n, flags, lost) && base % PAGE == 0
    ensures Accepts(spans + [Span(base, n * PAGE)], p * PAGE)
            <==> Accepts(spans, p * PAGE) || base / PAGE <= p < base / PAGE + n
    ensures p in m ==> base / PAGE <= p < base / PAGE + n
    ensures lost == {} ==> (p in m <==> base / PAGE <= p < base / PAGE + n)
  {
    hide Entry;
    var u := spans + [Span(base, n * PAGE)];
    if Accepts(spans, p * PAGE) {
      var i :| 0 <= i < |spans| && spans[i].base <= p * PAGE < spans[i].base + spans[i].size;
      assert u[i].base <= p * PAGE < u[i].base + u[i].size;
    }
    if base / PAGE <= p < base / PAGE + n { assert u[|spans|].base <= p * PAGE < u[|spans|].base + u[|spans|].size; }
  }

  lemma RunLeaves(m: map<nat, Word>, lo: nat, f: nat, n: nat, flags: nat, lost: set<nat>)
    requires RunMapped(m, lo, f, n, flags, lost) && LeafFlags(flags) && !Mmio(flags) && WriteXorExecute(flags)
    requires f + n <= FRAME_LIMIT
    ensures forall p | p in m :: OwnLeaf(m[p]) && WriteXorExecute(m[p])
  {
    hide Entry, LeafFlags, Mmio, WriteXorExecute, OwnLeaf;
    forall p | p in m
      ensures OwnLeaf(m[p]) && WriteXorExecute(m[p])
    {
      LeafEntry(f + (p - lo), flags);
    }
  }

  lemma CompleteMore(m: map<nat, Word>, m': map<nat, Word>, base: nat, f: nat, n: nat, flags: nat, spans: seq<Span>)
    requires Complete(m, spans) && RunMapped(m', base / PAGE, f, n, flags, {}) && base % PAGE == 0
    requires forall p | p in m' :: OwnLeaf(m'[p]) && WriteXorExecute(m'[p])
    ensures Complete(m + m', spans + [Span(base, n * PAGE)])
  {
    hide RunMapped, OwnLeaf, WriteXorExecute, Accepts;
    forall p: nat
      ensures p in m + m' <==> Accepts(spans + [Span(base, n * PAGE)], p * PAGE)
      ensures p in m + m' ==> OwnLeaf((m + m')[p]) && WriteXorExecute((m + m')[p])
    {
      RunIsSpan(m', base, f, n, flags, {}, spans, p);
    }
  }

  // One more segment loaded.
  lemma LoadedMore(c: State, s: State, s': State, root: nat, segs: seq<Segment>, k: nat, m: map<nat, Word>,
        lost: set<nat>, f: nat, m': map<nat, Word>, lost': set<nat>)
    requires Loadable(segs) && k < |segs| && Loaded(c, s, root, segs, k, m, lost) && SegBase(segs[k]) >= USER_BASE
    requires Extended(s, s', root, m', lost') && f + SegPages(segs[k]) <= FRAME_LIMIT
    requires RunMapped(m', SegBase(segs[k]) / PAGE, f, SegPages(segs[k]), SegFlags(segs[k]), lost')
    requires lost' == {} ==> Image(s'.mem, root, segs[k])
    ensures Loaded(c, s', root, segs, k + 1, m + m', lost + lost')
  {
    hide Extended, RunMapped, Image, Fresh, Complete, SegBase, SegPages, SegFlags, Loadable, LeafFlags, Mmio;
    hide WriteXorExecute, OwnLeaf, Accepts, StackBase;
    var seg := segs[k];
    ExtendedTransitive(c, s, s', root, m, lost, m', lost');
    SpansBounds(segs, k);
    SpansMore(segs, k);
    SegFlagsOk(seg);
    RunLeaves(m', SegBase(seg) / PAGE, f, SegPages(seg), SegFlags(seg), lost');
    forall p | p in m + m'
      ensures Accepts(Spans(segs[..k + 1]), p * PAGE)
    {
      RunIsSpan(m', SegBase(seg), f, SegPages(seg), SegFlags(seg), lost', Spans(segs[..k]), p);
    }
    if lost + lost' == {} {
      assert lost == {} && lost' == {};
      CompleteMore(m, m', SegBase(seg), f, SegPages(seg), SegFlags(seg), Spans(segs[..k]));
      forall i | 0 <= i < k + 1
        ensures Image(s'.mem, root, segs[i])
      {
        if i < k { EarlierImage(c, s, s', root, segs, k, i, m, f, m'); }
      }
    }
  }

  lemma SpansMore(segs: seq<Segment>, k: nat)
    requires k < |segs|
    ensures Spans(segs[..k + 1]) == Spans(segs[..k]) + [SegSpan(segs[k])]
  {
  }

  lemma EarlierImage(c: State, s: State, s': State, root: nat, segs: seq<Segment>, k: nat, i: nat, m: map<nat, Word>,
          f: nat, m': map<nat, Word>)
    requires Loadable(segs) && i < k < |segs| && Loaded(c, s, root, segs, k, m, {})
    requires Extended(s, s', root, m', {})
    requires RunMapped(m', SegBase(segs[k]) / PAGE, f, SegPages(segs[k]), SegFlags(segs[k]), {})
    ensures Image(s'.mem, root, segs[i])
  {
    hide Extended, Image, SegPages, SegBase, StackBase, Complete, Accepts, Entry, KernelSlot, Translate;
    ExtendedFacts(c, s, root, m, {});
    SpansBounds(segs, i);
    SpansBounds(segs, k);
    ImageKept(s, s', root, m', {}, segs[i]);
  }

  // ---------------------------------------------------------------- the frames it takes, from the bitmap alone

  function SegPageSeq(seg: Segment): seq<nat> { PageSeq(SegBase(seg) / PAGE, SegPages(seg)) }

  // The pages of the first k segments, in the order in which they are mapped.
  function PagesOf(segs: seq<Segment>, k: nat): seq<nat>
    requires k <= |segs|
  {
    if k == 0 then [] else PagesOf(segs, k - 1) + SegPageSeq(segs[k - 1])
  }

  // The tables segment k needs after those before it.
  function SegTables(segs: seq<Segment>, k: nat): nat
    requires k < |segs|
  {
    FreshTables(PagesOf(segs, k), SegPageSeq(segs[k]))
  }

  // The bitmap after k segments: for each a run for its pages, then its tables.
  ghost function SegmentBits(b: seq<bool>, segs: seq<Segment>, k: nat): (r: seq<bool>)
    requires k <= |segs|
    ensures |r| == |b|
  {
    if k == 0 then b else TakeOnes(TakeRun(SegmentBits(b, segs, k - 1), SegPages(segs[k - 1])), SegTables(segs, k - 1))
  }

  // The frames k segments need.
  function SegmentsNeed(segs: seq<Segment>, k: nat): nat
    requires k <= |segs|
  {
    if k == 0 then 0 else SegmentsNeed(segs, k - 1) + SegPages(segs[k - 1]) + SegTables(segs, k - 1)
  }

  ghost predicate SegmentsTaken(c: State, s: State, root: nat, segs: seq<Segment>, k: nat, lost: set<nat>)
    requires k <= |segs|
  {
    c.ker < |c.mem| && s.bits == SegmentBits(c.bits, segs, k)
    && (lost == {} <==> CountSet(c.bits) + SegmentsNeed(segs, k) <= |c.bits|)
    && if lost == {}
       then Grew(c, s, root, PagesOf(segs, k)) && CountSet(s.bits) == CountSet(c.bits) + SegmentsNeed(segs, k)
       else NoRun(s.bits, 1)
  }

  // The first k segments are loaded, one after the other.
  ghost predicate SegmentsPassed(b: seq<bool>, segs: seq<Segment>, k: nat)
    requires k <= |segs|
  {
    forall j | 0 <= j < k :: SegmentCode(SegmentBits(b, segs, j), segs[j]) == 0
  }

  lemma SegmentsNone(c: State, root: nat, segs: seq<Segment>)
    requires Fresh(c, root)
    ensures SegmentsTaken(c, c, root, segs, 0, {}) && SegmentsPassed(c.bits, segs, 0)
  {
    hide Grew;
    GrewNone(c, root);
    CountAtMost(c.bits);
  }

  lemma PassedMore(c: State, s: State, root: nat, segs: seq<Segment>, k: nat, lost: set<nat>)
    requires k < |segs| && SegmentsTaken(c, s, root, segs, k, lost) && SegmentsPassed(c.bits, segs, k)
    requires SegmentCode(s.bits, segs[k]) == 0
    ensures SegmentsPassed(c.bits, segs, k + 1)
  {
    hide Grew, SegmentBits, SegmentsNeed, CountSet, NoRun, SegmentCode;
  }

  // One more segment.
  lemma SegmentsMore(c: State, s: State, s': State, root: nat, segs: seq<Segment>, k: nat, lost: set<nat>,
          lost': set<nat>)
    requires k < |segs| && SegmentsTaken(c, s, root, segs, k, lost) && SegmentCode(s.bits, segs[k]) == 0
    requires c.ker < |c.mem| && NoTables(c, root) && s.ker < |s.mem| && |s.bits| == |c.bits|
    requires forall i | 0 <= i < SLOTS :: KernelSlot(s, i) == KernelSlot(c, i)
    requires Vacant(s, root, SegBase(segs[k]) / PAGE, SegPages(segs[k]))
    requires FramesTaken(s, s', root, SegBase(segs[k]) / PAGE, SegPages(segs[k]), lost')
    requires lost' == {} ==> PagesGrown(s, s', root, SegBase(segs[k]) / PAGE, SegPages(segs[k]))
    ensures SegmentsTaken(c, s', root, segs, k + 1, lost + lost')
  {
    hide Grew, SegBase, SegPages, Vacant, NoTables, KernelSlot, CountSet, TakeOnes, TakeRun, NewTables, FreshTables;
    hide PageSeq, NoRun, UserPages;
    var ps, qs := PagesOf(segs, k), SegPageSeq(segs[k]);
    SomePages(segs[k]);
    if lost != {} { FullNoRun(s.bits, SegPages(segs[k])); }
    VacantUser(s, root, SegBase(segs[k]) / PAGE, SegPages(segs[k]));
    SameUserPages(s, c, qs);
    FreshTablesAre(c, s, root, ps, qs);
    if lost' == {} { GrewThen(c, s, s', root, ps, qs); }
  }

  lemma SameUserPages(s: State, c: State, qs: seq<nat>)
    requires c.ker < |c.mem| && s.ker < |s.mem| && UserPages(s, qs)
    requires forall i | 0 <= i < SLOTS :: KernelSlot(s, i) == KernelSlot(c, i)
    ensures UserPages(c, qs)
  {
    hide KernelSlot, L4;
  }

  // The segment loop of proc_create_user_regions: 'k' segments are loaded when it ends.
  method LoadAll(vm: AddressSpaceTable, pml4: nat, segs: seq<Segment>, ghost c: State)
    returns (code: int, ghost m: map<nat, Word>, ghost lost: set<nat>, ghost k: nat)
    requires vm.Valid() && vm.IsSpace(pml4) && Loadable(segs) && vm.S() == c && Fresh(c, pml4 / PAGE)
    modifies vm, vm.pmm, vm.pmm.bitmap
    ensures vm.Valid() && vm.IsSpace(pml4) && k <= |segs| && Loaded(c, vm.S(), pml4 / PAGE, segs, k, m, lost)
    ensures code == (if k == |segs| then 0 else SegmentCode(vm.S().bits, segs[k])) && (code == 0 <==> k == |segs|)
    ensures SegmentsTaken(c, vm.S(), pml4 / PAGE, segs, k, lost) && SegmentsPassed(c.bits, segs, k)
  {
    hide SegmentsTaken, SegmentsPassed, Inv, KernelSlot, WordAt, Extended, RunMapped, Image, Fresh, Translate, Complete;
    hide SegPages, SegBase, SegFlags, SegmentCode, Loadable, StackBase;
    ghost var root := pml4 / PAGE;
    m, lost, k := map[], {}, 0;
    LoadedNone(c, root, segs);
    SegmentsNone(c, root, segs);
    for i := 0 to |segs|
      invariant k == i && vm.Valid() && vm.IsSpace(pml4) && Loaded(c, vm.S(), root, segs, i, m, lost)
      invariant SegmentsTaken(c, vm.S(), root, segs, i, lost) && SegmentsPassed(c.bits, segs, i)
    {
      ghost var m', lost';
      code, m', lost' := LoadNext(vm, pml4, segs, i, c, m, lost);
      if code != 0 { return; }
      m, lost, k := m', lost', i + 1;
    }
    assert segs[..|segs|] == segs;
    code := 0;
  }

  // One turn of that loop.
  method LoadNext(vm: AddressSpaceTable, pml4: nat, segs: seq<Segment>, i: nat, ghost c: State,
        ghost m: map<nat, Word>, ghost lost: set<nat>)
    returns (code: int, ghost m': map<nat, Word>, ghost lost': set<nat>)
    requires vm.Valid() && vm.IsSpace(pml4) && Loadable(segs) && i < |segs|
    requires Loaded(c, vm.S(), pml4 / PAGE, segs, i, m, lost)
    requires SegmentsTaken(c, vm.S(), pml4 / PAGE, segs, i, lost) && SegmentsPassed(c.bits, segs, i)
    modifies vm, vm.pmm, vm.pmm.bitmap
    ensures vm.Valid() && vm.IsSpace(pml4) && code == SegmentCode(old(vm.S()).bits, segs[i])
    ensures code != 0 ==> vm.S() == old(vm.S())
    ensures code == 0 ==> Loaded(c, vm.S(), pml4 / PAGE, segs, i + 1, m', lost')
    ensures code == 0 ==>
              SegmentsTaken(c, vm.S(), pml4 / PAGE, segs, i + 1, lost') && SegmentsPassed(c.bits, segs, i + 1)
  {
    hide NoRun, Inv, KernelSlot, WordAt, Extended, RunMapped, Image, Fresh, Translate, Complete, SegPages, SegBase;
    hide SegFlags, Loadable, StackBase;
    hide SegmentsTaken, SegmentsPassed, FramesTaken, PagesGrown, Vacant;
    ghost var s, root := vm.S(), pml4 / PAGE;
    ExtendedFacts(c, s, root, m, lost);
    if SegBase(segs[i]) >= USER_BASE { VacantSegment(c, s, root, segs, i, m, lost); }
    assert |segs[i].data| <= segs[i].memSz by { LoadableData(segs, i); }
    ghost var f, m1, lost1;
    code, f, m1, lost1 := LoadSegment(vm, pml4, segs[i]);
    ExtendedFacts(s, vm.S(), root, m1, lost1);
    m', lost' := m + m1, lost + lost1;
    assert lost1 == {} ==> lost' == lost;
    if code == 0 {
      LoadedMore(c, s, vm.S(), root, segs, i, m, lost, f, m1, lost1);
      LoadedSlots(c, s, root, segs, i, m, lost);
      PassedMore(c, s, root, segs, i, lost);
      SegmentsMore(c, s, vm.S(), root, segs, i, lost, lost1);
    }
  }

  lemma LoadedSlots(c: State, s: State, root: nat, segs: seq<Segment>, k: nat, m: map<nat, Word>, lost: set<nat>)
    requires k <= |segs| && Loaded(c, s, root, segs, k, m, lost)
    ensures c.ker < |c.mem| && NoTables(c, root) && s.ker < |s.mem| && |s.bits| == |c.bits|
    ensures forall i | 0 <= i < SLOTS :: KernelSlot(s, i) == KernelSlot(c, i)
  {
    hide Extended, NoTables, KernelSlot, Translate, Image, Complete, Accepts;
    ExtendedFacts(c, s, root, m, lost);
  }

  lemma LoadableData(segs: seq<Segment>, i: nat)
    requires Loadable(segs) && i < |segs|
    ensures |segs[i].data| <= segs[i].memSz
  {
  }

  lemma LoadedNone(c: State, root: nat, segs: seq<Segment>)
    requires Inv(c) && root < |c.tag| && c.tag[root].Root? && Fresh(c, root)
    ensures Loaded(c, c, root, segs, 0, map[], {})
  {
    hide Inv, Fresh;
    ExtendedReflexive(c, root);
  }

  lemma {:induction false} TotalMore(segs: seq<Segment>, i: nat)
    requires i < |segs|
    ensures TotalPages(segs[..i + 1]) == TotalPages(segs[..i]) + SegPages(segs[i])
    ensures TotalPages(segs[..i + 1]) <= TotalPages(segs)
    decreases |segs| - i
  {
    hide SegPages;
    assert segs[..i + 1][..i] == segs[..i];
    if i + 1 < |segs| { TotalMore(segs, i + 1); } else { assert segs[..i + 1] == segs; }
  }

  // The last stage: once the stack is mapped too, the process table entry and the page tables agree.
  lemma LayoutBuilt(c: State, s: State, s': State, root: nat, segs: seq<Segment>, m: map<nat, Word>, f: nat,
          m': map<nat, Word>)
    requires Loadable(segs) && 0 < |segs| <= MAX_SEGMENTS && Loaded(c, s, root, segs, |segs|, m, {})
    requires Extended(s, s', root, m', {}) && RunMapped(m', StackBase(segs) / PAGE, f, STACK_PAGES, DATA_FLAGS, {})
    requires f + STACK_PAGES <= FRAME_LIMIT
    ensures Layout(s', root, UserRegions(segs), -1)
    ensures forall i | 0 <= i < |segs| :: Image(s'.mem, root, segs[i])
  {
    hide Extended, RunMapped, Image, Fresh, Complete, SegBase, SegPages, SegFlags, Loadable, LeafFlags, Mmio;
    hide WriteXorExecute, OwnLeaf, Accepts, StackBase, KernelSlot, Translate, AddressOk;
    var spans := Spans(segs);
    assert segs[..|segs|] == segs;
    ExtendedFacts(c, s, root, m, {});
    ExtendedFacts(s, s', root, m', {});
    var none: set<nat> := {};
    ExtendedTransitive(c, s, s', root, m, none, m', none);
    assert none + none == {};
    FlagConstants();
    assert WriteXorExecute(DATA_FLAGS) by { HeapPage(0); }
    RunLeaves(m', StackBase(segs) / PAGE, f, STACK_PAGES, DATA_FLAGS, {});
    SpansBounds(segs, 0);
    CompleteMore(m, m', StackBase(segs), f, STACK_PAGES, DATA_FLAGS, spans);
    RegionsOk(segs);
    forall v: nat | USER_BASE <= v < USER_END
      ensures AddressOk(s'.mem, root, UserRegions(segs), v)
    {
      AddressBuilt(c, s', root, UserRegions(segs), m + m', v);
    }
    FreshSlots(c, root);
    forall i | 0 <= i < |segs|
      ensures Image(s'.mem, root, segs[i])
    {
      SpansBounds(segs, i);
      StackApart(segs, i, m', f);
      ImageKept(s, s', root, m', {}, segs[i]);
    }
  }

  lemma FreshSlots(c: State, root: nat)
    requires Fresh(c, root)
    ensures UserSlotsFree(c)
  {
  }

  lemma StackApart(segs: seq<Segment>, i: nat, m: map<nat, Word>, f: nat)
    requires Loadable(segs) && i < |segs| && RunMapped(m, StackBase(segs) / PAGE, f, STACK_PAGES, DATA_FLAGS, {})
    ensures forall p | p in m :: !(SegBase(segs[i]) / PAGE <= p < SegBase(segs[i]) / PAGE + SegPages(segs[i]))
    ensures SegBase(segs[i]) + SegPages(segs[i]) * PAGE <= DEVIO_BASE
  {
    hide SegPages, StackBase, SegBase, Entry;
    SpansBounds(segs, i);
  }

  lemma RegionsOk(segs: seq<Segment>)
    requires Loadable(segs) && 0 < |segs| <= MAX_SEGMENTS && forall i | 0 <= i < |segs| :: SegBase(segs[i]) >= USER_BASE
    ensures Regions(UserRegions(segs), -1)
    ensures forall i | 0 <= i < |UserRegions(segs)| ::
              PageAligned(UserRegions(segs)[i].base) && PageAligned(UserRegions(segs)[i].size)
              && UserRegions(segs)[i].base + UserRegions(segs)[i].size <= DEVIO_BASE
  {
    hide SegPages, StackBase, SegBase;
    var u := UserRegions(segs);
    forall i | 0 <= i < |u|
      ensures PageAligned(u[i].base) && PageAligned(u[i].size) && USER_BASE <= u[i].base
      ensures u[i].base + u[i].size <= DEVIO_BASE
    {
      SpansBounds(segs, 0);
      if i < |segs| { SpansBounds(segs, i); }
    }
  }

  lemma AddressBuilt(c: State, s: State, root: nat, spans: seq<Span>, m: map<nat, Word>, v: nat)
    requires Extended(c, s, root, m, {}) && Fresh(c, root) && Complete(m, spans) && USER_BASE <= v < USER_END
    requires forall i | 0 <= i < |spans| ::
               PageAligned(spans[i].base) && PageAligned(spans[i].size) && spans[i].base + spans[i].size <= DEVIO_BASE
    ensures AddressOk(s.mem, root, spans, v)
  {
    hide Inv, KernelSlot, Translate, Mmio, WriteXorExecute, WordAt, Untouched, Accepts, Present;
    UserRange(c, v);
    WholePages(spans, v);
    BelowWindow(spans, v);
  }

  lemma WholePages(spans: seq<Span>, v: nat)
    requires forall i | 0 <= i < |spans| :: PageAligned(spans[i].base) && PageAligned(spans[i].size)
    ensures Accepts(spans, v / PAGE * PAGE) <==> Accepts(spans, v)
  {
    var w := v / PAGE * PAGE;
    if Accepts(spans, v) {
      var i :| 0 <= i < |spans| && spans[i].base <= v < spans[i].base + spans[i].size;
      SpanPage(spans[i], v);
    }
    if Accepts(spans, w) {
      var i :| 0 <= i < |spans| && spans[i].base <= w < spans[i].base + spans[i].size;
      SpanPage(spans[i], v);
    }
  }

  lemma SpanPage(sp: Span, v: nat)
    requires sp.base % PAGE == 0 && sp.size % PAGE == 0
    ensures sp.base <= v < sp.base + sp.size <==> sp.base <= v / PAGE * PAGE < sp.base + sp.size
  {
    var q, r := sp.base / PAGE, sp.size / PAGE;
    assert sp.base == q * PAGE && sp.size == r * PAGE;
  }

  lemma BelowWindow(spans: seq<Span>, v: nat)
    requires forall i | 0 <= i < |spans| :: spans[i].base + spans[i].size <= DEVIO_BASE
    ensures Accepts(spans, v) ==> v < DEVIO_BASE
  {
  }

  // The clone shares the kernel's tables and has none for user addresses.
  lemma ClonedEmpty(s: State, c: State, root: nat)
    requires Cloned(s, c, root)
    ensures c.ker < |c.mem| && NoTables(c, root)
  {
    hide Translate, EntriesOk, ParentsOk, KernelApart, WordAt, Present, L3, L2;
    forall q: nat | UserAddress(c, q * PAGE)
      ensures PageDepth(c.mem, root, q) == 0
    {
      assert KernelSlot(c, L4(q * PAGE)) == KernelSlot(s, L4(q * PAGE));
    }
  }

  lemma ClonedFresh(s: State, c: State, root: nat)
    requires Cloned(s, c, root) && s.ker < |s.mem| && UserSlotsFree(s)
    ensures Fresh(c, root) && Inv(c) && root < |c.tag| && c.tag[root].Root?
  {
    hide Translate, EntriesOk, ParentsOk, KernelApart, WordAt, Present, NoTables;
    ClonedEmpty(s, c, root);
    forall v: nat | USER_BASE <= v < USER_END
      ensures Translate(c.mem, root, v) == None
    {
      UserRange(s, v);
    }
  }

  // ---------------------------------------------------------------- which result, exactly

  // How far a creation got: the state after the clone, the new PML4's frame, and the state in which the
  // deciding allocation was asked for, with 'k' segments loaded.
  datatype Progress = Progress(clone: State, root: nat, at: State, k: nat)

  ghost predicate Guards(slot: bool, kstack: bool, segs: seq<Segment>, bits: seq<bool>)
  {
    0 < |segs| <= MAX_SEGMENTS && slot && kstack && !NoRun(bits, 1)
  }

  // The results before anything is loaded.
  ghost function EarlyCode(slot: bool, kstack: bool, segs: seq<Segment>): int
  {
    if |segs| == 0 || |segs| > MAX_SEGMENTS then -9 else if !slot then -1 else if !kstack then -2 else -3
  }

  // The result once the PML4 exists, from the bitmap after that: segment by segment, then the stack.
  ghost function LateCode(b: seq<bool>, segs: seq<Segment>, k: nat): int
    requires k <= |segs|
    decreases |segs| - k
  {
    if k == |segs| then (if NoRun(SegmentBits(b, segs, k), STACK_PAGES) then -5 else 0)
    else if SegmentCode(SegmentBits(b, segs, k), segs[k]) != 0 then SegmentCode(SegmentBits(b, segs, k), segs[k])
    else LateCode(b, segs, k + 1)
  }

  // The result of proc_create_user_regions, from the bitmap before it.
  ghost function CreationCode(slot: bool, kstack: bool, b: seq<bool>, segs: seq<Segment>): int
  {
    if Guards(slot, kstack, segs, b) then LateCode(TakeOnes(b, 1), segs, 0) else EarlyCode(slot, kstack, segs)
  }

  function AllPages(segs: seq<Segment>): seq<nat>
  {
    PagesOf(segs, |segs|) + PageSeq(StackBase(segs) / PAGE, STACK_PAGES)
  }

  // The process has exactly the tables its pages need.
  ghost predicate HasTables(s: State, root: nat, segs: seq<Segment>)
  {
    s.ker < |s.mem|
    && forall q: nat | UserAddress(s, q * PAGE) :: PageDepth(s.mem, root, q) == MaxCommon(AllPages(segs), q)
  }

  // The tables of the stack, and the frames of the whole process.
  function StackTables(segs: seq<Segment>): nat
  {
    FreshTables(PagesOf(segs, |segs|), PageSeq(StackBase(segs) / PAGE, STACK_PAGES))
  }

  function CreationNeed(segs: seq<Segment>): nat
  {
    1 + SegmentsNeed(segs, |segs|) + STACK_PAGES + StackTables(segs)
  }

  // The bitmap after a creation that succeeds.
  ghost function CreatedBits(b: seq<bool>, segs: seq<Segment>): seq<bool>
  {
    TakeOnes(TakeRun(SegmentBits(TakeOnes(b, 1), segs, |segs|), STACK_PAGES), StackTables(segs))
  }

  lemma {:induction false} LateFrom(b: seq<bool>, segs: seq<Segment>, k: nat)
    requires k <= |segs| && SegmentsPassed(b, segs, k)
    ensures LateCode(b, segs, 0) == LateCode(b, segs, k)
  {
    hide SegmentCode, SegmentBits, NoRun;
    if k > 0 { LateFrom(b, segs, k - 1); }
  }

  // The k segments before the deciding one are loaded.
  ghost predicate Progressed(s: State, segs: seq<Segment>, g: Progress)
  {
    Cloned(s, g.clone, g.root) && LowestRun(s.bits, g.root, 1) && g.clone.bits == TakeOnes(s.bits, 1)
    && g.k <= |segs| && (exists m, lost :: Loaded(g.clone, g.at, g.root, segs, g.k, m, lost))
    && g.at.bits == SegmentBits(g.clone.bits, segs, g.k) && SegmentsPassed(g.clone.bits, segs, g.k)
    && (g.k < |segs| ==> SegmentCode(g.at.bits, segs[g.k]) != 0)
  }

  lemma ProgressCode(s: State, segs: seq<Segment>, g: Progress)
    requires Progressed(s, segs, g)
    ensures LateCode(g.clone.bits, segs, 0)
            == if g.k < |segs| then SegmentCode(g.at.bits, segs[g.k]) else if NoRun(g.at.bits, STACK_PAGES) then -5
            else 0
  {
    hide Cloned, Loaded, SegmentCode, SegmentBits, NoRun, LowestRun, SegmentsPassed, TakeOnes;
    LateFrom(g.clone.bits, segs, g.k);
  }

  ghost predicate UserBases(segs: seq<Segment>)
  {
    forall i | 0 <= i < |segs| :: SegBase(segs[i]) >= USER_BASE
  }

  lemma SegTablesBound(segs: seq<Segment>, k: nat)
    requires k < |segs|
    ensures SegTables(segs, k) <= 3 * SegPages(segs[k])
  {
    hide SegPages, SegBase;
    FreshTablesBound(PagesOf(segs, k), SegPageSeq(segs[k]));
  }

  // At most four frames a page, taken by first fit.
  lemma {:induction false} SegmentsBound(b: seq<bool>, segs: seq<Segment>, k: nat)
    requires k <= |segs|
    ensures LowFirst(b, SegmentBits(b, segs, k))
    ensures CountSet(SegmentBits(b, segs, k)) <= CountSet(b) + 4 * TotalPages(segs[..k])
    ensures SegmentsNeed(segs, k) <= 4 * TotalPages(segs[..k])
  {
    hide LowFirst, CountSet, TakeRun, TakeOnes, SegPages, SegTables, NoRun;
    if k == 0 {
      LowFirstReflexive(b);
    } else {
      var b1 := SegmentBits(b, segs, k - 1);
      var b2 := TakeRun(b1, SegPages(segs[k - 1]));
      SegmentsBound(b, segs, k - 1);
      TotalMore(segs, k - 1);
      SegTablesBound(segs, k - 1);
      TakeRunCount(b1, SegPages(segs[k - 1]));
      TakeOnesCount(b2, SegTables(segs, k - 1));
      LowFirstTransitive(b, b1, b2);
      LowFirstTransitive(b, b2, SegmentBits(b, segs, k));
    }
  }

  // A free run with room for all the pages and their tables is enough to load every segment.
  lemma {:induction false} AllLoaded(b: seq<bool>, segs: seq<Segment>, k: nat)
    requires UserBases(segs) && k <= |segs| && !NoRun(b, 1 + 4 * TotalPages(segs))
    ensures LateCode(TakeOnes(b, 1), segs, k)
            == if NoRun(SegmentBits(TakeOnes(b, 1), segs, |segs|), STACK_PAGES) then -5 else 0
    decreases |segs| - k
  {
    hide LowFirst, SegPages, SegBase, CountSet, NoRun, TotalPages, SegmentBits, TakeOnes;
    if k < |segs| {
      AllLoaded(b, segs, k + 1);
      var b1 := SegmentBits(TakeOnes(b, 1), segs, k);
      CreationBound(b, segs, k);
      TotalMore(segs, k);
      SomePages(segs[k]);
      FreeRunStays(b, b1, 1 + 4 * TotalPages(segs), 1 + 4 * TotalPages(segs[..k]), SegPages(segs[k]));
    }
  }

  lemma CreationBound(b: seq<bool>, segs: seq<Segment>, k: nat)
    requires k <= |segs|
    ensures var b1 := SegmentBits(TakeOnes(b, 1), segs, k);
            LowFirst(b, b1) && CountSet(b1) <= CountSet(b) + 1 + 4 * TotalPages(segs[..k])
  {
    hide LowFirst, SegPages, SegBase, CountSet, NoRun, TotalPages, SegmentBits, TakeOnes;
    SegmentsBound(TakeOnes(b, 1), segs, k);
    TakeOnesCount(b, 1);
    LowFirstTransitive(b, TakeOnes(b, 1), SegmentBits(TakeOnes(b, 1), segs, k));
  }

  lemma SomePages(seg: Segment)
    ensures SegPages(seg) >= 1
  {
  }

  lemma FreeRunStays(b: seq<bool>, b': seq<bool>, size: nat, u: nat, n: nat)
    requires LowFirst(b, b') && !NoRun(b, size) && CountSet(b') <= CountSet(b) + u && u + n <= size
    ensures !NoRun(b', n)
  {
    hide LowFirst, CountSet;
    var lo: nat :| RunFree(b, lo, size);
    LowFirstLeaves(b, b', lo, size, u, n);
  }

  // With room for the stack as well, creation succeeds and every page gets its frame and its tables.
  lemma RoomSuffices(b: seq<bool>, segs: seq<Segment>)
    requires UserBases(segs) && !NoRun(b, 1 + 4 * (TotalPages(segs) + STACK_PAGES))
    ensures LateCode(TakeOnes(b, 1), segs, 0) == 0 && CountSet(b) + CreationNeed(segs) <= |b|
  {
    hide LowFirst, SegmentBits, LateCode, CountSet, NoRun, UserBases, TotalPages, TakeOnes, SegmentsNeed, StackBase;
    var size := 1 + 4 * (TotalPages(segs) + STACK_PAGES);
    ShorterRun(b, size, 1 + 4 * TotalPages(segs));
    AllLoaded(b, segs, 0);
    assert segs[..|segs|] == segs;
    CreationBound(b, segs, |segs|);
    FreeRunStays(b, SegmentBits(TakeOnes(b, 1), segs, |segs|), size, 1 + 4 * TotalPages(segs), STACK_PAGES);
    RunCount(b, size);
    SegmentsBound(b, segs, |segs|);
    FreshTablesBound(PagesOf(segs, |segs|), PageSeq(StackBase(segs) / PAGE, STACK_PAGES));
  }

  // With room for the segments but no 16 free frames in a row, the address space is abandoned.
  lemma FragmentedFails(b: seq<bool>, segs: seq<Segment>)
    requires UserBases(segs) && !NoRun(b, 1 + 4 * TotalPages(segs)) && NoRun(b, STACK_PAGES)
    ensures LateCode(TakeOnes(b, 1), segs, 0) == -5
  {
    hide LowFirst, SegmentBits, LateCode, CountSet, NoRun, UserBases, TotalPages, TakeOnes;
    AllLoaded(b, segs, 0);
    CreationBound(b, segs, |segs|);
    LowFirstNoRun(b, SegmentBits(TakeOnes(b, 1), segs, |segs|), STACK_PAGES);
  }

  lemma ShorterRun(b: seq<bool>, n: nat, n': nat)
    requires !NoRun(b, n) && n' <= n
    ensures !NoRun(b, n')
  {
    var i: nat :| RunFree(b, i, n);
    assert RunFree(b, i, n');
  }

  // A free run is that many frames not in use.
  lemma RunCount(b: seq<bool>, n: nat)
    requires !NoRun(b, n)
    ensures CountSet(b) + n <= |b|
  {
    hide CountSet;
    var i: nat :| RunFree(b, i, n);
    CountSetRun(b, i, n);
    CountAtMost(SetRun(b, i, n, true));
  }

  // What the first instruction of the process finds: rip, rsp, rdi and rsi.
  datatype Start = Start(entry: nat, rsp: nat, argc: nat, argv: nat)

  function CutArgs(argv: seq<Option<seq<Byte>>>): (args: seq<Option<seq<Byte>>>)
    ensures |args| <= ARG_MAX
  {
    if |argv| > ARG_MAX then argv[..ARG_MAX] else argv
  }

  // With arguments, rsp is below the zone that holds them and rsi is the pointer array; without, rsp is the
  // top of the stack.
  function StartOf(entry: nat, segs: seq<Segment>, argv: seq<Option<seq<Byte>>>): Start
  {
    var zone, n := StackBase(segs) + (STACK_PAGES - 1) * PAGE, |CutArgs(argv)|;
    if argv == [] then Start(entry, zone + PAGE, 0, 0) else Start(entry, zone, n, zone + ArrayOffset(n))
  }

  lemma StartOfArgs(entry: nat, segs: seq<Segment>, argv: seq<Option<seq<Byte>>>)
    requires 0 < |argv| <= ARG_MAX
    ensures StartOf(entry, segs, argv).argc == |argv| && CutArgs(argv) == argv
    ensures StartOf(entry, segs, argv).argv == StackBase(segs) + (STACK_PAGES - 1) * PAGE + ArrayOffset(|argv|)
  {
    hide StackBase;
  }

  // The PML4 of a process that is still there is a frame that was free before.
  lemma Abandoned(s: State, c: State, s1: State, root: nat, m: map<nat, Word>, lost: set<nat>)
    requires Cloned(s, c, root) && Extended(c, s1, root, m, lost)
    ensures root < |s.bits| == |s1.bits| && s1.bits[root] && !s.bits[root]
  {
    hide Translations, EntriesOk, ParentsOk, KernelApart;
  }

  // proc_create_user_regions. p is the slot find_free found, null if it found none; its device window keeps the base
  // and the running counter of the slot's earlier owners. 'kstack' says whether kmalloc succeeded; argv is cut to
  // ARG_MAX entries. m are the user pages, lost the frames whose mapping failed (the result of paging_map_user is
  // ignored).
  method CreateRegions(vm: AddressSpaceTable, p: Process?, kstack: bool, entry: nat, segs: seq<Segment>,
        argv: seq<Option<seq<Byte>>>, junk: seq<Word>)
    returns (code: int, start: Start, ghost g: Progress, ghost m: map<nat, Word>, ghost lost: set<nat>)
    requires vm.Valid() && UserSlotsFree(vm.S()) && Loadable(segs) && |junk| == ARG_MAX && (p != null ==> p.SlotOk())
    requires forall i | 0 <= i < |argv| && argv[i].Some? :: CString(argv[i].value)
    modifies p, vm, vm.pmm, vm.pmm.bitmap
    ensures vm.Valid() && code == CreationCode(p != null, kstack, old(vm.S()).bits, segs) && (code == 0 ==> p != null)
    // what the creation leaves in the slot
    ensures p != null ==> p.devioBase == old(p.devioBase) && p.devioUsed == old(p.devioUsed)
    ensures p != null ==> p.cr3 == if code in {0, -5, -10, -11} then g.root * PAGE else old(p.cr3)
    ensures p != null && code != 0 ==>
              p.isUser == old(p.isUser) && p.umap == old(p.umap) && p.umapHeap == old(p.umapHeap)
    // refused at once
    ensures !Guards(p != null, kstack, segs, old(vm.S()).bits) ==> vm.S() == old(vm.S())
    ensures Guards(p != null, kstack, segs, old(vm.S()).bits) ==>
              code in {0, -5, -10, -11} && Progressed(old(vm.S()), segs, g)
    ensures code in {0, -5, -10, -11} ==> Guards(p != null, kstack, segs, old(vm.S()).bits)
    // a segment that cannot be loaded: everything mapped so far is given back
    ensures code in {-10, -11} ==>
              Extended(g.clone, g.at, g.root, m, lost) && IsSpaceIn(g.at, g.root * PAGE)
              && vm.S() == TornDown(g.at, g.root)
              && (forall f | 0 <= f < |vm.S().bits| :: vm.S().bits[f] == (old(vm.S()).bits[f] || f in lost))
              && (lost == {} <==> CountSet(old(vm.S()).bits) + 1 + SegmentsNeed(segs, g.k) <= |vm.S().bits|)
    // a stack that cannot be allocated: the address space is abandoned, still holding every frame it took
    ensures code == -5 ==> vm.S() == g.at
    ensures code in {0, -5} ==> Extended(g.clone, vm.S(), g.root, m, lost)
    // a process: every page is mapped exactly when there were frames for all pages and tables
    ensures code == 0 ==>
              p.isUser && p.umap == UserRegions(segs) && p.umapHeap == -1 && start == StartOf(entry, segs, argv)
    ensures code == 0 ==>
              vm.S().bits == CreatedBits(old(vm.S()).bits, segs)
              && (lost == {} <==> CountSet(old(vm.S()).bits) + CreationNeed(segs) <= |vm.S().bits|)
    ensures code == 0 && lost == {} ==>
              p.Valid(vm) && HasTables(vm.S(), g.root, segs)
              && forall i | 0 <= i < |segs| :: Image(vm.mem, g.root, segs[i])
    ensures code == 0 && lost == {} && argv != [] ==>
              ArgvReads(vm.mem, g.root, StackBase(segs) + (STACK_PAGES - 1) * PAGE, CutArgs(argv))
    ensures code == 0 && lost == {} ==>
              DataMemory(vm.mem, g.root, StackBase(segs), StackBase(segs) + STACK_PAGES * PAGE)
  {
    hide NoRun, LowestRun, Inv, KernelSlot, WordAt, Extended, Cloned, Image, Fresh, Translate, Loaded, Loadable;
    hide StackBase, Layout, ArgvReads, DataMemory;
    hide HasTables, CountSet, Progressed, LateCode, TornDown, IsSpaceIn, StartOf, UserRegions, CString, CutArgs;
    hide SegmentBits, SegmentsNeed, CreatedBits;
    hide CreationNeed, TakeOnes, TakeRun;
    m, lost := map[], {};
    start := Start(entry, 0, 0, 0);
    ghost var s := vm.S();
    g := Progress(s, 0, s, 0);
    if |segs| == 0 || |segs| > MAX_SEGMENTS { return -9, start, g, m, lost; }
    if p == null { return -1, start, g, m, lost; }
    if !kstack { return -2, start, g, m, lost; }
    var pm := vm.NewAddressSpace();
    CountFull(s.bits);
    KernelInRam(s);
    if pm == 0 { return -3, start, g, m, lost; }
    OneTaken(s.bits, pm / PAGE);
    NotFull(s.bits, pm / PAGE);
    ClonedBits(s, vm.S(), pm / PAGE);
    p.cr3 := pm;
    code, start, g, m, lost := Populate(vm, p, pm, entry, segs, argv, junk, s);
  }

  lemma KernelInRam(s: State)
    requires Inv(s)
    ensures s.ker < |s.mem|
  {
  }

  lemma NotFull(b: seq<bool>, f: nat)
    requires LowestRun(b, f, 1)
    ensures !NoRun(b, 1)
  {
  }

  lemma ClonedBits(s: State, c: State, f: nat)
    requires Cloned(s, c, f) && LowestRun(s.bits, f, 1)
    ensures c.bits == TakeOnes(s.bits, 1) && CountSet(c.bits) == CountSet(s.bits) + 1
  {
    hide LowestRun, EntriesOk, ParentsOk, KernelApart, Translate, KernelSlot, TakeRun, CountSet;
    OneTaken(s.bits, f);
    assert TakeOnes(s.bits, 0) == s.bits;
  }

  lemma ProgressMade(s: State, c: State, root: nat, at: State, segs: seq<Segment>, k: nat, m: map<nat, Word>,
          lost: set<nat>)
    requires Cloned(s, c, root) && LowestRun(s.bits, root, 1) && c.bits == TakeOnes(s.bits, 1)
    requires k <= |segs| && Loaded(c, at, root, segs, k, m, lost) && (k < |segs| ==> SegmentCode(at.bits, segs[k]) != 0)
    requires SegmentsTaken(c, at, root, segs, k, lost) && SegmentsPassed(c.bits, segs, k)
    ensures Progressed(s, segs, Progress(c, root, at, k))
    ensures Extended(c, at, root, m, lost) && |at.bits| == |s.bits|
    ensures lost == {} <==> CountSet(c.bits) + SegmentsNeed(segs, k) <= |c.bits|
  {
    hide Cloned, LowestRun, SegmentCode, CountSet, Extended, Fresh, Complete, Image, Accepts, SegmentBits, SegmentsNeed;
    hide SegmentsPassed, TakeOnes;
    hide Grew, NoRun;
  }

  // proc_create_user_regions from the cloned PML4 on.
  method Populate(vm: AddressSpaceTable, p: Process, pm: nat, entry: nat, segs: seq<Segment>,
        argv: seq<Option<seq<Byte>>>, junk: seq<Word>, ghost s: State)
    returns (code: int, start: Start, ghost g: Progress, ghost m: map<nat, Word>, ghost lost: set<nat>)
    requires vm.Valid() && pm % PAGE == 0 && Cloned(s, vm.S(), pm / PAGE) && LowestRun(s.bits, pm / PAGE, 1)
    requires vm.S().bits == TakeOnes(s.bits, 1) && CountSet(vm.S().bits) == CountSet(s.bits) + 1
    requires s.ker < |s.mem| && UserSlotsFree(s) && Loadable(segs) && 0 < |segs| <= MAX_SEGMENTS && |junk| == ARG_MAX
    requires p.SlotOk() && p.cr3 == pm && forall i | 0 <= i < |argv| && argv[i].Some? :: CString(argv[i].value)
    modifies p, vm, vm.pmm, vm.pmm.bitmap
    ensures vm.Valid() && Progressed(s, segs, g) && code == LateCode(TakeOnes(s.bits, 1), segs, 0)
    ensures code in {0, -5, -10, -11} && g.root == pm / PAGE && |vm.S().bits| == |s.bits|
    ensures p.devioBase == old(p.devioBase) && p.devioUsed == old(p.devioUsed) && p.cr3 == pm
    ensures code != 0 ==> p.isUser == old(p.isUser) && p.umap == old(p.umap) && p.umapHeap == old(p.umapHeap)
    ensures code in {-10, -11} ==>
              Extended(g.clone, g.at, g.root, m, lost) && IsSpaceIn(g.at, g.root * PAGE)
              && vm.S() == TornDown(g.at, g.root)
              && (forall f | 0 <= f < |vm.S().bits| :: vm.S().bits[f] == (s.bits[f] || f in lost))
              && (lost == {} <==> CountSet(s.bits) + 1 + SegmentsNeed(segs, g.k) <= |s.bits|)
    ensures code == -5 ==> vm.S() == g.at
    ensures code in {0, -5} ==> Extended(g.clone, vm.S(), g.root, m, lost)
    ensures code == 0 ==>
              p.isUser && p.umap == UserRegions(segs) && p.umapHeap == -1 && start == StartOf(entry, segs, argv)
    ensures code == 0 ==>
              vm.S().bits == CreatedBits(s.bits, segs)
              && (lost == {} <==> CountSet(s.bits) + CreationNeed(segs) <= |s.bits|)
    ensures code == 0 && lost == {} ==>
              p.Valid(vm) && HasTables(vm.S(), g.root, segs)
              && forall i | 0 <= i < |segs| :: Image(vm.mem, g.root, segs[i])
    ensures code == 0 && lost == {} && argv != [] ==>
              ArgvReads(vm.mem, g.root, StackBase(segs) + (STACK_PAGES - 1) * PAGE, CutArgs(argv))
    ensures code == 0 && lost == {} ==>
              DataMemory(vm.mem, g.root, StackBase(segs), StackBase(segs) + STACK_PAGES * PAGE)
  {
    hide NoRun, LowestRun, Inv, KernelSlot, WordAt, Extended, Cloned, Image, Fresh, Translate, Loaded, SegBase;
    hide SegPages, Loadable, StackBase;
    hide HasTables, Layout, ArgvReads, CountSet, StartOf, Progressed, FreedSpace, ClearAll, Disowned, OwnedBy;
    hide UserSlotsFree, SegmentsTaken, SegmentsPassed;
    hide SegmentBits, SegmentsNeed, TakeOnes, TakeRun, StackTables, LateCode, FramesTaken, StackTaken, DataMemory;
    ghost var c, root := vm.S(), pm / PAGE;
    ghost var k;
    start := Start(entry, 0, 0, 0);
    ClonedFresh(s, c, root);
    code, m, lost, k := LoadAll(vm, pm, segs, c);
    ghost var s1 := vm.S();
    g := Progress(c, root, s1, k);
    ProgressMade(s, c, root, s1, segs, k, m, lost);
    ProgressCode(s, segs, g);
    if k < |segs| { SegmentCodes(s1.bits, segs, k); }
    if code != 0 {
      LifeConserves(s, c, s1, root, m, lost);
      vm.FreeAddressSpace(pm);
      return;
    }
    var ok: bool;
    ok, start, m, lost := EnterUser(vm, pm, entry, segs, argv, junk, c, m, lost);
    if !ok { code := -5; return; }
    StackMore(s.bits, c, vm.S(), segs, lost);
    p.isUser, p.umap, p.umapHeap := true, UserRegions(segs), -1;
  }

  lemma SegmentCodes(b: seq<bool>, segs: seq<Segment>, k: nat)
    requires k < |segs|
    ensures SegmentCode(b, segs[k]) in {0, -10, -11}
  {
    hide NoRun, SegPages, SegBase;
  }

  // What the stack took after all segments.
  ghost predicate StackTaken(c: State, s: State, segs: seq<Segment>, lost: set<nat>)
  {
    s.bits == TakeOnes(TakeRun(SegmentBits(c.bits, segs, |segs|), STACK_PAGES), StackTables(segs))
    && (lost == {} <==> CountSet(c.bits) + SegmentsNeed(segs, |segs|) + STACK_PAGES + StackTables(segs) <= |c.bits|)
  }

  lemma StackMore(b: seq<bool>, c: State, s: State, segs: seq<Segment>, lost: set<nat>)
    requires c.bits == TakeOnes(b, 1) && CountSet(c.bits) == CountSet(b) + 1 && StackTaken(c, s, segs, lost)
    ensures s.bits == CreatedBits(b, segs) && (lost == {} <==> CountSet(b) + CreationNeed(segs) <= |b|)
  {
    hide SegmentBits, SegmentsNeed, TakeOnes, TakeRun, StackTables, CountSet;
  }

  lemma StackFrames(c: State, s: State, s': State, root: nat, segs: seq<Segment>, m: map<nat, Word>, lost: set<nat>,
          lost': set<nat>)
    requires Loaded(c, s, root, segs, |segs|, m, lost) && SegmentsTaken(c, s, root, segs, |segs|, lost)
    requires s.ker < |s.mem|
    requires Vacant(s, root, StackBase(segs) / PAGE, STACK_PAGES) && !NoRun(s.bits, STACK_PAGES)
    requires FramesTaken(s, s', root, StackBase(segs) / PAGE, STACK_PAGES, lost')
    ensures StackTaken(c, s', segs, lost + lost')
  {
    hide Loaded, Vacant, NoTables, KernelSlot, CountSet, TakeOnes, TakeRun, NewTables, FreshTables, PageSeq, NoRun;
    hide UserPages, StackBase;
    hide SegmentBits, SegmentsNeed, PagesOf, Grew;
    var qs := PageSeq(StackBase(segs) / PAGE, STACK_PAGES);
    if lost != {} { FullNoRun(s.bits, STACK_PAGES); }
    LoadedSlots(c, s, root, segs, |segs|, m, lost);
    VacantUser(s, root, StackBase(segs) / PAGE, STACK_PAGES);
    SameUserPages(s, c, qs);
    FreshTablesAre(c, s, root, PagesOf(segs, |segs|), qs);
  }

  // proc_enter_user: the stack above the segments, with the argv block, and what the process starts with.
  method EnterUser(vm: AddressSpaceTable, pm: nat, entry: nat, segs: seq<Segment>, argv: seq<Option<seq<Byte>>>,
        junk: seq<Word>, ghost c: State, ghost m1: map<nat, Word>, ghost lost1: set<nat>)
    returns (ok: bool, start: Start, ghost m: map<nat, Word>, ghost lost: set<nat>)
    requires vm.Valid() && vm.IsSpace(pm) && Loadable(segs) && 0 < |segs| <= MAX_SEGMENTS && ARG_MAX == |junk|
    requires Loaded(c, vm.S(), pm / PAGE, segs, |segs|, m1, lost1)
    requires SegmentsTaken(c, vm.S(), pm / PAGE, segs, |segs|, lost1)
    requires forall i | 0 <= i < |argv| && argv[i].Some? :: CString(argv[i].value)
    modifies vm, vm.pmm, vm.pmm.bitmap
    ensures vm.Valid() && vm.IsSpace(pm) && Extended(c, vm.S(), pm / PAGE, m, lost)
    ensures !ok <==> NoRun(old(vm.S()).bits, STACK_PAGES)
    ensures !ok ==> vm.S() == old(vm.S())
    ensures ok && lost == {} ==> HasTables(vm.S(), pm / PAGE, segs)
    ensures ok && lost == {} ==>
              Layout(vm.S(), pm / PAGE, UserRegions(segs), -1)
              && forall i | 0 <= i < |segs| :: Image(vm.mem, pm / PAGE, segs[i])
    ensures ok ==> start == StartOf(entry, segs, argv)
    ensures ok && lost == {} && argv != [] ==>
              ArgvReads(vm.mem, pm / PAGE, StackBase(segs) + (STACK_PAGES - 1) * PAGE, CutArgs(argv))
    ensures ok && lost == {} ==> DataMemory(vm.mem, pm / PAGE, StackBase(segs), StackBase(segs) + STACK_PAGES * PAGE)
    ensures ok ==> StackTaken(c, vm.S(), segs, lost)
  {
    hide PagesGrown, HasTables, SegmentsTaken, StackTaken, FramesTaken, NoRun, Inv, KernelSlot, WordAt, Extended;
    hide DataMemory, RunMapped, Image, Translate, Loaded, SegPages, SegBase, Loadable, StackBase, Layout;
    hide ArgvReads, Vacant;
    ghost var s1, root := vm.S(), pm / PAGE;
    StackVacant(c, s1, root, segs, m1, lost1);
    var args := if |argv| > ARG_MAX then argv[..ARG_MAX] else argv;
    var base := MaxEnd(segs);
    base := base + GUARD;
    var top := base + STACK_PAGES * PAGE;
    start := Start(entry, top, 0, 0);
    ghost var f, m', lost';
    ok, f, m', lost' := BuildStack(vm, pm, base, args, junk);
    LoadedExtended(c, s1, root, segs, |segs|, m1, lost1);
    ExtendedTransitive(c, s1, vm.S(), root, m1, lost1, m', lost');
    m, lost := m1 + m', lost1 + lost';
    if args != [] {
      start := Start(entry, top - PAGE, |args|, top - (|args| + 1) * 8);
    }
    if ok { StackFrames(c, s1, vm.S(), root, segs, m1, lost1, lost'); }
    if ok && lost == {} {
      assert lost1 == {} && lost' == {};
      TablesBuilt(c, s1, vm.S(), root, segs, m1, m');
      LayoutBuilt(c, s1, vm.S(), root, segs, m1, f, m');
    }
  }

  lemma TablesBuilt(c: State, s: State, s': State, root: nat, segs: seq<Segment>, m: map<nat, Word>, m': map<nat, Word>)
    requires Loaded(c, s, root, segs, |segs|, m, {}) && SegmentsTaken(c, s, root, segs, |segs|, {})
    requires Extended(s, s', root, m', {})
    requires PagesGrown(s, s', root, StackBase(segs) / PAGE, STACK_PAGES)
    ensures HasTables(s', root, segs)
  {
    hide Loaded, Extended, KernelSlot, CountSet, NewTables, PageSeq, NoRun, StackBase, SegmentBits, SegmentsNeed;
    hide PagesOf, MaxCommon, PageDepth, Grew;
    LoadedSlots(c, s, root, segs, |segs|, m, {});
    ExtendedFacts(s, s', root, m', {});
    GrewThen(c, s, s', root, PagesOf(segs, |segs|), PageSeq(StackBase(segs) / PAGE, STACK_PAGES));
    forall q: nat | UserAddress(s', q * PAGE)
      ensures PageDepth(s'.mem, root, q) == MaxCommon(AllPages(segs), q)
    {
      assert UserAddress(c, q * PAGE);
      GrewPage(c, s', root, AllPages(segs), q);
    }
  }

  lemma GrewPage(c: State, s: State, root: nat, ps: seq<nat>, q: nat)
    requires c.ker < |c.mem| && NoTables(c, root) && Grew(c, s, root, ps) && UserAddress(c, q * PAGE)
    ensures PageDepth(s.mem, root, q) == MaxCommon(ps, q)
  {
    hide KernelSlot, MaxCommon, PageDepth, L4;
  }

  lemma LoadedExtended(c: State, s: State, root: nat, segs: seq<Segment>, k: nat, m: map<nat, Word>, lost: set<nat>)
    requires k <= |segs| && Loaded(c, s, root, segs, k, m, lost)
    ensures Extended(c, s, root, m, lost)
  {
  }

  lemma StackVacant(c: State, s: State, root: nat, segs: seq<Segment>, m: map<nat, Word>, lost: set<nat>)
    requires Loadable(segs) && |segs| > 0 && Loaded(c, s, root, segs, |segs|, m, lost)
    ensures s.ker < |s.mem| && Vacant(s, root, StackBase(segs) / PAGE, STACK_PAGES) && StackBase(segs) % PAGE == 0
  {
    hide Extended, Translate, KernelSlot, Image, SegPages, StackBase, SegBase;
    ExtendedFacts(c, s, root, m, lost);
    assert segs[..|segs|] == segs;
    SpansBounds(segs, 0);
    forall p | StackBase(segs) / PAGE <= p < StackBase(segs) / PAGE + STACK_PAGES
      ensures Translate(s.mem, root, p * PAGE) == None
    {
      BelowStack(segs, p * PAGE);
      StillVacant(c, s, root, m, lost, p);
    }
  }

  lemma BelowStack(segs: seq<Segment>, v: nat)
    requires Loadable(segs) && v >= StackBase(segs)
    ensures !Accepts(Spans(segs), v)
  {
    hide SegPages, StackBase, SegBase;
    forall i | 0 <= i < |segs|
      ensures Spans(segs)[i].base + Spans(segs)[i].size <= v
    {
      SpansBounds(segs, i);
    }
  }

  // The max_end loop of proc_enter_user.
  method MaxEnd(segs: seq<Segment>) returns (max: nat)
    ensures max + GUARD == StackBase(segs)
  {
    max := 0;
    for i := 0 to |segs|
      invariant max == UserMemory.Top(Spans(segs[..i]))
    {
      SpansMore(segs, i);
      assert Spans(segs[..i + 1])[..i] == Spans(segs[..i]);
      var e := SegBase(segs[i]) + SegPages(segs[i]) * PAGE;
      if e > max { max := e; }
    }
    assert segs[..|segs|] == segs;
    max := RoundUp(max);
  }

  // The memory half of proc_gc_run for one terminated process: its address space goes, unless CR3 still
  // refers to it (or it never had one).
  method Collect(vm: AddressSpaceTable, p: Process, active: nat)
    requires vm.Valid() && (p.cr3 == 0 || p.cr3 == vm.ker * PAGE || vm.IsSpace(p.cr3))
    modifies p, vm, vm.pmm, vm.pmm.bitmap
    ensures vm.Valid() && vm.mem == old(vm.mem)
    ensures p.devioBase == old(p.devioBase) && p.devioUsed == old(p.devioUsed)
    ensures p.isUser == old(p.isUser) && p.umap == old(p.umap) && p.umapHeap == old(p.umapHeap)
    ensures p.cr3 == if old(p.cr3) != active then 0 else old(p.cr3)
    ensures IsSpaceIn(old(vm.S()), old(p.cr3)) && old(p.cr3) != active ==>
              vm.S() == TornDown(old(vm.S()), old(p.cr3) / PAGE) && p.cr3 == 0
    ensures !(IsSpaceIn(old(vm.S()), old(p.cr3)) && old(p.cr3) != active) ==> vm.S() == old(vm.S())
  {
    hide InUse, EntriesOk, ParentsOk, KernelApart, TornDown, FreedSpace, CountSet;
    if p.cr3 != 0 && p.cr3 != active {
      vm.FreeAddressSpace(p.cr3);
      p.cr3 := 0;
    }
  }

  lemma ForSure(slot: bool, kstack: bool, b: seq<bool>, segs: seq<Segment>)
    requires Guards(slot, kstack, segs, b) && UserBases(segs)
    ensures !NoRun(b, 1 + 4 * (TotalPages(segs) + STACK_PAGES)) ==> CreationCode(slot, kstack, b, segs) == 0
    ensures !NoRun(b, 1 + 4 * TotalPages(segs)) && NoRun(b, STACK_PAGES) ==> CreationCode(slot, kstack, b, segs) == -5
  {
    hide NoRun, UserBases, LateCode, TakeOnes, TotalPages;
    if !NoRun(b, 1 + 4 * (TotalPages(segs) + STACK_PAGES)) { RoomSuffices(b, segs); }
    if !NoRun(b, 1 + 4 * TotalPages(segs)) && NoRun(b, STACK_PAGES) { FragmentedFails(b, segs); }
  }

  // Frames whose mapping failed were free before, and are lost.
  lemma LostFrames(s: State, c: State, s1: State, s2: State, root: nat, m: map<nat, Word>, lost: set<nat>)
    requires Cloned(s, c, root) && Extended(c, s1, root, m, lost) && |s2.bits| == |s.bits|
    requires forall f | 0 <= f < |s2.bits| :: s2.bits[f] == (s.bits[f] || f in lost)
    ensures s2.bits == s.bits <==> lost == {}
  {
    hide Extended, EntriesOk, ParentsOk, KernelApart, Translate, KernelSlot;
    if lost != {} {
      var f :| f in lost;
      ExtendedLoose(c, s1, root, m, lost, f);
    }
  }
}
