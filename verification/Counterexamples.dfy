// Runs on concrete memories and inputs, each showing that the code does not do something one might expect of it.
module Counterexamples {
  import opened PhysMemory
  import opened FrameAllocator
  import opened PageTables
  import opened Teardown
  import opened TableDepth
  import opened AddressSpaces
  import opened ProcessMemory
  import opened ClearedPages
  import opened UserMemory
  import opened Argv
  import opened ProcessCreation
  import opened ProcessLife
  import A = ActiveSpace
  import S = Scheduler

  // ---------------------------------------------------------------- booting

  // Boot page tables that map nothing.
  function EmptyMemory(n: nat): Memory { seq(n, _ => ZeroPage()) }

  lemma EmptyKernel(n: nat, tag: seq<Tag>, bits: seq<bool>, ker: nat)
    requires |tag| == |bits| == n && ker < n && tag[ker] == Unowned && bits[ker]
    ensures KernelApart(State(EmptyMemory(n), tag, bits, ker))
    ensures UserSlotsFree(State(EmptyMemory(n), tag, bits, ker))
  {
    hide WordAt;
    var mem := EmptyMemory(n);
    ZeroPageReads();
    FlagConstants();
    forall path: seq<nat> | |path| <= 3 && KernelWalk(mem, ker, path).Some?
      ensures path == []
    {
      NothingMapped(n, ker, path);
    }
  }

  lemma {:induction false} NothingMapped(n: nat, ker: nat, path: seq<nat>)
    requires ker < n
    ensures KernelWalk(EmptyMemory(n), ker, path) == if path == [] then Some(ker) else None
  {
    hide WordAt;
    ZeroPageReads();
    FlagConstants();
    if path != [] { NothingMapped(n, ker, path[..|path| - 1]); }
  }

  function OnePage(): Segment { Segment(USER_BASE, [], PAGE, 5) }

  lemma OnePageLoadable()
    ensures Loadable([OnePage()]) && HeapPlaced(UserRegions([OnePage()]), -1) && TotalPages([OnePage()]) == 1
    ensures UserBases([OnePage()])
  {
    OneSegment(OnePage());
    assert SegBase(OnePage()) == USER_BASE && SegPages(OnePage()) == 1;
  }

  // ---------------------------------------------------------------- a memory on which creation fails with -5

  // Five stretches of 15 free frames, one frame in use between them: 75 free frames, but no 16 in a row.
  function Fragments(): seq<Region>
  {
    [Region(0x100000, 15 * PAGE, true), Region(0x110000, 15 * PAGE, true), Region(0x120000, 15 * PAGE, true),
     Region(0x130000, 15 * PAGE, true), Region(0x140000, 15 * PAGE, true)]
  }

  function FragmentedBits(): (b: seq<bool>)
    ensures |b| == 336
  {
    seq(336, f requires 0 <= f < 336 => f < 256 || f % 16 == 15)
  }

  lemma FragmentTop()
    ensures MemoryTop(Fragments()) == 0x14f000 && FirstAvailable(Fragments()) == 0x100000
  {
    FragmentTopUpTo(4);
    assert Fragments()[..5] == Fragments();
  }

  lemma {:induction false} FragmentTopUpTo(k: nat)
    requires k < 5
    ensures MemoryTop(Fragments()[..k + 1]) == 0x10f000 + k * 0x10000
  {
    assert Fragments()[..k + 1][..k] == Fragments()[..k];
    if k > 0 { FragmentTopUpTo(k - 1); }
  }

  lemma FragmentOffers(f: nat)
    ensures (exists r | r in Fragments() :: Offers(r, f)) <==> 256 <= f < 336 && f % 16 != 15
  {
    if 256 <= f < 336 && f % 16 != 15 {
      var r := Fragments()[(f - 256) / 16];
      assert r in Fragments() && Offers(r, f);
    }
  }

  lemma FragmentedRuns()
    ensures NoRun(FragmentedBits(), STACK_PAGES) && RunFree(FragmentedBits(), 256, 15)
    ensures CountSet(FragmentedBits()) + 75 <= 336
  {
    var b := FragmentedBits();
    forall i: nat
      ensures !RunFree(b, i, STACK_PAGES)
    {
      var k := i + (15 - i % 16);
      assert k % 16 == 15 && i <= k < i + 16;
      assert k < 336 ==> b[k];
    }
    var b1 := SetRun(b, 256, 15, true);
    var b2 := SetRun(b1, 272, 15, true);
    var b3 := SetRun(b2, 288, 15, true);
    var b4 := SetRun(b3, 304, 15, true);
    var b5 := SetRun(b4, 320, 15, true);
    CountSetRun(b, 256, 15);
    CountSetRun(b1, 272, 15);
    CountSetRun(b2, 288, 15);
    CountSetRun(b3, 304, 15);
    CountSetRun(b4, 320, 15);
    CountAtMost(b5);
  }

  // The page tables of a machine that has just booted.
  function Booted(b: seq<bool>): State
  {
    State(EmptyMemory(|b|), seq(|b|, _ => Unowned), b, 1)
  }

  method Boot(pmm: Pmm) returns (vm: AddressSpaceTable)
    requires pmm.Valid() && 2 <= |pmm.Bits()| <= MAX_FRAMES && pmm.Bits()[1]
    ensures fresh(vm) && vm.pmm == pmm && vm.Valid() && vm.S() == Booted(pmm.Bits()) && UserSlotsFree(vm.S())
  {
    hide KernelApart, EntriesOk, ParentsOk, KernelSlot;
    var n := pmm.bitmap.Length;
    EmptyKernel(n, seq(n, _ => Unowned), pmm.Bits(), 1);
    vm := new AddressSpaceTable(pmm, EmptyMemory(n), PAGE);
    assert vm.tag == seq(n, _ => Unowned);
  }

  // One process with one page of code, on that memory: 75 frames are free, yet the stack cannot be allocated, and
  // the frames taken before that are lost.
  method StarvedOfStack() returns (vm: AddressSpaceTable, code: int, ghost before: State)
    ensures fresh(vm) && vm.Valid() && before == Booted(FragmentedBits())
    ensures code == -5 && !Conserved(before, vm.S())
  {
    hide NoRun, RunFree, Progressed, LateCode, Inv, KernelSlot, Loadable, HeapPlaced, CountSet, TotalPages, UserBases;
    hide S.Started;
    hide CreationNeed, ExitFate, SegmentsNeed, KeepsLayouts, Guards, CreationCode, A.FateOf, A.Step, Booted;
    hide FragmentedBits, GivenBack;
    var pmm := FragmentedMemory();
    FragmentedRuns();
    OnePageLoadable();
    vm := Boot(pmm);
    before := vm.S();
    FreeStretch(before.bits, 256, 15, 5);
    FreeStretch(before.bits, 256, 15, 1);
    assert Guards(true, true, [OnePage()], before.bits) by { GuardsHold(before.bits); }
    ForSure(true, true, before.bits, [OnePage()]);
    var p := new Process();
    A.ThreeFates(0, PAGE, 0, 0);
    var w := A.TwoProcs(0, PAGE);
    ghost var g;
    code, g := Life(vm, p, true, [OnePage()], [], seq(ARG_MAX, _ => 0), [], w.sched, w.saved, 0, []);
  }

  lemma GuardsHold(b: seq<bool>)
    requires !NoRun(b, 1)
    ensures Guards(true, true, [OnePage()], b)
  {
  }

  method FragmentedMemory() returns (pmm: Pmm)
    ensures fresh(pmm) && fresh(pmm.bitmap) && pmm.Valid() && pmm.Bits() == FragmentedBits()
  {
    hide MemoryTop, CountSet;
    pmm := new Pmm(Fragments(), []);
    FragmentTop();
    forall f | 0 <= f < |pmm.Bits()|
      ensures pmm.Bits()[f] == FragmentedBits()[f]
    {
      FragmentOffers(f);
    }
  }

  lemma FreeStretch(b: seq<bool>, i: nat, n: nat, k: nat)
    requires RunFree(b, i, n) && k <= n
    ensures !NoRun(b, k)
  {
    assert RunFree(b, i, k);
  }

  // ---------------------------------------------------------------- creation on a memory with one free stretch

  lemma {:induction false} SegmentsInRange(n: nat, lo: nat, segs: seq<Segment>, k: nat)
    requires k <= |segs| && lo + SegmentsNeed(segs, k) < n
    ensures SegmentBits(FreeRange(n, lo), segs, k) == FreeRange(n, lo + SegmentsNeed(segs, k))
  {
    hide SegPages, SegTables, TakeRun, TakeOnes, NoRun;
    if k > 0 {
      var l := lo + SegmentsNeed(segs, k - 1);
      SegmentsInRange(n, lo, segs, k - 1);
      TakeRange(n, l, SegPages(segs[k - 1]));
      TakeRangeOnes(n, l + SegPages(segs[k - 1]), SegTables(segs, k - 1));
    }
  }

  lemma {:induction false} NeedGrows(segs: seq<Segment>, k: nat)
    requires k < |segs|
    ensures SegmentsNeed(segs, k) + SegPages(segs[k]) <= SegmentsNeed(segs, |segs|)
    decreases |segs| - k
  {
    hide SegPages, SegTables;
    if k + 1 < |segs| { NeedGrows(segs, k + 1); }
  }

  lemma {:induction false} LoadsInRange(n: nat, lo: nat, segs: seq<Segment>, k: nat)
    requires k <= |segs| && UserBases(segs) && lo + SegmentsNeed(segs, |segs|) + STACK_PAGES < n
    ensures LateCode(FreeRange(n, lo), segs, k) == 0
    decreases |segs| - k
  {
    hide SegPages, SegBase, SegTables, SegmentBits, SegmentsNeed, NoRun;
    if k == |segs| {
      SegmentsInRange(n, lo, segs, k);
      TakeRange(n, lo + SegmentsNeed(segs, k), STACK_PAGES);
    } else {
      NeedGrows(segs, k);
      SegmentsInRange(n, lo, segs, k);
      TakeRange(n, lo + SegmentsNeed(segs, k), SegPages(segs[k]));
      LoadsInRange(n, lo, segs, k + 1);
    }
  }

  // There a creation takes the next frames, as many as it needs.
  lemma CreatesInRange(n: nat, lo: nat, segs: seq<Segment>)
    requires 0 < |segs| <= MAX_SEGMENTS && UserBases(segs) && lo + CreationNeed(segs) < n
    ensures CreationCode(true, true, FreeRange(n, lo), segs) == 0
    ensures CreatedBits(FreeRange(n, lo), segs) == FreeRange(n, lo + CreationNeed(segs))
  {
    hide SegmentBits, SegmentsNeed, NoRun, LateCode, StackTables, UserBases, TakeRun, TakeOnes;
    TakeRange(n, lo, 1);
    TakeRangeOnes(n, lo, 1);
    LoadsInRange(n, lo + 1, segs, 0);
    SegmentsInRange(n, lo + 1, segs, |segs|);
    var l := lo + 1 + SegmentsNeed(segs, |segs|);
    TakeRange(n, l, STACK_PAGES);
    TakeRangeOnes(n, l + STACK_PAGES, StackTables(segs));
  }

  lemma NeedBound(segs: seq<Segment>)
    ensures CreationNeed(segs) <= 1 + 4 * (TotalPages(segs) + STACK_PAGES)
  {
    hide TotalPages, SegmentsNeed, StackBase;
    SegmentsBound([], segs, |segs|);
    assert segs[..|segs|] == segs;
    FreshTablesBound(PagesOf(segs, |segs|), PageSeq(StackBase(segs) / PAGE, STACK_PAGES));
  }

  // A process with one segment on a machine with 'frames' free frames.
  method Launch(frames: nat, seg: Segment) returns (vm: AddressSpaceTable, p: Process)
    requires 0 < frames <= 4096 && CreationNeed([seg]) <= frames && Loadable([seg]) && UserBases([seg])
    ensures fresh(vm) && fresh(vm.pmm) && fresh(vm.pmm.bitmap) && fresh(p) && p.Valid(vm) && p.isUser
    ensures p.umap == UserRegions([seg]) && p.umapHeap == -1 && p.devioUsed == 0
    ensures vm.S().bits == FreeRange(257 + frames, 256 + CreationNeed([seg])) && HasTables(vm.S(), p.cr3 / PAGE, [seg])
  {
    hide NoRun, Inv, KernelSlot, Loadable, CountSet, UserBases, CreationNeed, Extended, Layout, Translate, Image;
    hide CreationCode, CreatedBits, Progressed;
    hide HasTables, UserRegions;
    CreatesInRange(257 + frames, 256, [seg]);
    RangeCount(257 + frames, 256);
    var pmm := BootMemory(frames);
    vm := Boot(pmm);
    p := new Process();
    var code, start;
    ghost var g, m, lost;
    code, start, g, m, lost := CreateRegions(vm, p, true, seg.vaddr, [seg], [], seq(ARG_MAX, _ => 0));
  }

  // ---------------------------------------------------------------- the end of the device window

  function Repeated(call: Call, n: nat): seq<Call> { seq(n, _ => call) }

  lemma {:induction false} RepeatedBytes(call: Call, n: nat)
    ensures DeviceBytes(Repeated(call, n)) == n * CallBytes(call)
  {
    if n > 0 {
      RepeatedBytes(call, n - 1);
      assert Repeated(call, n)[1..] == Repeated(call, n - 1);
    }
  }

  // 65536 calls of 1 MB use up the device window, whichever of them the slot's earlier owners made: the next one starts
  // in the upper half.
  lemma WindowUsedUp(k: nat)
    requires k <= 65536
    ensures var mb := DevMapCall(true, 0, MAX_DEVICE);
            var w := DeviceBytes(Repeated(mb, k)) + DeviceBytes(Repeated(mb, 65536 - k));
            DEVIO_BASE + w == USER_END && L4(DEVIO_BASE + w) == 256
  {
    RepeatedBytes(DevMapCall(true, 0, MAX_DEVICE), k);
    RepeatedBytes(DevMapCall(true, 0, MAX_DEVICE), 65536 - k);
  }

  // Two lives in one slot: a process makes its calls and is collected, another is created in its slot and asks for a
  // device range. The address it gets is where the first one's last range ended, not the start of the window; and with
  // a free stretch for all its pages and tables it does get one.
  method TwoOwners(vm: AddressSpaceTable, p: Process, calls: seq<Call>, active: nat, segs: seq<Segment>,
        junk: seq<Word>, phys: nat, size: nat)
    returns (r: Option<nat>, ghost used: nat, ghost mid: State)
    requires p.Valid(vm) && Room(p, calls) && Loadable(segs) && |junk| == ARG_MAX
    modifies p, vm, vm.pmm, vm.pmm.bitmap
    ensures vm.Valid() && p.SlotOk() && old(p.devioUsed) <= used <= old(p.devioUsed) + DeviceBytes(calls)
    ensures r.Some? ==> r.value == DEVIO_BASE + used && p.devioUsed == used + RoundUp(size)
    ensures RoomFor(mid.bits, segs, RoundUp(size) / PAGE) ==>
              phys % PAGE == 0 && 0 < size <= MAX_DEVICE && used + RoundUp(size) <= USER_END - DEVIO_BASE ==> r.Some?
  {
    hide Inv, KernelSlot, Layout, Translate, Extended, Loadable, CountSet, Room, RoomFor;
    ghost var m := Calls(vm, p, calls);
    used := p.devioUsed;
    LayoutShape(vm.S(), p.cr3 / PAGE, p.umap, p.umapHeap);
    LayoutSlots(vm.S(), p.cr3 / PAGE, p.umap, p.umapHeap);
    ghost var s := vm.S();
    Collect(vm, p, active);
    mid := vm.S();
    SlotsAfter(s, mid);
    r := NextOwner(vm, p, segs, junk, phys, size);
  }

  method NextOwner(vm: AddressSpaceTable, p: Process, segs: seq<Segment>, junk: seq<Word>, phys: nat, size: nat)
    returns (r: Option<nat>)
    requires vm.Valid() && UserSlotsFree(vm.S()) && p.SlotOk() && Loadable(segs) && |junk| == ARG_MAX
    modifies p, vm, vm.pmm, vm.pmm.bitmap
    ensures vm.Valid() && p.SlotOk()
    ensures r.Some? ==> r.value == DEVIO_BASE + old(p.devioUsed) && p.devioUsed == old(p.devioUsed) + RoundUp(size)
    ensures RoomFor(old(vm.S()).bits, segs, RoundUp(size) / PAGE) ==>
              phys % PAGE == 0 && 0 < size <= MAX_DEVICE
              && old(p.devioUsed) + RoundUp(size) <= USER_END - DEVIO_BASE
              ==> r.Some?
  {
    hide Inv, KernelSlot, Layout, Translate, Extended, Image, Loadable, Progressed, CountSet, CreationNeed;
    hide CreationCode, CreatedBits, NoRun;
    hide PagesFit, MostThatFit, PagesMade, DevicePages, HasTables, UserRegions, StackBase, ArgvReads, RoomFor, Guards;
    hide SegmentsNeed, FreedSpace;
    r := None;
    ghost var b, n := vm.S().bits, RoundUp(size) / PAGE;
    if RoomFor(b, segs, n) { EnoughFor(b, segs, n); }
    if vm.pmm.used + CreationNeed(segs) > vm.pmm.bitmap.Length { return; }
    if p.devioUsed + RoundUp(size) > USER_END - DEVIO_BASE { return; }
    var code, start;
    ghost var g, m, lost;
    code, start, g, m, lost := CreateRegions(vm, p, true, 0, segs, [], junk);
    if code == 0 {
      CreatedCount(b, segs);
      DeviceFits(vm.S(), p.cr3 / PAGE, (DEVIO_BASE + p.devioUsed) / PAGE, n);
      ghost var k;
      r, m, k := p.DevMap(vm, true, phys, size);
    }
  }

  // A free stretch with room for a process and n device pages.
  ghost predicate RoomFor(b: seq<bool>, segs: seq<Segment>, n: nat)
  {
    0 < |segs| <= MAX_SEGMENTS && UserBases(segs) && !NoRun(b, 1 + 4 * (TotalPages(segs) + STACK_PAGES) + 3 * n)
  }

  lemma EnoughFor(b: seq<bool>, segs: seq<Segment>, n: nat)
    requires RoomFor(b, segs, n)
    ensures CreationCode(true, true, b, segs) == 0 && CountSet(b) + CreationNeed(segs) + 3 * n <= |b|
  {
    hide NoRun, CountSet, UserBases, TotalPages, LateCode, TakeOnes, CreationNeed;
    var size := 1 + 4 * (TotalPages(segs) + STACK_PAGES);
    ShorterRun(b, size + 3 * n, size);
    ShorterRun(b, size + 3 * n, 1);
    ForSure(true, true, b, segs);
    RunCount(b, size + 3 * n);
    NeedBound(segs);
  }

  lemma {:induction false} SegmentsCount(b: seq<bool>, segs: seq<Segment>, k: nat)
    requires k <= |segs|
    ensures CountSet(SegmentBits(b, segs, k)) <= CountSet(b) + SegmentsNeed(segs, k)
  {
    hide CountSet, TakeRun, TakeOnes, SegPages, SegTables, LowFirst;
    if k > 0 {
      SegmentsCount(b, segs, k - 1);
      TakeRunCount(SegmentBits(b, segs, k - 1), SegPages(segs[k - 1]));
      TakeOnesCount(TakeRun(SegmentBits(b, segs, k - 1), SegPages(segs[k - 1])), SegTables(segs, k - 1));
    }
  }

  lemma CreatedCount(b: seq<bool>, segs: seq<Segment>)
    ensures CountSet(CreatedBits(b, segs)) <= CountSet(b) + CreationNeed(segs)
  {
    hide CountSet, TakeRun, TakeOnes, SegmentBits, SegmentsNeed, StackTables, LowFirst;
    var b1 := SegmentBits(TakeOnes(b, 1), segs, |segs|);
    TakeOnesCount(b, 1);
    SegmentsCount(TakeOnes(b, 1), segs, |segs|);
    TakeRunCount(b1, STACK_PAGES);
    TakeOnesCount(TakeRun(b1, STACK_PAGES), StackTables(segs));
  }

  lemma {:induction false} NewTablesBound(mem: Memory, root: nat, ps: seq<nat>)
    ensures NewTables(mem, root, ps) <= 3 * |ps|
  {
    hide MaxCommon, PageDepth;
    if ps != [] { NewTablesBound(mem, root, ps[..|ps| - 1]); }
  }

  lemma DeviceFits(s: State, root: nat, lo: nat, n: nat)
    ensures CountSet(s.bits) + 3 * n <= |s.bits| ==> PagesFit(s, root, PageSeq(lo, n), false)
  {
    hide NewTables, CountSet;
    NewTablesBound(s.mem, root, PageSeq(lo, n));
  }

  lemma LayoutSlots(s: State, root: nat, umap: seq<Span>, heap: int)
    requires Layout(s, root, umap, heap)
    ensures s.ker < |s.mem| && UserSlotsFree(s)
  {
  }

  lemma SlotsAfter(s: State, s': State)
    requires s.ker < |s.mem| && UserSlotsFree(s) && s'.mem == s.mem && s'.ker == s.ker
    ensures UserSlotsFree(s')
  {
    assert forall i | 0 <= i < PhysMemory.SLOTS :: KernelSlot(s', i) == KernelSlot(s, i);
  }

  // ---------------------------------------------------------------- a process that has ended

  // A process of one page on a machine with 100 free frames, and what happens to its slot after it exits, with one
  // other process READY whose ctx.cr3 is 'saved': its frames are given back exactly when no process is created before
  // the next tick and the other one has page tables of its own.
  method AfterExit(saved: nat, create: bool) returns (vm: AddressSpaceTable, code: int, ghost before: State)
    ensures fresh(vm) && vm.Valid() && before == Booted(FreeRange(357, 256)) && code == 0
    ensures Conserved(before, vm.S()) <==> !create && saved !in {0, 256 * PAGE}
  {
    hide NoRun, Inv, KernelSlot, Loadable, CountSet, UserBases, CreationNeed, CreationCode, Progressed, HeapPlaced;
    hide S.Started, SegmentsNeed;
    hide KeepsLayouts, A.FateOf, A.Step, TotalPages, LateCode;
    OnePageLoadable();
    NeedBound([OnePage()]);
    CreatesInRange(357, 256, [OnePage()]);
    RangeCount(357, 256);
    var pmm := BootMemory(100);
    vm := Boot(pmm);
    before := vm.S();
    var p := new Process();
    var w := A.TwoProcs(saved, PAGE);
    A.ThreeFates(saved, PAGE, 0, 0);
    var events := if create then [A.Event(S.CreateOp(true, true), 0), A.Event(S.TickOp, 0)] else [A.Event(S.TickOp, 0)];
    ghost var g;
    code, g := Life(vm, p, true, [OnePage()], [], seq(ARG_MAX, _ => 0), [], w.sched, w.saved, 0, events);
    FirstRoot(before, [OnePage()], g);
    A.ThreeFates(saved, 256 * PAGE, 0, 0);
    assert A.World(w.sched, 256 * PAGE, w.saved[w.sched.cur := 256 * PAGE]) == A.TwoProcs(saved, 256 * PAGE);
  }

  lemma FirstRoot(s: State, segs: seq<Segment>, g: Progress)
    requires s.bits == FreeRange(357, 256) && Progressed(s, segs, g)
    ensures g.root == 256
  {
    hide Cloned, Loaded, SegmentBits, SegmentsPassed, SegmentCode, TakeOnes;
    assert RunFree(s.bits, 256, 1);
    LowestAt(s.bits, 256, 1, g.root);
  }

  // ---------------------------------------------------------------- a heap below the device window

  function High(): Segment { Segment(DEVIO_BASE - 2 * PAGE - 3 * GUARD, [], PAGE, 5) }

  // A segment the loader accepts, so high that the heap's second page is the first of the device window.
  lemma HighSegment()
    ensures var segs := [High()];
            Loadable(segs) && UserBases(segs) && NextBase(UserRegions(segs), -1) + PAGE == DEVIO_BASE
  {
    var v := DEVIO_BASE - 2 * PAGE - 3 * GUARD;
    var seg := Segment(v, [], PAGE, 5);
    var segs := [seg];
    OneSegment(seg);
    assert SegBase(seg) == v && SegPages(seg) == 1;
    assert StackBase(segs) == v + PAGE + GUARD;
  }

  lemma OneSegment(seg: Segment)
    requires seg.data == []
    ensures UserMemory.Top(Spans([seg])) == SegBase(seg) + SegPages(seg) * PAGE && TotalPages([seg]) == SegPages(seg)
    ensures UserMemory.Top(UserRegions([seg])) == StackBase([seg]) + STACK_PAGES * PAGE
  {
    hide SegBase, SegPages;
    var segs := [seg];
    assert segs[..0] == [] && Spans(segs)[..0] == [];
    assert UserRegions(segs)[..1] == Spans(segs);
    assert RoundUp(UserMemory.Top(Spans(segs))) >= UserMemory.Top(Spans(segs));
  }

  // ---------------------------------------------------------------- a device mapping that stops half-way

  // The pages of the device window.
  function Win(i: nat): nat { DEVIO_BASE / PAGE + i }

  lemma WinDigits(i: nat)
    requires i <= 512
    ensures L4(Win(i) * PAGE) == 255 && L3(Win(i) * PAGE) == 448 && L2(Win(i) * PAGE) == if i < 512 then 0 else 1
  {
    var v := Win(i) * PAGE;
    assert v == DEVIO_BASE + i * PAGE;
    assert v / 0x80_0000_0000 == 255;
    assert v / 0x4000_0000 == 131_008;
    assert v / 0x20_0000 == 67_076_096 + i / 512;
  }

  // The pages of the device window's first 2 MB share one table; the next page needs one more.
  lemma WindowCommon(i: nat, j: nat)
    requires i < 512 && j <= 512
    ensures PageCommon(Win(i), Win(j)) == if j < 512 then 3 else 2
  {
    hide L4, L3, L2;
    WinDigits(i);
    WinDigits(j);
  }

  lemma {:induction false} WindowShared(n: nat, k: nat, q: nat)
    requires n + k <= 512 && q <= 512
    ensures MaxCommon(PageSeq(Win(n), k), Win(q)) == if k == 0 then 0 else if q < 512 then 3 else 2
  {
    hide PageCommon;
    if k > 0 {
      WindowShared(n, k - 1, q);
      PageSeqMore(Win(n), k - 1);
      assert PageSeq(Win(n), k)[..k - 1] == PageSeq(Win(n), k - 1);
      WindowCommon(n + k - 1, q);
    }
  }

  // Pages from n on of the window's first 2 MB need the tables that page n lacks.
  lemma {:induction false} WindowTables(mem: Memory, root: nat, n: nat, k: nat)
    requires n + k <= 512 && k > 0
    requires forall i | n <= i < n + k :: PageDepth(mem, root, Win(i)) == PageDepth(mem, root, Win(n))
    ensures NewTables(mem, root, PageSeq(Win(n), k)) == 3 - PageDepth(mem, root, Win(n))
  {
    hide PageDepth, MaxCommon, NewTables;
    PageSeqMore(Win(n), k - 1);
    NewTablesMore(mem, root, PageSeq(Win(n), k - 1), Win(n + k - 1));
    WindowShared(n, k - 1, n + k - 1);
    if k == 1 {
      assert PageSeq(Win(n), 0) == [];
      NoNewTables(mem, root);
    } else {
      WindowTables(mem, root, n, k - 1);
    }
  }

  lemma NoNewTables(mem: Memory, root: nat)
    ensures NewTables(mem, root, []) == 0
  {
  }

  // How deep the walks of the window's first pages get: d tables for those of the first 2 MB, e for the next page.
  ghost predicate WindowDepth(s: State, root: nat, d: nat, e: nat)
  {
    s.ker < |s.mem| && (forall i | 0 <= i <= 512 :: UserAddress(s, Win(i) * PAGE))
    && (forall i | 0 <= i < 512 :: PageDepth(s.mem, root, Win(i)) == d) && PageDepth(s.mem, root, Win(512)) == e
  }

  lemma WindowAfter(s: State, s': State, root: nat, d: nat, e: nat, n: nat, k: nat)
    requires WindowDepth(s, root, d, e) && d >= e && e <= 2 && n + k <= 512 && k > 0
    requires PagesMade(s, s', root, PageSeq(Win(n), k), false)
    requires s'.ker < |s'.mem| && forall i | 0 <= i < SLOTS :: KernelSlot(s', i) == KernelSlot(s, i)
    ensures WindowDepth(s', root, 3, 2) && CountSet(s'.bits) == CountSet(s.bits) + 3 - d
  {
    hide PageDepth, KernelSlot, MaxCommon, NewTables, CountSet, TakeOnes, PageSeq;
    WindowTables(s.mem, root, n, k);
    forall i | 0 <= i <= 512
      ensures UserAddress(s', Win(i) * PAGE)
      ensures PageDepth(s'.mem, root, Win(i)) == if i < 512 then 3 else 2
    {
      assert UserAddress(s, Win(i) * PAGE);
      WindowShared(n, k, i);
    }
  }

  // With no frame left, a range from page n on stops where the first 2 MB end.
  lemma WindowStops(s: State, root: nat, n: nat, k: nat)
    requires WindowDepth(s, root, 3, 2) && CountSet(s.bits) == |s.bits| && n < 512
    ensures PagesFit(s, root, PageSeq(Win(n), k), false) <==> n + k <= 512
    ensures MostThatFit(s, root, Win(n), k, false) <==> n + k == 512
  {
    hide PageDepth, MaxCommon, NewTables, CountSet, PageSeq, UserAddress;
    WindowFits(s, root, n, k);
    WindowFits(s, root, n, k + 1);
  }

  lemma WindowFits(s: State, root: nat, n: nat, k: nat)
    requires WindowDepth(s, root, 3, 2) && CountSet(s.bits) == |s.bits| && n < 512
    ensures PagesFit(s, root, PageSeq(Win(n), k), false) <==> n + k <= 512
  {
    hide PageDepth, MaxCommon, NewTables, CountSet, UserAddress;
    var m := 512 - n;
    WindowTables(s.mem, root, n, m);
    if k > m {
      hide PageSeq;
      PageSeqMore(Win(n), m);
      WindowShared(n, m, 512);
      NewTablesMore(s.mem, root, PageSeq(Win(n), m), Win(512));
      FewerFit(s, root, Win(n), m + 1, k, false);
    } else if k > 0 {
      WindowTables(s.mem, root, n, k);
    } else {
      assert PageSeq(Win(n), 0) == [];
      NoNewTables(s.mem, root);
    }
  }

  lemma {:induction false} NothingShared(ps: seq<nat>, q: nat)
    requires forall i | 0 <= i < |ps| :: L4(ps[i] * PAGE) != L4(q * PAGE)
    ensures MaxCommon(ps, q) == 0
  {
    hide L4, L3, L2;
    if ps != [] { NothingShared(ps[..|ps| - 1], q); }
  }

  // The first pages of the user area share their tables.
  function UserPage(i: nat): nat { USER_BASE / PAGE + i }

  lemma UserDigits(i: nat)
    requires i < 512
    ensures L4(UserPage(i) * PAGE) == 64 && L3(UserPage(i) * PAGE) == 0 && L2(UserPage(i) * PAGE) == 0
  {
    var v := UserPage(i) * PAGE;
    assert v == USER_BASE + i * PAGE;
    assert v / 0x80_0000_0000 == 64;
    assert v / 0x4000_0000 == 32_768;
    assert v / 0x20_0000 == 16_777_216;
  }

  lemma {:induction false} AllShared(ps: seq<nat>, q: nat)
    requires q < 512 && ps != [] && ps[0] == UserPage(0)
    ensures MaxCommon(ps, UserPage(q)) == 3
  {
    hide L4, L3, L2;
    if |ps| == 1 {
      UserDigits(0);
      UserDigits(q);
      assert ps[..0] == [];
    } else {
      AllShared(ps[..|ps| - 1], q);
    }
  }

  lemma {:induction false} StackShares(lo: nat, k: nat)
    requires lo + k <= 512
    ensures FreshTables([UserPage(0)], PageSeq(UserPage(lo), k)) == 0
  {
    hide MaxCommon;
    if k > 0 {
      StackShares(lo, k - 1);
      assert PageSeq(UserPage(lo), k)[..k - 1] == PageSeq(UserPage(lo), k - 1);
      AllShared([UserPage(0)] + PageSeq(UserPage(lo), k - 1), lo + k - 1);
    }
  }

  // That process takes 21 frames: its PML4, three tables, a page of code and 16 of stack.
  lemma OnePageNeed()
    ensures CreationNeed([OnePage()]) == 21
    ensures AllPages([OnePage()]) == [UserPage(0)] + PageSeq(UserPage(17), STACK_PAGES)
  {
    hide MaxCommon, FreshTables;
    var segs := [OnePage()];
    OneSegment(OnePage());
    assert SegBase(OnePage()) == USER_BASE && SegPages(OnePage()) == 1;
    assert StackBase(segs) / PAGE == UserPage(17);
    assert SegPageSeq(OnePage()) == [UserPage(0)];
    assert PagesOf(segs, 0) == [] && PagesOf(segs, 1) == [UserPage(0)];
    OnlyOne(UserPage(0));
    StackShares(17, STACK_PAGES);
    assert SegmentsNeed(segs, 0) == 0 && SegmentsNeed(segs, 1) == 4;
  }

  lemma OnlyOne(p: nat)
    ensures FreshTables([], [p]) == 3
  {
    assert [p][..0] == [];
    assert [] + [p][..0] == [];
    assert MaxCommon([], p) == 0;
  }

  lemma WindowUntouched(s: State, root: nat, umap: seq<Span>, heap: int)
    requires Layout(s, root, umap, heap) && HasTables(s, root, [OnePage()])
    ensures WindowDepth(s, root, 0, 0)
  {
    hide Layout, PageDepth, L4, L3, L2, MaxCommon, KernelSlot, AllPages, PageSeq;
    LayoutSlots(s, root, umap, heap);
    OnePageNeed();
    forall i | 0 <= i <= 512
      ensures UserAddress(s, Win(i) * PAGE) && PageDepth(s.mem, root, Win(i)) == 0
    {
      WinDigits(i);
      UserRange(s, Win(i) * PAGE);
      OthersPages(Win(i));
    }
  }

  lemma OthersPages(q: nat)
    requires L4(q * PAGE) == 255
    ensures MaxCommon([UserPage(0)] + PageSeq(UserPage(17), STACK_PAGES), q) == 0
  {
    hide L4, MaxCommon;
    var ps := [UserPage(0)] + PageSeq(UserPage(17), STACK_PAGES);
    forall i | 0 <= i < |ps|
      ensures L4(ps[i] * PAGE) != L4(q * PAGE)
    {
      UserDigits(if i == 0 then 0 else 16 + i);
      assert ps[i] == UserPage(if i == 0 then 0 else 16 + i);
    }
    NothingShared(ps, q);
  }

  // A process on a machine with 24 free frames, three of which are left for tables, maps 256 and 255 device pages.
  method TwoRanges() returns (vm: AddressSpaceTable, p: Process)
    ensures fresh(vm) && fresh(vm.pmm) && fresh(vm.pmm.bitmap) && fresh(p) && p.Valid(vm) && p.isUser
    ensures p.devioUsed == 511 * PAGE
    ensures WindowDepth(vm.S(), p.cr3 / PAGE, 3, 2) && CountSet(vm.S().bits) == |vm.S().bits|
  {
    hide Inv, KernelSlot, Layout, Translate, Extended, Loadable, CountSet, CreationNeed, PagesFit, MostThatFit;
    hide PagesMade, HasTables, UserRegions;
    hide WindowDepth, DevicePages, UserBases;
    OnePageLoadable();
    OnePageNeed();
    vm, p := Launch(24, OnePage());
    ghost var root, s0 := p.cr3 / PAGE, vm.S();
    RangeCount(281, 277);
    WindowUntouched(s0, root, p.umap, p.umapHeap);
    WindowFirst(s0, root);
    var r;
    ghost var m, k;
    r, m, k := p.DevMap(vm, true, 0, 256 * PAGE);
    ghost var s1 := vm.S();
    ExtendedFacts(s0, s1, root, m, {});
    WindowAfter(s0, s1, root, 0, 0, 0, 256);
    WindowStops(s1, root, 256, 255);
    r, m, k := p.DevMap(vm, true, 0, 255 * PAGE);
    ExtendedFacts(s1, vm.S(), root, m, {});
    WindowAfter(s1, vm.S(), root, 3, 2, 256, 255);
  }

  // Asking for two more it gets none, and yet one of them is mapped now, above what its counter says.
  method StopsHalfway() returns (vm: AddressSpaceTable, p: Process, r: Option<nat>)
    ensures p.Valid(vm) && r == None && p.devioUsed == 511 * PAGE
    ensures var e := Translate(vm.mem, p.cr3 / PAGE, DEVIO_BASE + p.devioUsed); e.Some? && Mmio(e.value)
  {
    hide Inv, KernelSlot, Layout, Translate, Extended, CountSet, PagesFit, MostThatFit, PagesMade, WindowDepth;
    hide DevicePages;
    vm, p := TwoRanges();
    ghost var root, s := p.cr3 / PAGE, vm.S();
    WindowStops(s, root, 511, 2);
    ghost var m, k;
    r, m, k := p.DevMap(vm, true, 0, 2 * PAGE);
    WindowStops(s, root, 511, k);
    DeviceAt(s, vm.S(), root, m, Win(511), 0, k, 511);
  }

  lemma WindowFirst(s: State, root: nat)
    requires WindowDepth(s, root, 0, 0) && CountSet(s.bits) + 3 == |s.bits|
    ensures PagesFit(s, root, PageSeq(Win(0), 256), false)
  {
    hide PageDepth, NewTables, CountSet, PageSeq, UserAddress;
    WindowTables(s.mem, root, 0, 256);
  }

  lemma DeviceAt(s: State, s': State, root: nat, m: map<nat, Word>, lo: nat, f: nat, k: nat, i: nat)
    requires Extended(s, s', root, m, {}) && DevicePages(m, lo, f, k) && lo <= Win(i) < lo + k
    requires WindowDepth(s, root, 3, 2) && i <= 512
    ensures var e := Translate(s'.mem, root, Win(i) * PAGE); e.Some? && Mmio(e.value)
  {
    hide Translate, KernelSlot, EntriesOk, ParentsOk, KernelApart, PageDepth, Entry, Mmio;
    AtPage(s, s', root, m, Win(i));
  }

  // ---------------------------------------------------------------- a heap that meets the device window

  lemma FirstPageFits(s: State, root: nat, lo: nat, n: nat, free: nat)
    requires CountSet(s.bits) + free <= |s.bits| && 4 * n <= free
    ensures PagesFit(s, root, PageSeq(lo, n), true) && PagesFit(s, root, PageSeq(lo, n), false)
  {
    hide NewTables, CountSet;
    NewTablesBound(s.mem, root, PageSeq(lo, n));
  }

  lemma TooManyPages(s: State, root: nat, lo: nat, n: nat)
    requires n > |s.bits|
    ensures !PagesFit(s, root, PageSeq(lo, n), true)
  {
    hide NewTables, CountSet;
  }

  // Of a call that fails, two pages had been mapped if there were frames for them.
  lemma GotPast(s: State, root: nat, lo: nat, k: nat)
    requires PagesFit(s, root, PageSeq(lo, 2), true) && MostThatFit(s, root, lo, k, true)
    ensures k >= 2
  {
    hide PagesFit;
    if k < 2 { FewerFit(s, root, lo, k + 1, 2, true); }
  }

  // On 4096 free frames, a process with that segment maps one device page, the first of the window.
  method HighStart() returns (vm: AddressSpaceTable, p: Process)
    ensures fresh(vm) && fresh(vm.pmm) && fresh(vm.pmm.bitmap) && fresh(p) && p.Valid(vm) && p.isUser && |p.umap| == 2
    ensures p.umapHeap == -1
    ensures NextBase(p.umap, -1) == DEVIO_BASE - PAGE && CountSet(vm.S().bits) + 900 <= |vm.S().bits| <= 4353
    ensures vm.S().ker < |vm.S().mem| && UserAddress(vm.S(), DEVIO_BASE)
    ensures var e := Translate(vm.mem, p.cr3 / PAGE, DEVIO_BASE); e.Some? && Mmio(e.value)
  {
    hide Inv, KernelSlot, Layout, Translate, Extended, Loadable, CountSet, CreationNeed, PagesFit, MostThatFit;
    hide PagesMade, HasTables;
    hide DevicePages, UserBases, NextBase, Mmio, SegBase, SegPages;
    HighSegment();
    OneSegment(High());
    assert TotalPages([High()]) == 1 by { assert SegPages(High()) == 1 by { OneHighPage(); } }
    NeedBound([High()]);
    vm, p := Launch(4096, High());
    ghost var root, s := p.cr3 / PAGE, vm.S();
    RangeCount(4353, 256 + CreationNeed([High()]));
    FirstPageFits(s, root, DEVIO_BASE / PAGE, 1, 1000);
    LayoutSlots(s, root, p.umap, -1);
    UserRange(s, DEVIO_BASE);
    var r;
    ghost var m, k;
    r, m, k := p.DevMap(vm, true, 0, PAGE);
    ExtendedFacts(s, vm.S(), root, m, {});
    OneDevice(s, vm.S(), root, m);
    PagesMadeCount(s, vm.S(), root, DEVIO_BASE / PAGE, 1);
  }

  lemma OneHighPage()
    ensures SegPages(High()) == 1
  {
  }

  // A heap call of that process for two pages succeeds and puts a data page of its own where the device page was; one
  // for 8192 pages fails and leaves nothing there.
  method HeapMeetsWindow(request: nat) returns (vm: AddressSpaceTable, p: Process, r: Option<nat>, ghost before: State)
    requires request in {2, MAX_MMAP}
    ensures vm.Valid() && vm.IsSpace(p.cr3)
    ensures var e := Translate(before.mem, p.cr3 / PAGE, DEVIO_BASE); e.Some? && Mmio(e.value)
    ensures var e := Translate(vm.mem, p.cr3 / PAGE, DEVIO_BASE);
            if request == 2 then r == Some(DEVIO_BASE - PAGE) && e.Some? && OwnLeaf(e.value) && !p.Valid(vm)
            else r == None && e == None && p.Valid(vm)
  {
    hide Inv, KernelSlot, Layout, Translate, Extended, CountSet, PagesFit, MostThatFit, PagesMade;
    hide HeapPages, Cleared, PagesOpen, PagesEmpty, NextBase, Mmio, OwnLeaf;
    vm, p := HighStart();
    before := vm.S();
    ghost var root := p.cr3 / PAGE;
    FirstPageFits(before, root, DEVIO_BASE / PAGE - 1, 2, 900);
    if request != 2 { TooManyPages(before, root, DEVIO_BASE / PAGE - 1, request); }
    ghost var m, k;
    r, m, k := p.Mmap(vm, request);
    if r.Some? {
      HeapThere(before, vm.S(), root, m, k);
    } else {
      GotPast(before, root, DEVIO_BASE / PAGE - 1, k);
      NothingThere(before, vm.S(), root, k);
    }
  }

  lemma OneDevice(s: State, s': State, root: nat, m: map<nat, Word>)
    requires Extended(s, s', root, m, {}) && DevicePages(m, DEVIO_BASE / PAGE, 0, 1) && s.ker < |s.mem|
    requires UserAddress(s, DEVIO_BASE)
    ensures var e := Translate(s'.mem, root, DEVIO_BASE); e.Some? && Mmio(e.value)
  {
    hide Translate, KernelSlot, EntriesOk, ParentsOk, KernelApart, Entry, Mmio;
    AtPage(s, s', root, m, DEVIO_BASE / PAGE);
  }

  lemma PagesMadeCount(s: State, s': State, root: nat, lo: nat, n: nat)
    requires PagesMade(s, s', root, PageSeq(lo, n), false)
    ensures CountSet(s'.bits) <= CountSet(s.bits) + 3 * n && |s'.bits| == |s.bits|
  {
    hide CountSet, NewTables, Grew, TakeOnes;
    NewTablesBound(s.mem, root, PageSeq(lo, n));
  }

  lemma HeapThere(s: State, s': State, root: nat, m: map<nat, Word>, n: nat)
    requires Extended(s, s', root, m, {}) && HeapPages(m, DEVIO_BASE / PAGE - 1, DEVIO_BASE / PAGE - 1 + n) && n >= 2
    requires s.ker < |s.mem| && UserAddress(s, DEVIO_BASE)
    ensures var e := Translate(s'.mem, root, DEVIO_BASE); e.Some? && OwnLeaf(e.value)
  {
    hide Translate, KernelSlot, EntriesOk, ParentsOk, KernelApart, OwnLeaf;
    AtPage(s, s', root, m, DEVIO_BASE / PAGE);
  }

  lemma NothingThere(s: State, s': State, root: nat, k: nat)
    requires Cleared(s, s', root, DEVIO_BASE / PAGE - 1, k) && k >= 2 && s.ker < |s.mem| && UserAddress(s, DEVIO_BASE)
    ensures Translate(s'.mem, root, DEVIO_BASE) == None
  {
    hide Translate, KernelSlot, EntriesOk, ParentsOk, KernelApart;
  }
}
