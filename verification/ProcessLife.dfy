// Whole lives of processes: isolation between them and conservation of physical frames over any sequence of
// memory calls from creation to collection.
module ProcessLife {
  import opened PhysMemory
  import opened FrameAllocator
  import opened PageTables
  import opened TableDepth
  import opened Teardown
  import opened AddressSpaces
  import opened ProcessMemory
  import opened ClearedPages
  import opened UserMemory
  import opened Argv
  import opened ProcessCreation
  import A = ActiveSpace
  import S = Scheduler

  // ---------------------------------------------------------------- isolation

  // What one process maps never shows in another: its layout (hence its pointer gate) is untouched.
  lemma LayoutIsolated(s: State, s': State, root: nat, m: map<nat, Word>, lost: set<nat>, other: nat, umap: seq<Span>,
          heap: int)
    requires Extended(s, s', root, m, lost) && Layout(s, other, umap, heap) && other != root
    ensures Layout(s', other, umap, heap)
  {
    hide Translate, KernelSlot, Mmio, WriteXorExecute, Accepts, EntriesOk, ParentsOk, KernelApart, WordAt, L4, Regions;
    hide Untouched, MappedBy, NoOwnLeaf;
    forall v: nat | USER_BASE <= v < USER_END
      ensures AddressOk(s'.mem, other, umap, v)
    {
      UserRange(s, v);
      assert AddressOk(s.mem, other, umap, v);
    }
  }

  // Nor do its creation and its teardown.
  lemma LayoutSurvivesClone(s: State, c: State, root: nat, other: nat, umap: seq<Span>, heap: int)
    requires Cloned(s, c, root) && Layout(s, other, umap, heap)
    ensures Layout(c, other, umap, heap) && other != root
  {
    hide Translate, KernelSlot, Mmio, WriteXorExecute, Accepts, EntriesOk, ParentsOk, KernelApart, WordAt, L4, Regions;
    forall v: nat | USER_BASE <= v < USER_END
      ensures AddressOk(c.mem, other, umap, v)
    {
      UserRange(s, v);
      assert AddressOk(s.mem, other, umap, v);
    }
  }

  lemma LayoutSurvivesTeardown(s: State, root: nat, other: nat, umap: seq<Span>, heap: int)
    requires Inv(s) && root < |s.tag| && s.tag[root].Root? && Layout(s, other, umap, heap) && other != root
    ensures Layout(TornDown(s, root), other, umap, heap)
  {
    hide Translate, Mmio, WriteXorExecute, Accepts, EntriesOk, ParentsOk, KernelApart, WordAt, L4, Regions, FreedSpace;
    hide ClearAll, AddressOk;
    var s' := TornDown(s, root);
    assert s'.mem == s.mem && s'.ker == s.ker;
    assert forall i | 0 <= i < SLOTS :: KernelSlot(s', i) == KernelSlot(s, i);
    assert s'.tag[other].Root?;
    forall v: nat | USER_BASE <= v < USER_END
      ensures AddressOk(s'.mem, other, umap, v)
    {
      assert AddressOk(s.mem, other, umap, v);
    }
  }

  // Every other process's regions still agree with its page tables.
  ghost predicate KeepsLayouts(s: State, s': State)
  {
    forall other: nat, umap: seq<Span>, heap: int | Layout(s, other, umap, heap) :: Layout(s', other, umap, heap)
  }

  lemma OthersKept(s: State, c: State, s': State, root: nat, m: map<nat, Word>, lost: set<nat>)
    requires Cloned(s, c, root) && Extended(c, s', root, m, lost)
    ensures KeepsLayouts(s, s') && root < |s'.tag| && KeepsLayouts(s, TornDown(s', root))
  {
    hide Layout, Cloned, Extended, TornDown;
    ExtendedFacts(c, s', root, m, lost);
    forall other: nat, umap: seq<Span>, heap: int | Layout(s, other, umap, heap)
      ensures Layout(s', other, umap, heap) && Layout(TornDown(s', root), other, umap, heap)
    {
      LayoutSurvivesClone(s, c, root, other, umap, heap);
      LayoutIsolated(c, s', root, m, lost, other, umap, heap);
      LayoutSurvivesTeardown(s', root, other, umap, heap);
    }
  }

  // ---------------------------------------------------------------- a run of system calls

  datatype Call =
    | MmapCall(pages: nat)
    | DevMapCall(cap: bool, phys: nat, size: nat)

  // The part of the device window the calls ask for; calls the kernel refuses at once take none of it.
  function DeviceBytes(calls: seq<Call>): nat
  {
    if calls == [] then 0 else CallBytes(calls[0]) + DeviceBytes(calls[1..])
  }

  function CallBytes(call: Call): nat
  {
    match call
    case MmapCall(_) => 0
    case DevMapCall(cap, phys, size) => if cap && phys % PAGE == 0 && 0 < size <= MAX_DEVICE then RoundUp(size) else 0
  }

  // The heap starts low enough, and past what the slot's owners have used so far the device window has room for
  // everything asked for.
  ghost predicate Room(p: Process, calls: seq<Call>)
    reads p
  {
    HeapPlaced(p.umap, p.umapHeap) && (p.isUser ==> p.devioUsed + DeviceBytes(calls) <= USER_END - DEVIO_BASE)
  }

  method OneCall(vm: AddressSpaceTable, p: Process, call: Call, ghost rest: seq<Call>) returns (ghost m: map<nat, Word>)
    requires p.Valid(vm) && Room(p, [call] + rest)
    modifies p, vm, vm.pmm, vm.pmm.bitmap
    ensures p.Valid(vm) && p.cr3 == old(p.cr3) && Room(p, rest) && Extended(old(vm.S()), vm.S(), p.cr3 / PAGE, m, {})
    ensures old(p.devioUsed) <= p.devioUsed <= old(p.devioUsed) + CallBytes(call)
  {
    hide Inv, Translate, WordAt, Extended, Layout, HeapPages, DevicePages, KernelSlot, HeapPlaced;
    hide Cleared, PagesOpen, PagesEmpty, PagesFit, MostThatFit, GrownRegions, NextBase;
    ghost var u, h := p.umap, p.umapHeap;
    LayoutBounds(vm.S(), p.cr3 / PAGE, u, h);
    assert DeviceBytes([call] + rest) == CallBytes(call) + DeviceBytes(rest) by { assert ([call] + rest)[1..] == rest; }
    match call {
      case MmapCall(pages) =>
        ghost var s, acts := vm.S(), p.MmapActs(pages);
        RoomForHeap(s, p.cr3 / PAGE, u, h, 0);
        if acts { RoomForHeap(s, p.cr3 / PAGE, u, h, Pages(pages)); }
        StillPlaced(u, h, Pages(pages) * PAGE);
        var r;
        ghost var k;
        r, m, k := p.Mmap(vm, pages);
        if r.None? {
          LowHeap(u, h, k, pages, acts);
          ClearedRestores(s, vm.S(), p.cr3 / PAGE, NextBase(u, h) / PAGE, k);
        }
      case DevMapCall(cap, phys, size) =>
        var r;
        ghost var k;
        r, m, k := p.DevMap(vm, cap, phys, size);
    }
  }

  lemma LowHeap(umap: seq<Span>, heap: int, k: nat, request: nat, acts: bool)
    requires HeapPlaced(umap, heap) && k <= (if acts then Pages(request) else 0) && NextBase(umap, heap) <= DEVIO_BASE
    requires acts ==> NextBase(umap, heap) + Pages(request) * PAGE <= DEVIO_BASE
    ensures NextBase(umap, heap) + k * PAGE <= DEVIO_BASE
  {
    hide NextBase;
  }

  // Any sequence of SYS_MMAP and SYS_DEV_MAP calls, each succeeding or failing.
  method Calls(vm: AddressSpaceTable, p: Process, calls: seq<Call>) returns (ghost m: map<nat, Word>)
    requires p.Valid(vm) && Room(p, calls)
    modifies p, vm, vm.pmm, vm.pmm.bitmap
    ensures p.Valid(vm) && p.cr3 == old(p.cr3) && Extended(old(vm.S()), vm.S(), p.cr3 / PAGE, m, {})
    ensures old(p.devioUsed) <= p.devioUsed <= old(p.devioUsed) + DeviceBytes(calls)
  {
    hide Inv, Translate, WordAt, Extended, Layout, KernelSlot, Room;
    ghost var s0, root := vm.S(), p.cr3 / PAGE;
    m := map[];
    ExtendedReflexive(s0, root);
    assert calls[0..] == calls;
    for i := 0 to |calls|
      invariant p.Valid(vm) && p.cr3 == old(p.cr3) && Room(p, calls[i..]) && Extended(s0, vm.S(), root, m, {})
      invariant old(p.devioUsed) <= p.devioUsed
      invariant p.devioUsed + DeviceBytes(calls[i..]) <= old(p.devioUsed) + DeviceBytes(calls)
    {
      assert calls[i..][1..] == calls[i + 1..];
      ghost var s := vm.S();
      assert calls[i..] == [calls[i]] + calls[i + 1..];
      ghost var m' := OneCall(vm, p, calls[i], calls[i + 1..]);
      Chain(s0, s, vm.S(), root, m, m');
      m := m + m';
    }
  }

  lemma Chain(s0: State, s: State, s': State, root: nat, m: map<nat, Word>, m': map<nat, Word>)
    requires Extended(s0, s, root, m, {}) && Extended(s, s', root, m', {})
    ensures Extended(s0, s', root, m + m', {})
  {
    hide Extended;
    var none: set<nat> := {};
    ExtendedTransitive(s0, s, s', root, m, none, m', none);
    assert none + none == {};
  }

  // ---------------------------------------------------------------- conservation

  // The frames of a state are in use as before.
  ghost predicate Conserved(s: State, s': State)
  {
    s'.bits == s.bits
  }

  // What becomes of a process's slot when it exits in scheduler state s, its page tables being pml4.
  function ExitFate(s: S.State, saved: seq<nat>, pml4: nat, code: int, events: seq<A.Event>): A.Fate
    requires S.Shape(s) && |saved| == S.SLOTS && s.cur >= 0
  {
    A.FateOf(A.Step(A.World(s, pml4, saved[s.cur := pml4]), S.ExitOp(code), 0), s.cur, events)
  }

  // The slot is collected while CR3 holds other tables.
  predicate GivenBack(fate: A.Fate, pml4: nat) { fate.Collected? && fate.active != pml4 }

  // A process from creation to collection: calls are the memory calls it makes; it exits in scheduler state s, in
  // which it runs, and 'events' follow. Its frames are given back exactly when one of these things happened:
  // - the creation was refused at once;
  // - a segment could not be loaded, and there were frames for all the tables asked for until then;
  // - the process lived, and its slot was collected, not reused before, while CR3 held other tables than its own.
  method Life(vm: AddressSpaceTable, p: Process?, kstack: bool, segs: seq<Segment>, argv: seq<Option<seq<Byte>>>,
        junk: seq<Word>, calls: seq<Call>, s: S.State, saved: seq<nat>, exit: int, events: seq<A.Event>)
    returns (code: int, ghost g: Progress)
    requires vm.Valid() && UserSlotsFree(vm.S()) && Loadable(segs) && |junk| == ARG_MAX
    requires forall i | 0 <= i < |argv| && argv[i].Some? :: CString(argv[i].value)
    requires S.Started(s) && !s.halted && |saved| == S.SLOTS
    requires p != null ==> p.SlotOk() && p.devioUsed + DeviceBytes(calls) <= USER_END - DEVIO_BASE
    requires HeapPlaced(UserRegions(segs), -1)
    requires CreationCode(p != null, kstack, vm.S().bits, segs) == 0 ==>
               vm.pmm.used + CreationNeed(segs) <= |vm.S().bits|
    modifies p, vm, vm.pmm, vm.pmm.bitmap
    ensures vm.Valid() && code == CreationCode(p != null, kstack, old(vm.S()).bits, segs)
    ensures code in {0, -5, -10, -11} ==> Progressed(old(vm.S()), segs, g)
    ensures Conserved(old(vm.S()), vm.S())
            <==> if code == 0 then GivenBack(ExitFate(s, saved, g.root * PAGE, exit, events), g.root * PAGE)
                 else if code in {-10, -11}
                 then CountSet(old(vm.S()).bits) + 1 + SegmentsNeed(segs, g.k) <= |vm.S().bits|
                 else code != -5
    ensures Conserved(old(vm.S()), vm.S()) ==> vm.pmm.used == old(vm.pmm.used)
    // the slot keeps what its owners used of the device window
    ensures p != null ==> p.SlotOk() && old(p.devioUsed) <= p.devioUsed <= old(p.devioUsed) + DeviceBytes(calls)
    // isolation, whatever the result
    ensures KeepsLayouts(old(vm.S()), vm.S())
    // what a caller can check beforehand
    ensures var b, n := old(vm.S()).bits, TotalPages(segs);
            Guards(p != null, kstack, segs, b) && UserBases(segs) ==>
              (!NoRun(b, 1 + 4 * (n + STACK_PAGES)) ==> code == 0)
              && (!NoRun(b, 1 + 4 * n) && NoRun(b, STACK_PAGES) ==> code == -5)
  {
    hide NoRun, UserBases, Progressed, LateCode, Inv, Translate, WordAt, Extended, Layout, Cloned, Image, ArgvReads;
    hide KernelSlot, Loadable;
    hide StackBase, TornDown, CountSet, HeapPlaced, TotalPages, CreatedBits, CreationNeed, SegmentsNeed, SegmentBits;
    hide TakeOnes, TakeRun;
    hide A.FateOf, A.Step, S.Started, CreationCode, KeepsLayouts, Guards;
    ghost var s0 := vm.S();
    if Guards(p != null, kstack, segs, s0.bits) && UserBases(segs) { ForSure(p != null, kstack, s0.bits, segs); }
    ghost var m, lost;
    var start;
    code, start, g, m, lost := CreateRegions(vm, p, kstack, 0, segs, argv, junk);
    ghost var s1 := vm.S();
    KeepsSame(s0);
    if code != 0 {
      if code in {-5, -10, -11} { ProgressCloned(s0, segs, g); }
      if code == -5 {
        Abandoned(s0, g.clone, s1, g.root, m, lost);
        OthersKept(s0, g.clone, s1, g.root, m, lost);
      } else if code in {-10, -11} {
        OthersKept(s0, g.clone, g.at, g.root, m, lost);
        LostFrames(s0, g.clone, g.at, vm.S(), g.root, m, lost);
      }
      return;
    }
    ProgressCloned(s0, segs, g);
    StartedAt(s);
    Rest(vm, p, calls, ExitFate(s, saved, p.cr3, exit, events), s0, g.clone, g.root, m);
  }

  // The life of a process from its creation on.
  method Rest(vm: AddressSpaceTable, p: Process, calls: seq<Call>, fate: A.Fate, ghost s0: State, ghost c: State,
        ghost root: nat, ghost m: map<nat, Word>)
    requires p.Valid(vm) && Room(p, calls) && p.cr3 == root * PAGE && Cloned(s0, c, root)
    requires Extended(c, vm.S(), root, m, {})
    modifies p, vm, vm.pmm, vm.pmm.bitmap
    ensures vm.Valid() && (Conserved(s0, vm.S()) <==> GivenBack(fate, root * PAGE)) && KeepsLayouts(s0, vm.S())
    ensures p.SlotOk() && old(p.devioUsed) <= p.devioUsed <= old(p.devioUsed) + DeviceBytes(calls)
  {
    hide Inv, Translate, WordAt, Extended, Layout, Cloned, KernelSlot, TornDown, CountSet, KeepsLayouts, Room;
    ghost var s1 := vm.S();
    ghost var m' := Calls(vm, p, calls);
    ghost var s2 := vm.S();
    Chain(c, s1, s2, root, m, m');
    LifeConserves(s0, c, s2, root, m + m', {});
    Abandoned(s0, c, s2, root, m + m', {});
    OthersKept(s0, c, s2, root, m + m', {});
    if fate.Collected? { Collect(vm, p, fate.active); }
  }

  lemma KeepsSame(s: State)
    ensures KeepsLayouts(s, s)
  {
  }

  lemma StartedAt(s: S.State)
    requires S.Started(s)
    ensures S.Shape(s) && 0 <= s.cur < S.SLOTS
  {
  }

  lemma ProgressCloned(s: State, segs: seq<Segment>, g: Progress)
    requires Progressed(s, segs, g)
    ensures Cloned(s, g.clone, g.root) && g.k <= |segs| && g.root < |s.bits| && !s.bits[g.root]
  {
    ClonedRoot(s, g.clone, g.root);
  }

  lemma ClonedRoot(s: State, c: State, root: nat)
    requires Cloned(s, c, root)
    ensures root < |s.bits| && !s.bits[root]
  {
  }
}
