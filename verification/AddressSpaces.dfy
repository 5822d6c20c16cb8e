// Process address spaces (paging.c): creation by shallow clone, mapping, unmapping, lookup. All page-table
// words live in physical memory and are written in place.
module AddressSpaces {
  import opened PhysMemory
  import opened FrameAllocator
  import opened PageTables
  import opened TableDepth
  import opened Teardown

  // ---------------------------------------------------------------- what a call may change

  // Only empty tables of 'root' were added: every translation is as before.
  ghost predicate Grown(s: State, s': State, root: nat)
  {
    Inv(s) && Inv(s') && |s'.mem| == |s.mem| && s'.ker == s.ker
    && (forall f | 0 <= f < |s.mem| && s.bits[f] :: s'.bits[f] && s'.tag[f] == s.tag[f])
    && (forall f | 0 <= f < |s.mem| && !s.bits[f] && s'.bits[f] :: s'.tag[f].Table? && s'.tag[f].root == root)
    && Untouched(s, s', root)
    && (forall i | 0 <= i < SLOTS :: KernelSlot(s', i) == KernelSlot(s, i))
    && (forall r: nat, v: nat | r < |s.tag| && s.tag[r].Root? && UserAddress(s, v) ::
          Translate(s'.mem, r, v) == Translate(s.mem, r, v))
  }

  // Frames in use that are not tables of 'root' keep their contents: the kernel's, every other address
  // space's, and the data of 'root' itself.
  ghost predicate Untouched(s: State, s': State, root: nat)
    requires |s.mem| == |s.tag| == |s.bits| == |s'.mem|
  {
    forall f | 0 <= f < |s.mem| && s.bits[f] && !(IsTable(s.tag[f]) && RootOf(s.tag, f) == root) ::
      s'.mem[f] == s.mem[f]
  }

  // The data frame an own (non-MMIO) leaf entry refers to.
  predicate Holds(e: Option<Word>, f: nat)
  {
    e.Some? && OwnLeaf(e.value) && Frame(e.value) == f
  }

  // The entry for 'virt' in 'root' became 'e'; every other translation of every address space is as before.
  // The frame e refers to now belongs to 'root', the one the old entry held belongs to nobody, and the only
  // other change of ownership is new tables of 'root'.
  ghost predicate Mapped(s: State, s': State, root: nat, virt: nat, e: Option<Word>)
  {
    Inv(s) && Inv(s') && |s'.mem| == |s.mem| && s'.ker == s.ker
    && (forall f | 0 <= f < |s.mem| && s.bits[f] ::
          s'.bits[f] && if Holds(e, f) then s'.tag[f].Data? && s'.tag[f].root == root
                        else if Holds(Translate(s.mem, root, virt), f) then s'.tag[f] == Unowned
                        else s'.tag[f] == s.tag[f])
    && (forall f | 0 <= f < |s.mem| && !s.bits[f] && s'.bits[f] :: s'.tag[f].Table? && s'.tag[f].root == root)
    && Untouched(s, s', root)
    && (forall i | 0 <= i < SLOTS :: KernelSlot(s', i) == KernelSlot(s, i))
    && (forall r: nat, v: nat | r < |s.tag| && s.tag[r].Root? && UserAddress(s, v) ::
          Translate(s'.mem, r, v) == if r == root && SamePage(v, virt) then e else Translate(s.mem, r, v))
  }

  lemma GrownReflexive(s: State, root: nat)
    requires Inv(s)
    ensures Grown(s, s, root)
  {
  }

  lemma GrownTransitive(s: State, s': State, s'': State, root: nat)
    requires Grown(s, s', root) && Grown(s', s'', root)
    ensures Grown(s, s'', root)
  {
    hide EntriesOk, ParentsOk, KernelApart, Translate, SamePage, KernelSlot;
  }

  lemma AddTableGrows(s: State, t: nat, i: nat, f: nat)
    requires CanAddTable(s, t, i, f)
    ensures Grown(s, AddTable(s, t, i, f), RootOf(s.tag, t))
  {
    hide WordAt, PutWord, Present, TableEntry, Translate, L4, EntryOk, ParentOk, KernelApart;
    var s' := AddTable(s, t, i, f);
    AddTableInv(s, t, i, f);
    AddTableReads(s, t, i, f);
    forall r: nat, v: nat | r < |s.tag| && s.tag[r].Root? && UserAddress(s, v)
      ensures Translate(s'.mem, r, v) == Translate(s.mem, r, v)
    {
      AddTableTranslate(s, t, i, f, r, v);
    }
  }

  lemma SetLeafMaps(s: State, t: nat, i: nat, e: Word, root: nat, virt: nat)
    requires CanSetLeaf(s, t, i, e)
    requires root < |s.tag| && s.tag[root].Root? && UserAddress(s, virt) && Reaches(s, root, virt, t, i)
    ensures Mapped(s, SetLeaf(s, t, i, e), root, virt, if Present(e) then Some(e) else None)
  {
    hide WordAt, PutWord, Present, Mmio, Huge, Frame, L4, L3, L2, L1, LeafTags, EntryOk, ParentOk;
    var s' := SetLeaf(s, t, i, e);
    SetLeafInv(s, t, i, e);
    SetLeafReads(s, t, i, e);
    SetLeafTags(s, t, i, e);
    WalkTags(s, root, virt);
    assert Translate(s.mem, root, virt) == var was := WordAt(s.mem[t], i); if Present(was) then Some(was) else None;
    assert Untouched(s, s', root);
    assert forall j | 0 <= j < SLOTS :: KernelSlot(s', j) == KernelSlot(s, j);
    forall r: nat, v: nat | r < |s.tag| && s.tag[r].Root? && UserAddress(s, v)
      ensures Translate(s'.mem, r, v)
              == if r == root && SamePage(v, virt) then (if Present(e) then Some(e) else None)
                 else Translate(s.mem, r, v)
    {
      SetLeafTranslate(s, t, i, e, r, v);
      ReachesOnePage(s, root, virt, r, v, t, i);
    }
  }

  lemma GrownThenMapped(s: State, s': State, s'': State, root: nat, virt: nat, e: Option<Word>)
    requires Grown(s, s', root) && Mapped(s', s'', root, virt, e)
    requires root < |s.tag| && s.tag[root].Root? && UserAddress(s, virt)
    requires e.Some? && OwnLeaf(e.value) ==> Frame(e.value) < |s.tag| && s.bits[Frame(e.value)]
    ensures Mapped(s, s'', root, virt, e)
  {
    hide EntriesOk, ParentsOk, KernelApart, Translate, SamePage, KernelSlot, WordAt, Frame, L4, L3, L2, L1, OwnLeaf;
    assert s'.tag[root].Root?;
    HeldFrame(s', root, virt);
  }

  lemma GrownKeepsOwned(s: State, s': State, root: nat, f: nat)
    requires Grown(s, s', root) && f < |s.tag| && s.tag[f] != Unowned
    ensures f < |s'.tag| && s'.tag[f] == s.tag[f]
    ensures s'.ker == s.ker < |s'.mem| && forall i | 0 <= i < SLOTS :: KernelSlot(s', i) == KernelSlot(s, i)
  {
  }

  lemma GrownSlots(s: State, s': State, root: nat)
    requires Grown(s, s', root)
    ensures |s'.mem| == |s.mem| && s'.ker == s.ker < |s.mem|
    ensures forall i | 0 <= i < SLOTS :: KernelSlot(s', i) == KernelSlot(s, i)
  {
  }

  lemma GrownKeepsLoose(s: State, s': State, root: nat, f: nat)
    requires Grown(s, s', root) && f < |s.tag| && s.bits[f]
    ensures f < |s'.tag| && s'.tag[f] == s.tag[f] && s'.bits[f] && s'.ker == s.ker
    ensures InKernel(s'.mem, s'.ker, f) <==> InKernel(s.mem, s.ker, f)
  {
    hide EntriesOk, ParentsOk, KernelApart, Translate, WordAt, InKernel;
    forall g: nat | InKernel(s.mem, s.ker, g)
      ensures KernelFrame(s, g)
    {
      InKernelFrame(s, g);
    }
    SameKernel(s, s'.mem);
  }

  // The frame behind an own leaf carries a Data tag of its address space.
  lemma HeldFrame(s: State, root: nat, v: nat)
    requires Inv(s) && root < |s.tag| && s.tag[root].Root? && UserAddress(s, v)
    ensures forall f: nat ::
              Holds(Translate(s.mem, root, v), f) ==>
                f < |s.tag| && s.tag[f].Data? && s.tag[f].root == root && s.bits[f]
  {
    hide WordAt, Frame, Huge, Mmio, Present, L4, L3, L2, L1, EntriesOk, ParentsOk, KernelApart;
    WalkTags(s, root, v);
  }

  class AddressSpaceTable {
    const pmm: Pmm
    const ker: nat       // frame of saved_cr3
    var mem: Memory
    ghost var tag: seq<Tag>

    // paging_init: the boot page tables are the kernel's; no process has an address space yet.
    constructor (pmm: Pmm, mem: Memory, cr3: nat)
      requires pmm.Valid() && |mem| == |pmm.Bits()| <= MAX_FRAMES
      requires cr3 % PAGE == 0 && 0 < cr3 / PAGE < |mem|
      // the boot page tables lie in RAM and their frames are marked
      requires KernelApart(State(mem, seq(|mem|, _ => Unowned), pmm.Bits(), cr3 / PAGE))
      ensures Valid() && this.pmm == pmm && this.mem == mem && ker == cr3 / PAGE
      ensures forall f | 0 <= f < |tag| :: tag[f] == Unowned
    {
      this.pmm := pmm;
      this.mem := mem;
      ker := cr3 / PAGE;
      tag := seq(|mem|, _ => Unowned);
      RootInKernel(mem, cr3 / PAGE);
    }

    ghost function S(): State
      reads this, pmm, pmm.bitmap
    {
      State(mem, tag, pmm.Bits(), ker)
    }

    ghost predicate Valid()
      reads this, pmm, pmm.bitmap
    {
      pmm.Valid() && Inv(S())
    }

    // A CR3 value of a live process.
    ghost predicate IsSpace(pml4: nat)
      reads this
    {
      pml4 % PAGE == 0 && pml4 / PAGE < |tag| && tag[pml4 / PAGE].Root?
    }

    // pmm_alloc(1).
    method AllocFrame() returns (phys: nat)
      requires pmm.Valid()
      modifies pmm, pmm.bitmap
      ensures pmm.Valid() && pmm.used <= old(pmm.used) + 1
      ensures phys == 0 ==> pmm.Bits() == old(pmm.Bits()) && forall f | 0 <= f < |pmm.Bits()| :: pmm.Bits()[f]
      ensures phys != 0 ==> phys % PAGE == 0 && 0 < phys / PAGE < |pmm.Bits()| && !old(pmm.Bits())[phys / PAGE]
                            && pmm.Bits() == old(pmm.Bits())[phys / PAGE := true]
                            && LowestRun(old(pmm.Bits()), phys / PAGE, 1)
      ensures pmm.Bits() == TakeRun(old(pmm.Bits()), 1)
      ensures phys == 0 <==> NoRun(old(pmm.Bits()), 1)
    {
            ghost var b := pmm.Bits();
      phys := pmm.Alloc(1);
      if phys == 0 {
        assert forall f | 0 <= f < |b| :: !b[f] ==> RunFree(b, f, 1);
      } else {
        assert RunFree(b, phys / PAGE, 1);
        assert pmm.Bits() == b[phys / PAGE := true];
        CountUpdate(b, phys / PAGE, true);
      }
    }

    // paging_ensure_table on entry i of table t: the table it refers to, made if the entry is empty.
    method EnsureTable(t: nat, i: nat) returns (child: nat)
      requires Valid() && t < |tag| && i < SLOTS && IsTable(tag[t]) && Level(tag[t]) >= 2
      requires tag[t].Root? ==> !KernelSlot(S(), i)
      modifies this, pmm, pmm.bitmap
      ensures Valid() && Grown(old(S()), S(), RootOf(old(tag), t))
      ensures child == 0 ==> S() == old(S()) && forall f | 0 <= f < |S().bits| :: S().bits[f]
      ensures child != 0 ==> child % PAGE == 0 && child / PAGE < |tag| && tag[child / PAGE] == ChildTag(tag, t, i)
      ensures child != 0 ==> Present(WordAt(mem[t], i)) && Frame(WordAt(mem[t], i)) == child / PAGE
      ensures pmm.used <= old(pmm.used) + 1
      ensures child == 0 <==> !Present(WordAt(old(mem)[t], i)) && NoRun(old(pmm.Bits()), 1)
      ensures child != 0 && Present(WordAt(old(mem)[t], i)) ==> S() == old(S())
      ensures child != 0 && !Present(WordAt(old(mem)[t], i)) ==>
                CanAddTable(old(S()), t, i, child / PAGE) && S() == AddTable(old(S()), t, i, child / PAGE)
                && LowestRun(old(pmm.Bits()), child / PAGE, 1)
    {
      hide LowestRun, TakeRun, NoRun, PutWord, WordAt, EntriesOk, ParentsOk, KernelApart, Present, Huge, Mmio;
      hide TableEntry, Translate, Frame;
      ghost var s0 := S();
      var e := WordAt(mem[t], i);
      if Present(e) {
        OwnEntry(s0, t, i);
        assert !Huge(e);  // a process's own tables hold no large pages, so the PS refusal never fires
        GrownReflexive(s0, RootOf(tag, t));
        child := Frame(e) * PAGE;
        return;
      }
      var phys := AllocFrame();
      if phys == 0 {
        GrownReflexive(s0, RootOf(tag, t));
        return 0;
      }
      var f := phys / PAGE;
      AddTableGrows(s0, t, i, f);
      AddTableReads(s0, t, i, f);
      TableEntryReads(f);
      mem := mem[f := ZeroPage()];
      mem := mem[t := PutWord(mem[t], i, TableEntry(f))];
      tag := tag[f := ChildTag(tag, t, i)];
      assert S() == AddTable(s0, t, i, f);
      child := phys;
    }

    // A frame the caller got from pmm_alloc and has not given away.
    ghost predicate Loose(frame: nat)
      reads this, pmm, pmm.bitmap
    {
      0 < frame < |tag| && frame < |pmm.Bits()| && tag[frame] == Unowned && pmm.Bits()[frame]
      && !InKernel(mem, ker, frame)
    }

    // paging_ensure_table as step j of the walk of 'virt'.
    method EnsureStep(t: nat, i: nat, ghost s0: State, ghost root: nat, ghost virt: nat, ghost j: nat)
      returns (child: nat)
      requires Valid() && t < |tag| && i < SLOTS && IsTable(tag[t]) && Level(tag[t]) >= 2 && RootOf(tag, t) == root
      requires tag[t].Root? ==> !KernelSlot(S(), i)
      requires Grown(s0, S(), root) && root < |tag| && tag[root].Root? && s0.ker < |s0.mem| && UserAddress(s0, virt)
      requires j < 3 && Walked(s0, S(), root, virt, j) && StepsTo(mem, root, virt, j, t, i)
      modifies this, pmm, pmm.bitmap
      ensures Valid() && Grown(s0, S(), root) && Grown(old(S()), S(), root)
      ensures child == 0 ==> S() == old(S()) && !Present(WordAt(mem[t], i)) && NoRun(pmm.Bits(), 1)
      ensures child != 0 ==> child % PAGE == 0 && child / PAGE < |tag| && tag[child / PAGE] == ChildTag(tag, t, i)
      ensures child != 0 ==> Walked(s0, S(), root, virt, j + 1)
    {
      hide LowestRun, TakeRun, NoRun, PutWord, WordAt, EntriesOk, ParentsOk, KernelApart, InUse, Present, Translate, L4;
      hide L3, L2;
      hide L1, Frame, Grown, Walked, StepsTo, CanAddTable, AddTable, KernelSlot, ChildTag;
      ghost var s := S();
      GrownSlots(s0, s, root);
      StepsDepth(mem, root, virt, j, t, i);
      child := EnsureTable(t, i);
      GrownTransitive(s0, s, S(), root);
      if child != 0 {
        if Present(WordAt(s.mem[t], i)) {
          WalkedThrough(s0, s, root, virt, j);
        } else {
          WalkedMade(s0, s, root, virt, j, t, i, child / PAGE);
        }
      }
    }

    // The first half of paging_map_user: the level-1 table for 'virt', with the tables above it. Each missing table
    // takes the lowest free frame, and the walk fails exactly when there are fewer of these than tables missing.
    method EnsureWalk(root: nat, virt: nat) returns (l1: nat)
      requires Valid() && root < |tag| && tag[root].Root? && UserAddress(S(), virt)
      modifies this, pmm, pmm.bitmap
      ensures Valid() && Grown(old(S()), S(), root)
      ensures l1 == 0 <==> old(pmm.used) + Missing(old(mem), root, virt, 3) > |old(pmm.Bits())|
      ensures pmm.Bits() == TakeOnes(old(pmm.Bits()), Missing(old(mem), root, virt, 3))
      ensures l1 != 0 ==> l1 % PAGE == 0 && l1 / PAGE < |tag| && IsTable(tag[l1 / PAGE]) && Level(tag[l1 / PAGE]) == 1
                          && root < |tag| && tag[root].Root? && UserAddress(S(), virt)
                          && Reaches(S(), root, virt, l1 / PAGE, L1(virt)) && Walked(old(S()), S(), root, virt, 3)
    {
      hide WordAt, EntriesOk, ParentsOk, KernelApart, InUse, Present, Translate, L4, L3, L2, L1, Frame, Grown, Walked;
      hide StepsTo;
      hide TakeOnes, NoRun, Missing, CountSet;
      ghost var s0 := S();
      GrownReflexive(s0, root);
      WalkedNone(s0, root, virt);
      FirstStep(s0.mem, root, virt);
      l1 := 0;
      var l3 := EnsureStep(root, L4(virt), s0, root, virt, 0);
      ghost var s1 := S();
      if l3 == 0 {
        WalkedFull(s0, s1, root, virt, 0, root, L4(virt));
        return;
      }
      GrownKeepsOwned(s0, s1, root, root);
      TagsStep(s1, root, virt, l3 / PAGE);
      var l2 := EnsureStep(l3 / PAGE, L3(virt), s0, root, virt, 1);
      ghost var s2 := S();
      if l2 == 0 {
        WalkedFull(s0, s2, root, virt, 1, l3 / PAGE, L3(virt));
        return;
      }
      GrownKeepsOwned(s1, s2, root, l3 / PAGE);
      GrownKeepsOwned(s0, s2, root, root);
      TagsStepTwo(s2, root, virt, l3 / PAGE, l2 / PAGE);
      l1 := EnsureStep(l2 / PAGE, L2(virt), s0, root, virt, 2);
      ghost var s3 := S();
      if l1 == 0 {
        WalkedFull(s0, s3, root, virt, 2, l2 / PAGE, L2(virt));
        return;
      }
      WalkedAll(s0, s3, root, virt);
      WalkedBits(s0, s3, root, virt);
      GrownKeepsOwned(s0, s3, root, root);
      GrownKeepsOwned(s2, s3, root, l3 / PAGE);
      GrownKeepsOwned(s2, s3, root, l2 / PAGE);
      TagsReach(s3, root, virt, l3 / PAGE, l2 / PAGE, l1 / PAGE);
    }

    // paging_map_user.
    method MapUser(pml4: nat, virt: nat, phys: nat, flags: nat) returns (ok: bool)
      requires Valid() && (pml4 == 0 || IsSpace(pml4)) && UserAddress(S(), virt)
      requires LeafFlags(flags) && (Mmio(flags) || Loose(phys / PAGE % FRAME_LIMIT))
      modifies this, pmm, pmm.bitmap
      ensures Valid()
      ensures pml4 == 0 || virt % PAGE != 0 || phys % PAGE != 0 ==> !ok && S() == old(S())
      ensures !ok && pml4 != 0 ==> Grown(old(S()), S(), pml4 / PAGE)
      ensures ok ==> Mapped(old(S()), S(), pml4 / PAGE, virt, Some(Entry(phys / PAGE, flags)))
      ensures pml4 != 0 && virt % PAGE == 0 && phys % PAGE == 0 ==>
                var n := Missing(old(mem), pml4 / PAGE, virt, 3);
                (ok <==> old(pmm.used) + n <= |old(pmm.Bits())|) && pmm.Bits() == TakeOnes(old(pmm.Bits()), n)
                && (ok ==> Deeper(old(S()), S(), pml4 / PAGE, virt, 3))
    {
      hide WordAt, PutWord, EntriesOk, ParentsOk, KernelApart, InUse, Present, Huge, Mmio, Translate, L4, L3, L2, L1;
      hide Low, Frame, Mapped, LeafFlags, LeafTags, Grown, KernelSlot, Reaches, Entry;
      hide Walked, Deeper, Missing, TakeOnes, CountSet;
      if pml4 == 0 || virt % PAGE != 0 || phys % PAGE != 0 {
        if pml4 != 0 { GrownReflexive(S(), pml4 / PAGE); }
        return false;
      }
      var root := pml4 / PAGE;
      ghost var s0 := S();
      var l1 := EnsureWalk(root, virt);
      if l1 == 0 { return false; }
      ghost var s := S();
      EntryReads(phys / PAGE, flags);
      var e := Entry(phys / PAGE, flags);
      if !Mmio(flags) { GrownKeepsLoose(s0, s, root, Frame(e)); }
      assert CanSetLeaf(s, l1 / PAGE, L1(virt), e);
      GrownSlots(s0, s, root);
      WalkedDeeper(s0, s, root, virt);
      DeeperLeaf(s0, s, l1 / PAGE, L1(virt), e, root, virt);
      SetLeafMaps(s, l1 / PAGE, L1(virt), e, root, virt);
      GrownThenMapped(s0, s, SetLeaf(s, l1 / PAGE, L1(virt), e), root, virt, Some(e));
      mem := mem[l1 / PAGE := PutWord(mem[l1 / PAGE], L1(virt), e)];
      tag := LeafTags(s, l1 / PAGE, L1(virt), e);
      assert S() == SetLeaf(s, l1 / PAGE, L1(virt), e);
      assert Inv(S()) by { SetLeafInv(s, l1 / PAGE, L1(virt), e); }
      ok := true;
    }

    // paging_unmap_user: the leaf is cleared and the address of the frame it held is returned (0 if none);
    // the frame itself stays allocated.
    method UnmapUser(pml4: nat, virt: nat) returns (frame: nat)
      requires Valid() && (pml4 == 0 || IsSpace(pml4)) && UserAddress(S(), virt)
      modifies this
      ensures Valid()
      ensures pml4 == 0 || virt % PAGE != 0 || Translate(old(mem), pml4 / PAGE, virt).None? ==>
                frame == 0 && S() == old(S())
      ensures pml4 != 0 && virt % PAGE == 0 && Translate(old(mem), pml4 / PAGE, virt).Some? ==>
                frame == Frame(Translate(old(mem), pml4 / PAGE, virt).value) * PAGE
                && Mapped(old(S()), S(), pml4 / PAGE, virt, None)
    {
      hide WordAt, PutWord, EntriesOk, ParentsOk, KernelApart, InUse, Present, Huge, Mmio, L4, L3, L2, L1, Low, Frame;
      hide Mapped, LeafTags, KernelSlot;
      if pml4 == 0 || virt % PAGE != 0 { return 0; }
      var root := pml4 / PAGE;
      ghost var s := S();
      WalkTags(s, root, virt);
      FlagConstants();
      var e4 := At(mem, root, L4(virt));
      if !Present(e4) { return 0; }
      var e3 := At(mem, Frame(e4), L3(virt));
      if !Present(e3) { return 0; }
      var e2 := At(mem, Frame(e3), L2(virt));
      if !Present(e2) || Huge(e2) { return 0; }
      var t := Frame(e2);
      var e1 := At(mem, t, L1(virt));
      if !Present(e1) { return 0; }
      SetLeafMaps(s, t, L1(virt), 0, root, virt);
      mem := mem[t := PutWord(mem[t], L1(virt), 0)];
      tag := LeafTags(s, t, L1(virt), 0);
      assert S() == SetLeaf(s, t, L1(virt), 0);
      assert Inv(S()) by { SetLeafInv(s, t, L1(virt), 0); }
      frame := Frame(e1) * PAGE;
    }

    // paging_phys_of_user: the physical address behind a user address, 0 if there is none.
    method PhysOfUser(pml4: nat, virt: nat) returns (pa: nat, mmio: bool)
      ensures pml4 == 0 || virt >= USER_END ==> pa == 0
      ensures pml4 != 0 && virt < USER_END ==>
                match Translate(mem, pml4 / PAGE, virt)
                case None => pa == 0
                case Some(e) => pa == Frame(e) * PAGE + virt % PAGE && mmio == Mmio(e)
    {
      hide WordAt, Present, Huge, Mmio, L4, L3, L2, L1, Low, Frame;
      pa, mmio := 0, false;
      if pml4 == 0 || virt >= USER_END { return; }
      var e4 := At(mem, pml4 / PAGE, L4(virt));
      if !Present(e4) { return; }
      var e3 := At(mem, Frame(e4), L3(virt));
      if !Present(e3) { return; }
      var e2 := At(mem, Frame(e3), L2(virt));
      if !Present(e2) || Huge(e2) { return; }
      var e1 := At(mem, Frame(e2), L1(virt));
      if !Present(e1) { return; }
      mmio := Mmio(e1);
      pa := Frame(e1) * PAGE + virt % PAGE;
    }

    // paging_new_address_space: a fresh PML4 holding the kernel's 512 entries.
    method NewAddressSpace() returns (pml4: nat)
      requires Valid()
      modifies this, pmm, pmm.bitmap
      ensures Valid() && pmm.used <= old(pmm.used) + 1
      ensures pml4 == 0 ==> S() == old(S()) && forall f | 0 <= f < |S().bits| :: S().bits[f]
      ensures pml4 != 0 ==>
                pml4 % PAGE == 0 && Cloned(old(S()), S(), pml4 / PAGE) && LowestRun(old(pmm.Bits()), pml4 / PAGE, 1)
    {
      hide LowestRun, WordAt, PutWord, EntriesOk, ParentsOk, KernelApart, Present, L4, Translate;
      ghost var s0 := S();
      pml4 := AllocFrame();
      if pml4 == 0 { return; }
      var f := pml4 / PAGE;
      for i := 0 to SLOTS
        invariant |mem| == |s0.mem| && tag == s0.tag && pmm.Valid() && S().bits == s0.bits[f := true]
        invariant pmm.used <= old(pmm.used) + 1
        invariant forall g | 0 <= g < |mem| && g != f :: mem[g] == s0.mem[g]
        invariant forall j | 0 <= j < i :: WordAt(mem[f], j) == WordAt(s0.mem[ker], j)
      {
        PutWordReads(mem[f], i, WordAt(mem[ker], i));
        mem := mem[f := PutWord(mem[f], i, WordAt(mem[ker], i))];
      }
      tag := tag[f := Root];
      CloneInv(s0, S(), f);
    }

    // paging_free_subtree: frees what hangs below table t, then t itself. The recursion is bounded by level.
    method FreeSubtree(t: nat, level: nat)
      requires pmm.Valid() && 1 <= level <= 3
      modifies pmm, pmm.bitmap
      ensures pmm.Valid() && pmm.Bits() == ClearAll(old(pmm.Bits()), FreedSubtree(mem, t, level, 0))
      decreases level, 1
    {
      hide WordAt, Present, Huge, Mmio, Frame, ClearAll, FreedEntry;
      ghost var b := pmm.Bits();
      for i := 0 to SLOTS
        invariant pmm.Valid()
        invariant ClearAll(pmm.Bits(), FreedSubtree(mem, t, level, i)) == ClearAll(b, FreedSubtree(mem, t, level, 0))
      {
        ClearAllConcat(pmm.Bits(), FreedEntry(mem, At(mem, t, i), level), FreedSubtree(mem, t, level, i + 1));
        FreeEntry(At(mem, t, i), level);
      }
      FreeFrame(t);
    }

    // The loop body of paging_free_subtree.
    method FreeEntry(ent: Word, level: nat)
      requires pmm.Valid() && 1 <= level <= 3
      modifies pmm, pmm.bitmap
      ensures pmm.Valid() && pmm.Bits() == ClearAll(old(pmm.Bits()), FreedEntry(mem, ent, level))
      decreases level, 0
    {
      hide WordAt, Present, Huge, Mmio, Frame, FreedSubtree;
      if !Present(ent) { return; }
      if Huge(ent) { return; }
      var child := Frame(ent);
      if level > 1 {
        FreeSubtree(child, level - 1);
      } else if !Mmio(ent) {
        FreeFrame(child);
      }
    }

    // pmm_free of one frame.
    method FreeFrame(f: nat)
      requires pmm.Valid()
      modifies pmm, pmm.bitmap
      ensures pmm.Valid() && pmm.Bits() == ClearAll(old(pmm.Bits()), [f])
    {
      assert [f][..|[f]| - 1] == [];
      pmm.Free(f * PAGE, 1);
    }

    // pmm_free of a frame nobody's tables refer to.
    method FreeLoose(f: nat)
      requires Valid() && Loose(f)
      modifies pmm, pmm.bitmap
      ensures pmm.Valid() && mem == old(mem) && tag == old(tag) && pmm.Bits() == old(pmm.Bits())[f := false]
      ensures pmm.used <= old(pmm.used)
    {
      ghost var b := pmm.Bits();
      pmm.Free(f * PAGE, 1);
      assert SetRun(b, f, 1, false) == b[f := false];
      CountUpdate(b, f, false);
    }

    // paging_free_address_space: gives back exactly the frames the address space owns, each once.
    method FreeAddressSpace(pml4: nat)
      requires Valid() && (pml4 == 0 || pml4 == ker * PAGE || IsSpace(pml4))
      modifies this, pmm, pmm.bitmap
      ensures Valid() && mem == old(mem)
      ensures pml4 == 0 || pml4 == ker * PAGE ==> S() == old(S())
      ensures IsSpaceIn(old(S()), pml4) ==>
                var root := pml4 / PAGE;
                && S() == TornDown(old(S()), root)
                && (forall f | 0 <= f < |tag| :: S().bits[f] == (old(S()).bits[f] && !OwnedBy(old(tag), f, root)))
                && old(pmm.used) == pmm.used + |FreedSpace(mem, root, ker, 0)|
    {
      hide WordAt, Present, Huge, Mmio, Frame, InUse, EntriesOk, ParentsOk, KernelApart, ClearAll, FreedSpace;
      hide FreedSubtree, Disowned;
      if pml4 == 0 || pml4 == ker * PAGE { return; }
      var root := pml4 / PAGE;
      ghost var s := S();
      FreeOwnSlots(root);
      TornDownInv(s, root);
      FreedCount(s, root);
      tag := Disowned(tag, root);
    }

    // The loop of paging_free_address_space and the PML4 itself.
    method FreeOwnSlots(root: nat)
      requires pmm.Valid()
      modifies pmm, pmm.bitmap
      ensures pmm.Valid() && pmm.Bits() == ClearAll(old(pmm.Bits()), FreedSpace(mem, root, ker, 0))
    {
      hide WordAt, Present, Huge, Mmio, Frame, ClearAll, FreedSubtree;
      ghost var b := pmm.Bits();
      for i := 0 to SLOTS
        invariant pmm.Valid()
        invariant ClearAll(pmm.Bits(), FreedSpace(mem, root, ker, i)) == ClearAll(b, FreedSpace(mem, root, ker, 0))
      {
        var ent := At(mem, root, i);
        ghost var part := if !Present(ent) || ent == At(mem, ker, i) then [] else FreedSubtree(mem, Frame(ent), 3, 0);
        ClearAllConcat(pmm.Bits(), part, FreedSpace(mem, root, ker, i + 1));
        ClearNothing(pmm.Bits());
        if !Present(ent) { continue; }
        if ent == At(mem, ker, i) { continue; }
        FreeSubtree(Frame(ent), 3);
      }
      FreeFrame(root);
    }
  }

  ghost predicate IsSpaceIn(s: State, pml4: nat)
  {
    pml4 % PAGE == 0 && pml4 / PAGE < |s.tag| && s.tag[pml4 / PAGE].Root?
  }

  // Frame f, free before, is now a PML4 equal to the kernel's; nothing else changed.
  ghost predicate CloneStep(s: State, s': State, f: nat)
  {
    Shape(s) && f < |s.mem| && !s.bits[f] && |s'.mem| == |s.mem| && s'.ker == s.ker
    && s'.bits == s.bits[f := true] && s'.tag == s.tag[f := Root]
    && (forall g | 0 <= g < |s.mem| && g != f :: s'.mem[g] == s.mem[g])
    && (forall j | 0 <= j < SLOTS :: WordAt(s'.mem[f], j) == WordAt(s.mem[s.ker], j))
  }

  ghost predicate Cloned(s: State, s': State, f: nat)
  {
    Inv(s) && Inv(s') && CloneStep(s, s', f)
    && (forall i | 0 <= i < SLOTS :: KernelSlot(s', i) == KernelSlot(s, i))
    && (forall v: nat | UserAddress(s, v) :: Translate(s'.mem, f, v) == None)
    && (forall r: nat, v: nat | r < |s.tag| && s.tag[r].Root? && UserAddress(s, v) ::
          Translate(s'.mem, r, v) == Translate(s.mem, r, v))
  }

  lemma CloneApart(s: State, s': State, f: nat)
    requires Inv(s) && CloneStep(s, s', f)
    ensures KernelApart(s')
  {
    hide WordAt, EntriesOk, ParentsOk, KernelApart, InKernel;
    forall g: nat | InKernel(s.mem, s.ker, g)
      ensures g != f && KernelFrame(s, g)
    {
      InKernelFrame(s, g);
    }
    KernelStaysApart(s, s');
  }

  lemma CloneEntries(s: State, s': State, f: nat)
    requires Inv(s) && CloneStep(s, s', f)
    ensures Shape(s') && EntriesOk(s') && ParentsOk(s')
  {
    hide WordAt, Present, Huge, Mmio, Frame, KernelApart;
    assert s.tag[f] == Unowned;
    forall g, j | 0 <= g < |s'.tag| && 0 <= j < SLOTS && IsTable(s'.tag[g])
      ensures EntryOk(s', g, j)
    {
      if g != f { assert EntryOk(s, g, j); }
    }
    forall g | 0 <= g < |s'.tag| && (s'.tag[g].Table? || s'.tag[g].Data?)
      ensures ParentOk(s', g)
    {
      assert ParentOk(s, g);
    }
  }

  lemma CloneInv(s: State, s': State, f: nat)
    requires Inv(s) && CloneStep(s, s', f)
    ensures Cloned(s, s', f)
  {
    hide WordAt, Present, Huge, Mmio, Frame, L4, L3, L2, L1, KernelApart, EntryOk, ParentOk;
    CloneEntries(s, s', f);
    CloneApart(s, s', f);
    assert Inv(s');
    forall r: nat, v: nat | r < |s.tag| && s.tag[r].Root? && UserAddress(s, v)
      ensures Translate(s'.mem, r, v) == Translate(s.mem, r, v)
    {
      TranslateKeeps(s, s'.mem, r, v);
    }
  }
}
