// How the memory of one process grows: the mappings a system call adds, and where every frame it took went.
module ProcessMemory {
  import opened PhysMemory
  import opened FrameAllocator
  import opened PageTables
  import opened Teardown
  import opened AddressSpaces

  // From s0 to s, address space 'root' gained the pages in m (page number -> leaf entry) and, besides the
  // frames of those pages, only tables of its own; 'loose' frames are allocated but not mapped yet.
  ghost predicate Extended(s0: State, s: State, root: nat, m: map<nat, Word>, loose: set<nat>)
  {
    Inv(s0) && Inv(s) && |s.mem| == |s0.mem| && s.ker == s0.ker && root < |s0.tag| && s0.tag[root].Root?
    && (forall i | 0 <= i < SLOTS :: KernelSlot(s, i) == KernelSlot(s0, i))
    && (forall p | p in m :: p * PAGE < USER_END && UserAddress(s0, p * PAGE) && NoOwnLeaf(s0, root, p * PAGE))
    && (forall p | p in m && OwnLeaf(m[p]) :: Frame(m[p]) < |s0.bits| && !s0.bits[Frame(m[p])])
    && Translations(s0, s, root, m)
    && Untouched(s0, s, root)
    && (forall f | 0 <= f < |s0.mem| && s0.bits[f] :: s.bits[f] && s.tag[f] == s0.tag[f] && f !in loose)
    && (forall f | 0 <= f < |s0.mem| && !s0.bits[f] && s.bits[f] :: NewFrame(s, root, m, loose, f))
    && (forall f | f in loose :: f < |s.mem| && s.bits[f])
  }

  ghost predicate NoOwnLeaf(s: State, root: nat, v: nat)
  {
    var e := Translate(s.mem, root, v);
    e.None? || !OwnLeaf(e.value)
  }

  ghost predicate Translations(s0: State, s: State, root: nat, m: map<nat, Word>)
    requires s0.ker < |s0.mem|
  {
    forall r: nat, v: nat | r < |s0.tag| && s0.tag[r].Root? && v < USER_END && UserAddress(s0, v) ::
      Translate(s.mem, r, v) == if r == root && v / PAGE in m then Some(m[v / PAGE]) else Translate(s0.mem, r, v)
  }

  // A frame taken since s0: loose, or a table of 'root', or the frame of a page in m.
  ghost predicate NewFrame(s: State, root: nat, m: map<nat, Word>, loose: set<nat>, f: nat)
    requires f < |s.tag|
  {
    if f in loose then s.tag[f] == Unowned
    else (s.tag[f].Table? && s.tag[f].root == root) || (s.tag[f].Data? && s.tag[f].root == root && MappedBy(m, f))
  }

  ghost predicate MappedBy(m: map<nat, Word>, f: nat)
  {
    exists p | p in m :: OwnLeaf(m[p]) && Frame(m[p]) == f
  }

  lemma ExtendedReflexive(s: State, root: nat)
    requires Inv(s) && root < |s.tag| && s.tag[root].Root?
    ensures Extended(s, s, root, map[], {})
  {
  }

  function WithBit(s: State, f: nat, b: bool): State
    requires f < |s.bits|
  {
    State(s.mem, s.tag, s.bits[f := b], s.ker)
  }

  lemma BitInv(s: State, f: nat, b: bool)
    requires Inv(s) && f < |s.bits| && (b || (s.tag[f] == Unowned && f != 0 && !InKernel(s.mem, s.ker, f)))
    ensures Inv(WithBit(s, f, b))
  {
    hide WordAt, Present, Huge, Mmio, Frame, KernelWalk;
    var s' := WithBit(s, f, b);
    RootInKernel(s.mem, s.ker);
    assert KernelApart(s') by {
      forall g: nat | InKernel(s.mem, s.ker, g)
        ensures KernelFrame(s, g)
      {
        InKernelFrame(s, g);
      }
      KernelStaysApart(s, s');
    }
    forall g, j | 0 <= g < |s'.tag| && 0 <= j < SLOTS && IsTable(s'.tag[g])
      ensures EntryOk(s', g, j)
    {
      assert EntryOk(s, g, j);
    }
    forall g | 0 <= g < |s'.tag| && (s'.tag[g].Table? || s'.tag[g].Data?)
      ensures ParentOk(s', g)
    {
      assert ParentOk(s, g);
    }
  }

  lemma ExtendedAlloc(s0: State, s: State, root: nat, m: map<nat, Word>, loose: set<nat>, f: nat)
    requires Extended(s0, s, root, m, loose) && f < |s.bits| && !s.bits[f]
    ensures Extended(s0, WithBit(s, f, true), root, m, loose + {f})
  {
    hide EntriesOk, ParentsOk, KernelApart, MappedBy, WordAt, Present, L4;
    BitInv(s, f, true);
  }

  // The kernel's tables are where they were, with the contents they had; no loose frame is one of them.
  lemma KernelKept(s0: State, s: State, root: nat, m: map<nat, Word>, loose: set<nat>)
    requires Extended(s0, s, root, m, loose)
    ensures forall f: nat :: InKernel(s.mem, s.ker, f) <==> InKernel(s0.mem, s0.ker, f)
    ensures forall f: nat | InKernel(s0.mem, s0.ker, f) :: f < |s.mem| && s.mem[f] == s0.mem[f] && s.bits[f]
  {
    hide EntriesOk, ParentsOk, KernelApart, MappedBy, WordAt, Present, L4, InKernel, Translations, KernelWalk;
    forall f: nat | InKernel(s0.mem, s0.ker, f)
      ensures KernelFrame(s0, f)
    {
      InKernelFrame(s0, f);
    }
    SameKernel(s0, s.mem);
  }

  lemma LooseNotKernel(s0: State, s: State, root: nat, m: map<nat, Word>, loose: set<nat>)
    requires Extended(s0, s, root, m, loose)
    ensures forall f | f in loose :: !InKernel(s.mem, s.ker, f)
  {
    hide EntriesOk, ParentsOk, KernelApart, MappedBy, WordAt, Present, L4, InKernel, Translations, KernelWalk;
    KernelKept(s0, s, root, m, loose);
    forall f | f in loose
      ensures !InKernel(s.mem, s.ker, f)
    {
      if InKernel(s.mem, s.ker, f) { InKernelFrame(s0, f); }
    }
  }

  lemma ExtendedFree(s0: State, s: State, root: nat, m: map<nat, Word>, loose: set<nat>, f: nat)
    requires Extended(s0, s, root, m, loose) && f in loose
    ensures f != 0 && Extended(s0, WithBit(s, f, false), root, m, loose - {f})
  {
    hide EntriesOk, ParentsOk, KernelApart, MappedBy, WordAt, Present, L4;
    assert !s0.bits[f];
    LooseNotKernel(s0, s, root, m, loose);
    BitInv(s, f, false);
  }

  lemma ExtendedGrown(s0: State, s: State, s': State, root: nat, m: map<nat, Word>, loose: set<nat>)
    requires Extended(s0, s, root, m, loose) && Grown(s, s', root)
    ensures Extended(s0, s', root, m, loose)
  {
    hide EntriesOk, ParentsOk, KernelApart, MappedBy, WordAt, Present, L4, NoOwnLeaf;
  }

  lemma ExtendedMap(s0: State, s: State, s': State, root: nat, m: map<nat, Word>, loose: set<nat>, p: nat, e: Word)
    requires Extended(s0, s, root, m, loose) && Mapped(s, s', root, p * PAGE, Some(e))
    requires p * PAGE < USER_END && UserAddress(s0, p * PAGE) && NoOwnLeaf(s0, root, p * PAGE)
    requires NoOwnLeaf(s, root, p * PAGE)
    requires OwnLeaf(e) ==> Frame(e) in loose
    ensures Extended(s0, s', root, m[p := e], if OwnLeaf(e) then loose - {Frame(e)} else loose)
  {
    hide EntriesOk, ParentsOk, KernelApart, WordAt, Present, Mmio, L4, SamePage, Frame, Translate, OwnLeaf, MappedBy;
    var m', loose' := m[p := e], if OwnLeaf(e) then loose - {Frame(e)} else loose;
    forall r: nat, v: nat | r < |s0.tag| && s0.tag[r].Root? && v < USER_END && UserAddress(s0, v)
      ensures Translate(s'.mem, r, v)
              == if r == root && v / PAGE in m' then Some(m'[v / PAGE]) else Translate(s0.mem, r, v)
    {
      SamePageIsSameFrameOfAddresses(v, p * PAGE);
      assert p * PAGE / PAGE == p;
      assert s.tag[r].Root?;
    }
    AtPage(s0, s, root, m, p);
    forall f | 0 <= f < |s0.mem| && !s0.bits[f] && s'.bits[f]
      ensures NewFrame(s', root, m', loose', f)
    {
      if MappedBy(m, f) { MappedByMore(m, p, e, f); }
      if OwnLeaf(e) && f == Frame(e) { MappedByNew(m, p, e); }
    }
  }

  lemma AtPage(s0: State, s: State, root: nat, m: map<nat, Word>, p: nat)
    requires s0.ker < |s0.mem| && Translations(s0, s, root, m)
    requires root < |s0.tag| && s0.tag[root].Root? && p * PAGE < USER_END && UserAddress(s0, p * PAGE)
    ensures Translate(s.mem, root, p * PAGE) == if p in m then Some(m[p]) else Translate(s0.mem, root, p * PAGE)
  {
    hide Translate, L4;
    assert p * PAGE / PAGE == p;
  }

  lemma MappedByMore(m: map<nat, Word>, p: nat, e: Word, f: nat)
    requires MappedBy(m, f) && (p in m ==> !OwnLeaf(m[p]))
    ensures MappedBy(m[p := e], f)
  {
    hide OwnLeaf, Frame;
    var q :| q in m && OwnLeaf(m[q]) && Frame(m[q]) == f;
    assert m[p := e][q] == m[q];
  }

  lemma MappedByNew(m: map<nat, Word>, p: nat, e: Word)
    requires OwnLeaf(e)
    ensures MappedBy(m[p := e], Frame(e))
  {
    hide OwnLeaf, Frame;
    assert m[p := e][p] == e;
  }

  lemma MappedByLess(m: map<nat, Word>, p: nat, f: nat)
    requires MappedBy(m, f) && p in m && Frame(m[p]) != f
    ensures MappedBy(m - {p}, f)
  {
    hide OwnLeaf, Frame;
    var q :| q in m && OwnLeaf(m[q]) && Frame(m[q]) == f;
    assert q in m - {p} && (m - {p})[q] == m[q];
  }

  // Taking back a page gives its frame back to the caller.
  lemma ExtendedUnmap(s0: State, s: State, s': State, root: nat, m: map<nat, Word>, loose: set<nat>, p: nat)
    requires Extended(s0, s, root, m, loose) && Mapped(s, s', root, p * PAGE, None)
    requires p in m && OwnLeaf(m[p]) && Translate(s0.mem, root, p * PAGE) == None
    ensures Extended(s0, s', root, m - {p}, loose + {Frame(m[p])})
  {
    hide EntriesOk, ParentsOk, KernelApart, WordAt, Present, Mmio, L4, SamePage, Frame, Translate, OwnLeaf, MappedBy;
    hide NoOwnLeaf;
    var m', loose' := m - {p}, loose + {Frame(m[p])};
    AtPage(s0, s, root, m, p);
    HeldFrame(s, root, p * PAGE);
    forall r: nat, v: nat | r < |s0.tag| && s0.tag[r].Root? && v < USER_END && UserAddress(s0, v)
      ensures Translate(s'.mem, r, v)
              == if r == root && v / PAGE in m' then Some(m'[v / PAGE]) else Translate(s0.mem, r, v)
    {
      SamePageIsSameFrameOfAddresses(v, p * PAGE);
      assert p * PAGE / PAGE == p;
      assert s.tag[r].Root?;
      if v / PAGE == p { SamePageTranslates(s0.mem, root, v, p * PAGE); }
    }
    forall f | 0 <= f < |s0.mem| && !s0.bits[f] && s'.bits[f]
      ensures NewFrame(s', root, m', loose', f)
    {
      if MappedBy(m, f) && Frame(m[p]) != f { MappedByLess(m, p, f); }
    }
    forall q | q in m' && OwnLeaf(m'[q])
      ensures Frame(m'[q]) < |s0.bits| && !s0.bits[Frame(m'[q])]
    {
      assert m'[q] == m[q];
    }
  }

  lemma SamePageTranslates(mem: Memory, root: nat, v: nat, w: nat)
    requires SamePage(v, w)
    ensures Translate(mem, root, v) == Translate(mem, root, w)
  {
  }

  // Two calls in a row.
  lemma ExtendedTransitive(s0: State, s1: State, s2: State, root: nat, m1: map<nat, Word>, l1: set<nat>,
        m2: map<nat, Word>, l2: set<nat>)
    requires Extended(s0, s1, root, m1, l1) && Extended(s1, s2, root, m2, l2)
    ensures Extended(s0, s2, root, m1 + m2, l1 + l2)
  {
    hide EntriesOk, ParentsOk, KernelApart, WordAt, Present, Mmio, L4, SamePage, Frame, Translate, OwnLeaf, MappedBy;
    hide NoOwnLeaf;
    var m := m1 + m2;
    assert s1.tag[root].Root?;
    forall p | p in m
      ensures p * PAGE < USER_END && UserAddress(s0, p * PAGE) && NoOwnLeaf(s0, root, p * PAGE)
      ensures OwnLeaf(m[p]) ==> Frame(m[p]) < |s0.bits| && !s0.bits[Frame(m[p])]
    {
      if p !in m1 {
        AtPage(s0, s1, root, m1, p);
        SameLeaf(s1, s0, root, p * PAGE);
      }
    }
    forall f | 0 <= f < |s0.mem| && !s0.bits[f] && s2.bits[f]
      ensures NewFrame(s2, root, m, l1 + l2, f)
    {
      if s1.bits[f] {
        if s1.tag[f].Data? {
          var q :| q in m1 && OwnLeaf(m1[q]) && Frame(m1[q]) == f by { RevealMappedBy(m1, f); }
          if q in m2 {
            AtPage(s0, s1, root, m1, q);
            NotOwn(s1, root, q * PAGE, m1[q]);
            assert false;
          }
          assert m[q] == m1[q];
          HasMapping(m, q);
        }
      } else if s2.tag[f].Data? {
        var q :| q in m2 && OwnLeaf(m2[q]) && Frame(m2[q]) == f by { RevealMappedBy(m2, f); }
        assert m[q] == m2[q];
        HasMapping(m, q);
      }
    }
  }

  lemma RevealMappedBy(m: map<nat, Word>, f: nat)
    requires MappedBy(m, f)
    ensures exists p | p in m :: OwnLeaf(m[p]) && Frame(m[p]) == f
  {
  }

  lemma HasMapping(m: map<nat, Word>, p: nat)
    requires p in m && OwnLeaf(m[p])
    ensures MappedBy(m, Frame(m[p]))
  {
  }

  lemma SameLeaf(s: State, s': State, root: nat, v: nat)
    requires NoOwnLeaf(s, root, v) && Translate(s.mem, root, v) == Translate(s'.mem, root, v)
    ensures NoOwnLeaf(s', root, v)
  {
  }

  lemma NotOwn(s: State, root: nat, v: nat, e: Word)
    requires NoOwnLeaf(s, root, v) && Translate(s.mem, root, v) == Some(e)
    ensures !OwnLeaf(e)
  {
  }

  lemma ExtendedFacts(s0: State, s: State, root: nat, m: map<nat, Word>, loose: set<nat>)
    requires Extended(s0, s, root, m, loose)
    ensures Inv(s0) && Inv(s) && |s.tag| == |s.mem| == |s.bits| == |s0.tag| == |s0.mem| == |s0.bits| <= MAX_FRAMES
    ensures 0 < root < |s.tag| && s.tag[root].Root? && s.ker == s0.ker < |s.mem|
    ensures forall i | 0 <= i < SLOTS :: KernelSlot(s, i) == KernelSlot(s0, i)
    ensures forall f | f in loose :: 0 < f < |s.tag| && s.tag[f] == Unowned && s.bits[f] && !InKernel(s.mem, s.ker, f)
  {
    hide EntriesOk, ParentsOk, KernelApart, WordAt, Present, L4, Translations;
    LooseNotKernel(s0, s, root, m, loose);
  }

  function Run(f: nat, n: nat): (r: set<nat>)
    ensures forall g :: g in r <==> f <= g < f + n
  {
    if n == 0 then {} else Run(f, n - 1) + {f + n - 1}
  }

  lemma {:induction false} ExtendedAllocRun(s0: State, s: State, root: nat, m: map<nat, Word>, loose: set<nat>, f: nat,
          n: nat)
    requires Extended(s0, s, root, m, loose) && RunFree(s.bits, f, n)
    ensures Extended(s0, State(s.mem, s.tag, SetRun(s.bits, f, n, true), s.ker), root, m, loose + Run(f, n))
  {
    hide Extended;
    if n == 0 {
      assert SetRun(s.bits, f, 0, true) == s.bits;
      assert loose + Run(f, 0) == loose;
    } else {
      var s1 := State(s.mem, s.tag, SetRun(s.bits, f, n - 1, true), s.ker);
      ExtendedAllocRun(s0, s, root, m, loose, f, n - 1);
      ExtendedAlloc(s0, s1, root, m, loose + Run(f, n - 1), f + n - 1);
      assert s1.bits[f + n - 1 := true] == SetRun(s.bits, f, n, true);
      assert loose + Run(f, n - 1) + {f + n - 1} == loose + Run(f, n);
    }
  }

  // Writing into frames that are neither the kernel's nor tables leaves everything above as it is.
  lemma WriteInv(s: State, mem': Memory)
    requires Inv(s) && |mem'| == |s.mem|
    requires forall f | 0 <= f < |s.mem| && (IsTable(s.tag[f]) || InKernel(s.mem, s.ker, f)) :: mem'[f] == s.mem[f]
    ensures Inv(State(mem', s.tag, s.bits, s.ker))
    ensures forall i | 0 <= i < SLOTS :: KernelSlot(State(mem', s.tag, s.bits, s.ker), i) == KernelSlot(s, i)
    ensures forall r: nat, v: nat | r < |s.tag| && s.tag[r].Root? && UserAddress(s, v) ::
              Translate(mem', r, v) == Translate(s.mem, r, v)
  {
    hide WordAt, Present, Huge, Mmio, Frame, L4, L3, L2, L1, Translate, KernelWalk;
    var s' := State(mem', s.tag, s.bits, s.ker);
    RootInKernel(s.mem, s.ker);
    assert KernelApart(s') by {
      forall g: nat | InKernel(s.mem, s.ker, g)
        ensures KernelFrame(s, g)
      {
        InKernelFrame(s, g);
      }
      KernelStaysApart(s, s');
    }
    forall g, j | 0 <= g < |s'.tag| && 0 <= j < SLOTS && IsTable(s'.tag[g])
      ensures EntryOk(s', g, j)
    {
      assert EntryOk(s, g, j);
    }
    forall g | 0 <= g < |s'.tag| && (s'.tag[g].Table? || s'.tag[g].Data?)
      ensures ParentOk(s', g)
    {
      assert ParentOk(s, g);
    }
    forall r: nat, v: nat | r < |s.tag| && s.tag[r].Root? && UserAddress(s, v)
      ensures Translate(mem', r, v) == Translate(s.mem, r, v)
    {
      TranslateKeeps(s, mem', r, v);
    }
  }

  lemma ExtendedWrite(s0: State, s: State, mem': Memory, root: nat, m: map<nat, Word>, loose: set<nat>)
    requires Extended(s0, s, root, m, loose) && |mem'| == |s.mem|
    requires forall f | 0 <= f < |s.mem| && (s0.bits[f] || IsTable(s.tag[f])) :: mem'[f] == s.mem[f]
    ensures Extended(s0, State(mem', s.tag, s.bits, s.ker), root, m, loose)
  {
    hide EntriesOk, ParentsOk, KernelApart, WordAt, Present, L4, Translate, MappedBy, NoOwnLeaf, KernelWalk;
    forall f: nat | InKernel(s.mem, s.ker, f)
      ensures KernelFrame(s0, f)
    {
      KernelKept(s0, s, root, m, loose);
      InKernelFrame(s0, f);
    }
    WriteInv(s, mem');
  }

  // ---------------------------------------------------------------- conservation

  // A process that was created, grew in any way, and is collected leaves the bitmap as it was, apart from
  // frames that were allocated for it and never mapped.
  lemma LifeConserves(s: State, c: State, s': State, root: nat, m: map<nat, Word>, lost: set<nat>)
    requires Cloned(s, c, root) && Extended(c, s', root, m, lost)
    ensures forall f | 0 <= f < |s.bits| :: TornDown(s', root).bits[f] == (s.bits[f] || f in lost)
    ensures lost == {} ==> TornDown(s', root).bits == s.bits && TornDown(s', root).tag == s.tag
  {
    hide EntriesOk, ParentsOk, KernelApart, WordAt, Translate, MappedBy, FreedSpace, ClearAll, NoOwnLeaf, Translations;
    hide Untouched, Present, L4;
    ExtendedFacts(c, s', root, m, lost);
    TornDownInv(s', root);
    forall f | 0 <= f < |s.bits|
      ensures TornDown(s', root).bits[f] == (s.bits[f] || f in lost)
      ensures f !in lost ==> TornDown(s', root).tag[f] == s.tag[f]
    {
      LifeOfFrame(s, c, s', root, m, lost, f);
    }
  }

  lemma LifeOfFrame(s: State, c: State, s': State, root: nat, m: map<nat, Word>, lost: set<nat>, f: nat)
    requires Cloned(s, c, root) && Extended(c, s', root, m, lost) && f < |s.bits|
    ensures f < |s'.tag| == |s'.bits|
    ensures (s'.bits[f] && !OwnedBy(s'.tag, f, root)) == (s.bits[f] || f in lost)
    ensures f !in lost ==> s.tag[f] == if OwnedBy(s'.tag, f, root) then Unowned else s'.tag[f]
  {
    hide EntriesOk, WordAt, Translate, MappedBy, NoOwnLeaf, Translations, Untouched, Present, L4;
    if s.tag[f].Table? || s.tag[f].Data? { RootAlive(s, f); }
  }

  // The root named in a tag is a live PML4.
  lemma {:induction false} RootAlive(s: State, f: nat)
    requires Inv(s) && f < |s.tag| && (s.tag[f].Table? || s.tag[f].Data?)
    ensures s.tag[f].root < |s.tag| && s.tag[s.tag[f].root].Root?
    decreases 4 - Level(s.tag[f])
  {
    hide WordAt, Present, Huge, Mmio, Frame, EntriesOk, InUse;
    assert ParentOk(s, f);
    var p := s.tag[f].parent;
    if !s.tag[p].Root? { RootAlive(s, p); }
  }

  lemma ExtendedLeaf(s0: State, s: State, root: nat, m: map<nat, Word>, loose: set<nat>, p: nat)
    requires Extended(s0, s, root, m, loose) && p in m && OwnLeaf(m[p])
    ensures Frame(m[p]) < |s.tag| == |s0.bits| && !s0.bits[Frame(m[p])] && s.tag[Frame(m[p])].Data?
  {
    hide EntriesOk, ParentsOk, KernelApart, WordAt, Translate, MappedBy, NoOwnLeaf, OwnLeaf, Frame, L4, KernelSlot;
    hide Untouched;
    AtPage(s0, s, root, m, p);
    HeldFrame(s, root, p * PAGE);
    assert Holds(Translate(s.mem, root, p * PAGE), Frame(m[p])) by { HoldsItself(m[p]); }
  }

  lemma HoldsItself(e: Word)
    requires OwnLeaf(e)
    ensures Holds(Some(e), Frame(e))
  {
  }

  lemma ExtendedLoose(s0: State, s: State, root: nat, m: map<nat, Word>, loose: set<nat>, f: nat)
    requires Extended(s0, s, root, m, loose) && f in loose
    ensures f < |s.tag| == |s0.bits| && !s0.bits[f] && s.tag[f] == Unowned
  {
    hide EntriesOk, ParentsOk, KernelApart, WordAt, Translations, KernelSlot, Untouched, MappedBy;
  }

  // Unmapping a page that was just mapped gives every translation of every address space back exactly when
  // nothing was mapped there before; the frame belongs to nobody again in any case.
  lemma MapThenUnmap(s: State, s1: State, s2: State, root: nat, virt: nat, e: Word)
    requires Mapped(s, s1, root, virt, Some(e)) && Mapped(s1, s2, root, virt, None)
    requires root < |s.tag| && s.tag[root].Root? && UserAddress(s, virt)
    requires forall f: nat :: Holds(Some(e), f) ==> f < |s.tag| && s.bits[f] && s.tag[f] == Unowned
    ensures SameTranslations(s, s2) <==> Translate(s.mem, root, virt).None?
    ensures forall f: nat :: Holds(Some(e), f) ==> f < |s2.tag| && f < |s2.bits| && s2.tag[f] == Unowned && s2.bits[f]
  {
    assert s.ker < |s.mem|;
    assert forall f: nat :: !Holds(None, f);
    hide Translate, Holds, Mapped, Inv;
    MappedAt(s, s1, root, virt, Some(e), root, virt);
    forall r: nat, v: nat | r < |s.tag| && s.tag[r].Root? && UserAddress(s, v)
      ensures Translate(s2.mem, r, v) == if r == root && SamePage(v, virt) then None else Translate(s.mem, r, v)
    {
      MappedAt(s, s1, root, virt, Some(e), r, v);
      MappedAt(s1, s2, root, virt, None, r, v);
      if SamePage(v, virt) { SamePageTranslates(s.mem, root, v, virt); }
    }
    forall v: nat | SamePage(v, virt)
      ensures Translate(s.mem, root, v) == Translate(s.mem, root, virt)
    {
      SamePageTranslates(s.mem, root, v, virt);
    }
    forall f: nat | Holds(Some(e), f)
      ensures f < |s2.tag| && f < |s2.bits| && s2.tag[f] == Unowned && s2.bits[f]
    {
      UnmappedFrame(s, s1, s2, root, virt, e, f);
    }
  }

  ghost predicate SameTranslations(s: State, s': State)
    requires s.ker < |s.mem|
  {
    forall r: nat, v: nat | r < |s.tag| && s.tag[r].Root? && UserAddress(s, v) ::
      Translate(s'.mem, r, v) == Translate(s.mem, r, v)
  }

  // One translation before and after an entry is written.
  lemma MappedAt(s: State, s': State, root: nat, virt: nat, e: Option<Word>, r: nat, v: nat)
    requires Mapped(s, s', root, virt, e) && r < |s.tag| && s.tag[r].Root? && UserAddress(s, v)
    requires root < |s.tag| && s.tag[root].Root? && UserAddress(s, virt)
    requires forall f: nat :: Holds(e, f) ==> f < |s.tag| && s.tag[f] == Unowned
    ensures Translate(s'.mem, r, v) == if r == root && SamePage(v, virt) then e else Translate(s.mem, r, v)
    ensures s'.ker < |s'.mem| && r < |s'.tag| && s'.tag[r].Root? && UserAddress(s', v)
  {
    hide Translate, Holds, EntriesOk, ParentsOk, KernelApart;
    RootKept(s, s', root, virt, e, r);
  }

  lemma RootKept(s: State, s': State, root: nat, virt: nat, e: Option<Word>, r: nat)
    requires Mapped(s, s', root, virt, e) && r < |s.tag| && s.tag[r].Root? && !Holds(e, r) && UserAddress(s, virt)
    requires root < |s.tag| && s.tag[root].Root?
    ensures r < |s'.tag| && s'.tag[r] == s.tag[r]
  {
    HeldFrame(s, root, virt);
    hide Translate, Holds, EntriesOk, ParentsOk, KernelApart, KernelSlot;
  }

  lemma UnmappedFrame(s: State, s1: State, s2: State, root: nat, virt: nat, e: Word, f: nat)
    requires Mapped(s, s1, root, virt, Some(e)) && Mapped(s1, s2, root, virt, None) && Holds(Some(e), f)
    requires Translate(s1.mem, root, virt) == Some(e) && f < |s.tag| && s.bits[f]
    ensures f < |s2.tag| && f < |s2.bits| && s2.tag[f] == Unowned && s2.bits[f]
  {
    hide Translate, EntriesOk, ParentsOk, KernelApart, KernelSlot;
  }
}
