// How far the walk of an address gets, and hence how many tables a mapping has to make: exact counts of the frames
// that page tables take.
module TableDepth {
  import opened PhysMemory
  import opened FrameAllocator
  import opened PageTables

  function Min(a: nat, b: nat): nat { if a <= b then a else b }
  function Max(a: nat, b: nat): nat { if a <= b then b else a }

  // The number of tables below the PML4 on the walk of v.
  function Depth(mem: Memory, root: nat, v: nat): (d: nat)
    ensures d <= 3
  {
    var e4 := At(mem, root, L4(v));
    if !Present(e4) then 0 else
    var e3 := At(mem, Frame(e4), L3(v));
    if !Present(e3) then 1 else
    var e2 := At(mem, Frame(e3), L2(v));
    if !Present(e2) then 2 else 3
  }

  // The number of tables two addresses share once both are mapped.
  function Common(v: nat, w: nat): (c: nat)
    ensures c <= 3
  {
    if L4(v) != L4(w) then 0 else if L3(v) != L3(w) then 1 else if L2(v) != L2(w) then 2 else 3
  }

  // The walk of v has got to table t after d steps and goes on at entry i.
  predicate StepsTo(mem: Memory, root: nat, v: nat, d: nat, t: nat, i: nat)
  {
    var e4 := At(mem, root, L4(v));
    var e3 := At(mem, Frame(e4), L3(v));
    match d
    case 0 => t == root && i == L4(v)
    case 1 => Present(e4) && t == Frame(e4) && i == L3(v)
    case 2 => Present(e4) && Present(e3) && t == Frame(e3) && i == L2(v)
    case _ => false
  }

  // A new table at the end of the walk of 'virt' takes every address one step further that shares it.
  lemma AddTableDepth(s: State, t: nat, i: nat, f: nat, root: nat, virt: nat, d: nat, v: nat)
    requires CanAddTable(s, t, i, f) && root < |s.tag| && s.tag[root].Root? && UserAddress(s, virt) && UserAddress(s, v)
    requires StepsTo(s.mem, root, virt, d, t, i)
    ensures Depth(AddTable(s, t, i, f).mem, root, v) == Max(Depth(s.mem, root, v), Min(Common(virt, v), d + 1))
  {
    hide WordAt, PutWord, Present, Huge, Mmio, Frame, TableEntry, L4, L3, L2, L1;
    AddTableReads(s, t, i, f);
    TableEntryReads(f);
    WalkTags(s, root, virt);
    WalkTags(s, root, v);
  }

  lemma StepsDepth(mem: Memory, root: nat, v: nat, d: nat, t: nat, i: nat)
    requires StepsTo(mem, root, v, d, t, i)
    ensures i < SLOTS && d < 3 && Depth(mem, root, v) >= d && (Present(At(mem, t, i)) <==> Depth(mem, root, v) >= d + 1)
  {
  }

  // A chain of tags down from a root is the beginning of a walk.
  lemma TagsStep(s: State, root: nat, v: nat, t3: nat)
    requires Inv(s) && root < |s.tag| && s.tag[root].Root? && t3 < |s.tag| && s.tag[t3] == Table(root, 3, root, L4(v))
    ensures StepsTo(s.mem, root, v, 1, t3, L3(v))
  {
    hide WordAt, Present, Huge, Mmio, Frame, L4, L3, L2, L1;
    assert ParentOk(s, t3);
  }

  lemma TagsStepTwo(s: State, root: nat, v: nat, t3: nat, t2: nat)
    requires Inv(s) && root < |s.tag| && s.tag[root].Root? && t3 < |s.tag| && t2 < |s.tag|
    requires s.tag[t3] == Table(root, 3, root, L4(v)) && s.tag[t2] == Table(root, 2, t3, L3(v))
    ensures StepsTo(s.mem, root, v, 2, t2, L2(v))
  {
    hide WordAt, Present, Huge, Mmio, Frame, L4, L3, L2, L1;
    assert ParentOk(s, t3) && ParentOk(s, t2);
  }

  lemma SharedDepth(mem: Memory, root: nat, v: nat, w: nat)
    ensures Depth(mem, root, w) >= Min(Common(v, w), Depth(mem, root, v))
  {
    hide WordAt, Present, Frame, L4, L3, L2;
  }

  lemma DepthKeeps(s: State, mem': Memory, root: nat, v: nat)
    requires Inv(s) && root < |s.tag| && s.tag[root].Root? && UserAddress(s, v)
    requires |mem'| == |s.mem|
    requires forall t | 0 <= t < |s.tag| && OwnedBy(s.tag, t, root) && IsTable(s.tag[t]) :: mem'[t] == s.mem[t]
    ensures Depth(mem', root, v) == Depth(s.mem, root, v)
  {
    hide WordAt, Present, Huge, Mmio, Frame, L4, L3, L2, L1;
    WalkTags(s, root, v);
  }

  lemma SetLeafDepth(s: State, t: nat, i: nat, e: Word, root: nat, v: nat)
    requires CanSetLeaf(s, t, i, e) && root < |s.tag| && s.tag[root].Root? && UserAddress(s, v)
    ensures Depth(SetLeaf(s, t, i, e).mem, root, v) == Depth(s.mem, root, v)
  {
    hide WordAt, PutWord, Present, Huge, Mmio, Frame, L4, L3, L2, L1, LeafTags;
    SetLeafReads(s, t, i, e);
    WalkTags(s, root, v);
  }

  // ---------------------------------------------------------------- one walk made complete

  // The tables still missing on the first j steps.
  function Missing(mem: Memory, root: nat, v: nat, j: nat): nat
  {
    if Depth(mem, root, v) >= j then 0 else j - Depth(mem, root, v)
  }

  // Every address got as far as it shares the first j steps of 'virt'.
  ghost predicate Deeper(s: State, s': State, root: nat, virt: nat, j: nat)
    requires s.ker < |s.mem|
  {
    forall v: nat | UserAddress(s, v) :: Depth(s'.mem, root, v) == Max(Depth(s.mem, root, v), Min(Common(virt, v), j))
  }

  // The first j steps of the walk are there, and each table missing before took the lowest free frame.
  ghost predicate Walked(s0: State, s: State, root: nat, virt: nat, j: nat)
  {
    s0.ker < |s0.mem| && Deeper(s0, s, root, virt, j)
    && s.bits == TakeOnes(s0.bits, Missing(s0.mem, root, virt, j))
    && CountSet(s.bits) == CountSet(s0.bits) + Missing(s0.mem, root, virt, j)
  }

  lemma WalkedNone(s: State, root: nat, virt: nat)
    requires s.ker < |s.mem|
    ensures Walked(s, s, root, virt, 0)
  {
    hide Depth, Common;
  }

  lemma WalkedDepth(s0: State, s: State, root: nat, virt: nat, j: nat)
    requires Walked(s0, s, root, virt, j) && UserAddress(s0, virt) && j <= 3
    ensures Depth(s.mem, root, virt) == Max(Depth(s0.mem, root, virt), j)
  {
    hide Depth;
  }

  // The table of the next step was there already.
  lemma WalkedThrough(s0: State, s: State, root: nat, virt: nat, j: nat)
    requires Walked(s0, s, root, virt, j) && UserAddress(s0, virt) && j < 3 && Depth(s.mem, root, virt) >= j + 1
    ensures Walked(s0, s, root, virt, j + 1)
  {
    WalkedDepth(s0, s, root, virt, j);
    hide Depth, Common, UserAddress;
    forall v: nat | UserAddress(s0, v)
      ensures Depth(s.mem, root, v) == Max(Depth(s0.mem, root, v), Min(Common(virt, v), j + 1))
    {
      SharedDepth(s0.mem, root, virt, v);
    }
  }

  // It was made.
  lemma DeeperMade(s0: State, s: State, root: nat, virt: nat, j: nat, t: nat, i: nat, f: nat)
    requires s0.ker < |s0.mem| && Deeper(s0, s, root, virt, j) && UserAddress(s0, virt)
    requires StepsTo(s.mem, root, virt, j, t, i)
    requires CanAddTable(s, t, i, f) && root < |s.tag| && s.tag[root].Root? && |s.mem| == |s0.mem| && s.ker == s0.ker
    requires forall k | 0 <= k < SLOTS :: KernelSlot(s, k) == KernelSlot(s0, k)
    ensures Deeper(s0, AddTable(s, t, i, f), root, virt, j + 1)
  {
    var s' := AddTable(s, t, i, f);
    hide Depth, Common, KernelSlot, CanAddTable, StepsTo, AddTable;
    forall v: nat | UserAddress(s0, v)
      ensures Depth(s'.mem, root, v) == Max(Depth(s0.mem, root, v), Min(Common(virt, v), j + 1))
    {
      AddTableDepth(s, t, i, f, root, virt, j, v);
    }
  }

  lemma OneTaken(b: seq<bool>, f: nat)
    requires LowestRun(b, f, 1)
    ensures f < |b| && TakeRun(b, 1) == b[f := true] && CountSet(b[f := true]) == CountSet(b) + 1
  {
    TakeRunIs(b, f, 1);
    assert SetRun(b, f, 1, true) == b[f := true];
    CountUpdate(b, f, true);
  }

  lemma WalkedMade(s0: State, s: State, root: nat, virt: nat, j: nat, t: nat, i: nat, f: nat)
    requires Walked(s0, s, root, virt, j) && UserAddress(s0, virt) && j < 3 && StepsTo(s.mem, root, virt, j, t, i)
    requires CanAddTable(s, t, i, f) && root < |s.tag| && s.tag[root].Root? && |s.mem| == |s0.mem| && s.ker == s0.ker
    requires forall k | 0 <= k < SLOTS :: KernelSlot(s, k) == KernelSlot(s0, k)
    requires LowestRun(s.bits, f, 1)
    ensures Walked(s0, AddTable(s, t, i, f), root, virt, j + 1)
  {
    hide Depth, KernelSlot, CanAddTable, StepsTo, AddTable, TakeRun, LowestRun, CountSet, UserAddress, At;
    WalkedDepth(s0, s, root, virt, j);
    EmptyStep(s, t, i, f, root, virt, j);
    DeeperMade(s0, s, root, virt, j, t, i, f);
    hide Deeper;
    OneTaken(s.bits, f);
  }

  lemma EmptyStep(s: State, t: nat, i: nat, f: nat, root: nat, virt: nat, j: nat)
    requires StepsTo(s.mem, root, virt, j, t, i) && CanAddTable(s, t, i, f)
    ensures Depth(s.mem, root, virt) == j && AddTable(s, t, i, f).bits == s.bits[f := true]
  {
    StepsDepth(s.mem, root, virt, j, t, i);
    hide Inv, WordAt, PutWord, Present, Huge, Mmio, Frame, TableEntry, L4, L3, L2, Depth, StepsTo;
  }

  // The next step needs a frame and there is none: the whole walk needs more frames than are free.
  lemma WalkedFull(s0: State, s: State, root: nat, virt: nat, j: nat, t: nat, i: nat)
    requires Walked(s0, s, root, virt, j) && UserAddress(s0, virt) && j < 3 && StepsTo(s.mem, root, virt, j, t, i)
    requires !Present(At(s.mem, t, i)) && NoRun(s.bits, 1)
    ensures s.bits == TakeOnes(s0.bits, Missing(s0.mem, root, virt, 3))
    ensures CountSet(s0.bits) + Missing(s0.mem, root, virt, 3) > |s0.bits|
  {
    WalkedDepth(s0, s, root, virt, j);
    StepsDepth(s.mem, root, virt, j, t, i);
    CountFull(s.bits);
    hide Depth, Deeper, CountSet, NoRun, TakeOnes, StepsTo;
    var d := Depth(s0.mem, root, virt);
    TakeOnesMore(s0.bits, j - d, 3 - j);
    FullStays(s.bits, 3 - j);
  }

  lemma FirstStep(mem: Memory, root: nat, v: nat)
    ensures StepsTo(mem, root, v, 0, root, L4(v))
  {
  }

  lemma WalkedBits(s0: State, s: State, root: nat, virt: nat)
    requires Walked(s0, s, root, virt, 3)
    ensures s.bits == TakeOnes(s0.bits, Missing(s0.mem, root, virt, 3))
  {
  }

  lemma WalkedAll(s0: State, s: State, root: nat, virt: nat)
    requires Walked(s0, s, root, virt, 3)
    ensures CountSet(s0.bits) + Missing(s0.mem, root, virt, 3) <= |s0.bits|
  {
    CountAtMost(s.bits);
  }

  // Writing a leaf at the end of the walk changes no depth.
  lemma DeeperLeaf(s0: State, s: State, t: nat, i: nat, e: Word, root: nat, virt: nat)
    requires s0.ker < |s0.mem| && Deeper(s0, s, root, virt, 3) && CanSetLeaf(s, t, i, e)
    requires root < |s.tag| && s.tag[root].Root? && |s.mem| == |s0.mem| && s.ker == s0.ker
    requires forall k | 0 <= k < SLOTS :: KernelSlot(s, k) == KernelSlot(s0, k)
    ensures Deeper(s0, SetLeaf(s, t, i, e), root, virt, 3)
  {
    var s' := SetLeaf(s, t, i, e);
    hide Depth, Common, KernelSlot, CanSetLeaf, SetLeaf;
    forall v: nat | UserAddress(s0, v)
      ensures Depth(s'.mem, root, v) == Max(Depth(s0.mem, root, v), Min(Common(virt, v), 3))
    {
      SetLeafDepth(s, t, i, e, root, v);
    }
  }

  lemma WalkedDeeper(s0: State, s: State, root: nat, virt: nat)
    requires Walked(s0, s, root, virt, 3)
    ensures Deeper(s0, s, root, virt, 3)
  {
  }

  // ---------------------------------------------------------------- pages mapped one after the other

  function PageDepth(mem: Memory, root: nat, p: nat): (d: nat) ensures d <= 3 { Depth(mem, root, p * PAGE) }
  function PageCommon(p: nat, q: nat): (c: nat) ensures c <= 3 { Common(p * PAGE, q * PAGE) }

  function PageSeq(lo: nat, n: nat): (ps: seq<nat>)
    ensures |ps| == n && forall i | 0 <= i < n :: ps[i] == lo + i
  {
    seq(n, i requires 0 <= i < n => lo + i)
  }

  lemma PageSeqMore(lo: nat, n: nat)
    ensures PageSeq(lo, n + 1) == PageSeq(lo, n) + [lo + n]
  {
  }

  // The tables page q shares with the best of the pages in ps.
  function MaxCommon(ps: seq<nat>, q: nat): (c: nat)
    ensures c <= 3
  {
    if ps == [] then 0 else Max(MaxCommon(ps[..|ps| - 1], q), PageCommon(ps[|ps| - 1], q))
  }

  // The tables that mapping the pages of ps one after the other has to make: for each page those that neither were
  // there nor are shared with an earlier page.
  function NewTables(mem: Memory, root: nat, ps: seq<nat>): nat
  {
    if ps == [] then 0
    else
      var before, p := ps[..|ps| - 1], ps[|ps| - 1];
      NewTables(mem, root, before) + 3 - Max(PageDepth(mem, root, p), MaxCommon(before, p))
  }

  lemma NewTablesMore(mem: Memory, root: nat, ps: seq<nat>, p: nat)
    ensures NewTables(mem, root, ps + [p])
            == NewTables(mem, root, ps) + 3 - Max(PageDepth(mem, root, p), MaxCommon(ps, p))
  {
    assert (ps + [p])[..|ps|] == ps;
  }

  lemma {:induction false} NewTablesGrow(mem: Memory, root: nat, ps: seq<nat>, qs: seq<nat>)
    ensures NewTables(mem, root, ps) <= NewTables(mem, root, ps + qs)
  {
    hide NewTables, MaxCommon, PageDepth;
    if qs == [] {
      assert ps + qs == ps;
    } else {
      var q := qs[|qs| - 1];
      NewTablesGrow(mem, root, ps, qs[..|qs| - 1]);
      NewTablesMore(mem, root, ps + qs[..|qs| - 1], q);
      assert ps + qs == ps + qs[..|qs| - 1] + [q];
    }
  }

  // From s0 to s exactly the tables for the pages of ps were made.
  ghost predicate Grew(s0: State, s: State, root: nat, ps: seq<nat>)
    requires s0.ker < |s0.mem|
  {
    forall q: nat | UserAddress(s0, q * PAGE) ::
      PageDepth(s.mem, root, q) == Max(PageDepth(s0.mem, root, q), MaxCommon(ps, q))
  }

  lemma GrewNone(s: State, root: nat)
    requires s.ker < |s.mem|
    ensures Grew(s, s, root, [])
  {
    hide PageDepth;
  }

  lemma GrewMore(s0: State, s: State, s': State, root: nat, ps: seq<nat>, p: nat)
    requires s0.ker < |s0.mem| && Grew(s0, s, root, ps) && s.ker < |s.mem| && Deeper(s, s', root, p * PAGE, 3)
    requires forall k | 0 <= k < SLOTS :: KernelSlot(s, k) == KernelSlot(s0, k)
    ensures Grew(s0, s', root, ps + [p])
  {
    hide Depth, Common, KernelSlot;
    assert (ps + [p])[..|ps|] == ps;
    forall q: nat | UserAddress(s0, q * PAGE)
      ensures PageDepth(s'.mem, root, q) == Max(PageDepth(s0.mem, root, q), MaxCommon(ps + [p], q))
    {
      assert UserAddress(s, q * PAGE);
      assert PageDepth(s.mem, root, q) == Max(PageDepth(s0.mem, root, q), MaxCommon(ps, q));
    }
  }

  // What the next page needs.
  lemma GrewNext(s0: State, s: State, root: nat, ps: seq<nat>, p: nat)
    requires s0.ker < |s0.mem| && Grew(s0, s, root, ps) && UserAddress(s0, p * PAGE)
    ensures NewTables(s0.mem, root, ps + [p]) == NewTables(s0.mem, root, ps) + Missing(s.mem, root, p * PAGE, 3)
  {
    NewTablesMore(s0.mem, root, ps, p);
    assert PageDepth(s.mem, root, p) == Max(PageDepth(s0.mem, root, p), MaxCommon(ps, p));
    hide Depth, Common, MaxCommon;
  }

  // ---------------------------------------------------------------- frames for them

  // The frames that n pages take besides tables: one each when they hold data, none when they are device pages.
  function DataFrames(data: bool, n: nat): nat { if data then n else 0 }

  // Mapping the pages of ps took the lowest free frame for each data page and each new table, and nothing else.
  ghost predicate PagesMade(s0: State, s: State, root: nat, ps: seq<nat>, data: bool)
  {
    var n := DataFrames(data, |ps|) + NewTables(s0.mem, root, ps);
    s0.ker < |s0.mem| && Grew(s0, s, root, ps) && s.bits == TakeOnes(s0.bits, n)
    && CountSet(s.bits) == CountSet(s0.bits) + n
  }

  // There are free frames for these pages and their new tables.
  ghost predicate PagesFit(s: State, root: nat, ps: seq<nat>, data: bool)
  {
    CountSet(s.bits) + DataFrames(data, |ps|) + NewTables(s.mem, root, ps) <= |s.bits|
  }

  // From page lo on, k pages have their frames and the next one does not.
  ghost predicate MostThatFit(s: State, root: nat, lo: nat, k: nat, data: bool)
  {
    PagesFit(s, root, PageSeq(lo, k), data) && !PagesFit(s, root, PageSeq(lo, k + 1), data)
  }

  lemma PagesNone(s: State, root: nat, data: bool)
    requires s.ker < |s.mem|
    ensures PagesMade(s, s, root, [], data)
  {
    GrewNone(s, root);
  }

  lemma PagesMadeFit(s0: State, s: State, root: nat, ps: seq<nat>, data: bool)
    requires PagesMade(s0, s, root, ps, data)
    ensures PagesFit(s0, root, ps, data)
  {
    CountAtMost(s.bits);
  }

  lemma FewerFit(s: State, root: nat, lo: nat, k: nat, n: nat, data: bool)
    requires !PagesFit(s, root, PageSeq(lo, k), data) && k <= n
    ensures !PagesFit(s, root, PageSeq(lo, n), data)
  {
    assert PageSeq(lo, k) + PageSeq(lo + k, n - k) == PageSeq(lo, n);
    hide NewTables, PageSeq, CountSet;
    NewTablesGrow(s.mem, root, PageSeq(lo, k), PageSeq(lo + k, n - k));
  }

  // What the next page takes: its data frame and the tables missing on its walk.
  function PageCost(mem: Memory, root: nat, p: nat, data: bool): nat
  {
    DataFrames(data, 1) + Missing(mem, root, p * PAGE, 3)
  }

  lemma NextPageFits(s0: State, s: State, root: nat, ps: seq<nat>, p: nat, data: bool)
    requires PagesMade(s0, s, root, ps, data) && UserAddress(s0, p * PAGE)
    ensures PagesFit(s0, root, ps + [p], data) <==> CountSet(s.bits) + PageCost(s.mem, root, p, data) <= |s.bits|
  {
    GrewNext(s0, s, root, ps, p);
    hide Missing, NewTables, Grew, CountSet;
  }

  lemma NextPageMade(s0: State, s: State, s': State, root: nat, ps: seq<nat>, p: nat, data: bool)
    requires PagesMade(s0, s, root, ps, data) && UserAddress(s0, p * PAGE) && s.ker < |s.mem|
    requires Deeper(s, s', root, p * PAGE, 3) && forall k | 0 <= k < SLOTS :: KernelSlot(s, k) == KernelSlot(s0, k)
    requires CountSet(s.bits) + PageCost(s.mem, root, p, data) <= |s.bits|
    requires s'.bits == TakeOnes(s.bits, PageCost(s.mem, root, p, data))
    ensures PagesMade(s0, s', root, ps + [p], data)
  {
    hide Missing, NewTables, Grew, CountSet, Deeper, TakeOnes, KernelSlot, UserAddress;
    GrewMore(s0, s, s', root, ps, p);
    PagesTaken(s0, s, root, ps, p, data);
  }

  lemma PagesTaken(s0: State, s: State, root: nat, ps: seq<nat>, p: nat, data: bool)
    requires PagesMade(s0, s, root, ps, data) && UserAddress(s0, p * PAGE)
    requires CountSet(s.bits) + PageCost(s.mem, root, p, data) <= |s.bits|
    ensures var n := DataFrames(data, |ps + [p]|) + NewTables(s0.mem, root, ps + [p]);
            var b := TakeOnes(s.bits, PageCost(s.mem, root, p, data));
            b == TakeOnes(s0.bits, n) && CountSet(b) == CountSet(s0.bits) + n
  {
    hide Missing, NewTables, Grew, CountSet, TakeOnes, UserAddress;
    GrewNext(s0, s, root, ps, p);
    var n, d := DataFrames(data, |ps|) + NewTables(s0.mem, root, ps), PageCost(s.mem, root, p, data);
    TakeOnesMore(s0.bits, n, d);
    TakeOnesCount(s.bits, d);
  }

  // A full bitmap where the pages do not fit is the same as if each had taken what it could.
  lemma FullTaken(s: State, b: seq<bool>, root: nat, ps: seq<nat>)
    requires !PagesFit(s, root, ps, false) && NoRun(b, 1) && |b| == |s.bits|
    ensures b == TakeOnes(s.bits, NewTables(s.mem, root, ps))
  {
    hide CountSet, NewTables, TakeOnes, NoRun;
    var t := TakeOnes(s.bits, NewTables(s.mem, root, ps));
    TakeOnesCount(s.bits, NewTables(s.mem, root, ps));
    CountFull(t);
    CountFull(b);
  }

  // ---------------------------------------------------------------- one sequence of pages after another

  lemma {:induction false} MaxCommonSplit(ps: seq<nat>, qs: seq<nat>, q: nat)
    ensures MaxCommon(ps + qs, q) == Max(MaxCommon(ps, q), MaxCommon(qs, q))
  {
    hide PageCommon;
    if qs == [] {
      assert ps + qs == ps;
    } else {
      MaxCommonSplit(ps, qs[..|qs| - 1], q);
      assert (ps + qs)[..|ps + qs| - 1] == ps + qs[..|qs| - 1];
    }
  }

  ghost predicate UserPages(s: State, ps: seq<nat>)
    requires s.ker < |s.mem|
  {
    forall i | 0 <= i < |ps| :: UserAddress(s, ps[i] * PAGE)
  }

  lemma GrewThen(c: State, s: State, s': State, root: nat, ps: seq<nat>, qs: seq<nat>)
    requires c.ker < |c.mem| && s.ker < |s.mem| && Grew(c, s, root, ps) && Grew(s, s', root, qs)
    requires forall k | 0 <= k < SLOTS :: KernelSlot(s, k) == KernelSlot(c, k)
    ensures Grew(c, s', root, ps + qs)
  {
    hide PageDepth, KernelSlot, MaxCommon;
    forall q: nat | UserAddress(c, q * PAGE)
      ensures PageDepth(s'.mem, root, q) == Max(PageDepth(c.mem, root, q), MaxCommon(ps + qs, q))
    {
      assert UserAddress(s, q * PAGE);
      MaxCommonSplit(ps, qs, q);
    }
  }

  ghost predicate NoTables(s: State, root: nat)
    requires s.ker < |s.mem|
  {
    forall q: nat | UserAddress(s, q * PAGE) :: PageDepth(s.mem, root, q) == 0
  }

  // The tables the pages of qs need in an address space that was empty before the pages of ps were mapped: those they
  // share neither with one of these nor with each other.
  function FreshTables(ps: seq<nat>, qs: seq<nat>): nat
  {
    if qs == [] then 0
    else
      var before, q := qs[..|qs| - 1], qs[|qs| - 1];
      FreshTables(ps, before) + 3 - MaxCommon(ps + before, q)
  }

  lemma {:induction false} FreshTablesBound(ps: seq<nat>, qs: seq<nat>)
    ensures FreshTables(ps, qs) <= 3 * |qs|
  {
    hide MaxCommon;
    if qs != [] { FreshTablesBound(ps, qs[..|qs| - 1]); }
  }

  lemma GrewAt(c: State, s: State, root: nat, ps: seq<nat>, qs: seq<nat>)
    requires c.ker < |c.mem| && NoTables(c, root) && Grew(c, s, root, ps) && UserPages(c, qs) && qs != []
    ensures UserPages(c, qs[..|qs| - 1]) && PageDepth(s.mem, root, qs[|qs| - 1]) == MaxCommon(ps, qs[|qs| - 1])
  {
    hide PageDepth, MaxCommon, KernelSlot, L4;
  }

  lemma {:induction false} FreshTablesAre(c: State, s: State, root: nat, ps: seq<nat>, qs: seq<nat>)
    requires c.ker < |c.mem| && NoTables(c, root) && Grew(c, s, root, ps) && UserPages(c, qs)
    ensures NewTables(s.mem, root, qs) == FreshTables(ps, qs)
  {
    if qs != [] {
      GrewAt(c, s, root, ps, qs);
      hide PageDepth, MaxCommon, Grew, UserPages, NoTables;
      FreshTablesAre(c, s, root, ps, qs[..|qs| - 1]);
      MaxCommonSplit(ps, qs[..|qs| - 1], qs[|qs| - 1]);
    }
  }

  // Only depths count.
  ghost predicate SameDepths(s: State, s': State, root: nat)
    requires s.ker < |s.mem|
  {
    forall q: nat | UserAddress(s, q * PAGE) :: PageDepth(s'.mem, root, q) == PageDepth(s.mem, root, q)
  }

  lemma {:induction false} SameNewTables(s: State, s': State, root: nat, ps: seq<nat>)
    requires s.ker < |s.mem| && SameDepths(s, s', root) && UserPages(s, ps)
    ensures NewTables(s'.mem, root, ps) == NewTables(s.mem, root, ps)
  {
    hide MaxCommon, PageDepth, UserAddress;
    if ps != [] { SameNewTables(s, s', root, ps[..|ps| - 1]); }
  }

  lemma SameGrew(s: State, s1: State, s': State, root: nat, ps: seq<nat>)
    requires s.ker < |s.mem| && s1.ker < |s1.mem| && SameDepths(s, s1, root) && Grew(s1, s', root, ps)
    requires forall k | 0 <= k < SLOTS :: KernelSlot(s1, k) == KernelSlot(s, k)
    ensures Grew(s, s', root, ps)
  {
    hide PageDepth, KernelSlot, MaxCommon;
    forall q: nat | UserAddress(s, q * PAGE)
      ensures PageDepth(s'.mem, root, q) == Max(PageDepth(s.mem, root, q), MaxCommon(ps, q))
    {
      assert UserAddress(s1, q * PAGE);
    }
  }

  // Writing anywhere but into the process's tables changes no depth.
  lemma WrittenDepths(s: State, s': State, root: nat)
    requires Inv(s) && root < |s.tag| && s.tag[root].Root? && |s'.mem| == |s.mem|
    requires forall t | 0 <= t < |s.tag| && OwnedBy(s.tag, t, root) && IsTable(s.tag[t]) :: s'.mem[t] == s.mem[t]
    ensures s.ker < |s.mem| && SameDepths(s, s', root)
  {
    hide Depth, EntriesOk, ParentsOk, KernelApart, UserAddress;
    forall q: nat | UserAddress(s, q * PAGE)
      ensures PageDepth(s'.mem, root, q) == PageDepth(s.mem, root, q)
    {
      DepthKeeps(s, s'.mem, root, q * PAGE);
    }
  }
}
