// Four-level page tables (section 5.3 of the AMD64 Architecture Programmer's Manual, Volume 2) held in
// physical memory, the ownership invariant that makes shallow clones of the kernel's PML4 safe, and the
// memory writes that keep it.
module PageTables {
  import opened PhysMemory
  import opened FrameAllocator

  const NX: nat := 0x8000_0000_0000_0000
  const TABLE_FLAGS: nat := 0x7           // present, writable, user
  const CODE_FLAGS: nat := 0x5            // present, user: executable, not writable
  const DATA_FLAGS: nat := 0x7 + NX       // present, writable, user, no-execute
  const READ_FLAGS: nat := 0x1 + NX       // present, no-execute
  const DEVICE_FLAGS: nat := 0x807 + NX   // DATA_FLAGS with the software MMIO bit
  const FRAME_LIMIT: nat := 0x100_0000_0000
  const USER_BASE: nat := 0x2000_0000_0000
  const USER_END: nat := 0x8000_0000_0000
  const DEVIO_BASE: nat := 0x7ff0_0000_0000

  // ---------------------------------------------------------------- entries

  function Low(e: nat): nat { e % PAGE }
  predicate Present(e: nat) { Low(e) % 2 == 1 }
  predicate Writable(e: nat) { Low(e) / 2 % 2 == 1 }
  predicate UserBit(e: nat) { Low(e) / 4 % 2 == 1 }
  predicate Huge(e: nat) { Low(e) / 128 % 2 == 1 }
  predicate Mmio(e: nat) { Low(e) / 2048 % 2 == 1 }
  predicate NoExecute(e: nat) { e / NX % 2 == 1 }
  function Frame(e: nat): (f: nat) ensures f < FRAME_LIMIT { e / PAGE % FRAME_LIMIT }

  // Flag words a caller may put in a leaf: present, not PS, no address bits.
  predicate LeafFlags(fl: nat)
  {
    fl / PAGE % FRAME_LIMIT == 0 && Present(fl) && !Huge(fl) && fl < 2 * NX
  }

  function Entry(f: nat, flags: nat): (e: nat)
    ensures LeafFlags(flags) ==> e < 2 * NX
  {
    assert LeafFlags(flags) ==> f % FRAME_LIMIT * PAGE + flags < 2 * NX by {
      if LeafFlags(flags) { EntryBound(f, flags); }
    }
    f % FRAME_LIMIT * PAGE + flags
  }

  // The address bits of the flags are clear, so adding the frame carries into no other.
  lemma EntryBound(f: nat, fl: nat)
    requires LeafFlags(fl)
    ensures f % FRAME_LIMIT * PAGE + fl < 2 * NX
  {
    var g, q := f % FRAME_LIMIT, fl / PAGE;
    var h := q / FRAME_LIMIT;
    assert q == h * FRAME_LIMIT;
    assert fl == h * (FRAME_LIMIT * PAGE) + Low(fl);
    assert NX == 2048 * (FRAME_LIMIT * PAGE);
    assert g * PAGE + Low(fl) < FRAME_LIMIT * PAGE;
    assert h < 4096;
  }

  lemma EntryReads(f: nat, fl: nat)
    requires LeafFlags(fl)
    ensures var e := Entry(f, fl);
            e < 2 * NX && Frame(e) == f % FRAME_LIMIT && Present(e) && !Huge(e)
            && Mmio(e) == Mmio(fl) && Writable(e) == Writable(fl) && NoExecute(e) == NoExecute(fl)
            && UserBit(e) == UserBit(fl)
  {
    var g, q := f % FRAME_LIMIT, fl / PAGE;
    var h := q / FRAME_LIMIT;
    assert q == h * FRAME_LIMIT;
    assert (g * PAGE + fl) / PAGE == g + q;
    assert Low(Entry(f, fl)) == Low(fl);
    assert fl == h * (FRAME_LIMIT * PAGE) + Low(fl);
    assert NX == 2048 * (FRAME_LIMIT * PAGE);
    var k := g * PAGE + Low(fl);
    assert k < FRAME_LIMIT * PAGE;
    assert (h * (FRAME_LIMIT * PAGE) + k) / (FRAME_LIMIT * PAGE) == h;
    assert fl / (FRAME_LIMIT * PAGE) == h;
    assert Entry(f, fl) / NX == Entry(f, fl) / (FRAME_LIMIT * PAGE) / 2048;
    assert fl / NX == fl / (FRAME_LIMIT * PAGE) / 2048;
  }

  lemma FlagConstants()
    ensures LeafFlags(TABLE_FLAGS) && LeafFlags(CODE_FLAGS) && LeafFlags(DATA_FLAGS) && LeafFlags(READ_FLAGS)
    ensures LeafFlags(DEVICE_FLAGS)
    ensures !Mmio(TABLE_FLAGS) && !Mmio(CODE_FLAGS) && !Mmio(DATA_FLAGS) && !Mmio(READ_FLAGS) && Mmio(DEVICE_FLAGS)
    ensures UserBit(TABLE_FLAGS) && Writable(TABLE_FLAGS) && !NoExecute(TABLE_FLAGS)
    ensures UserBit(CODE_FLAGS) && !Writable(CODE_FLAGS) && !NoExecute(CODE_FLAGS)
    ensures UserBit(DATA_FLAGS) && Writable(DATA_FLAGS) && NoExecute(DATA_FLAGS)
    ensures UserBit(DEVICE_FLAGS) && Writable(DEVICE_FLAGS) && NoExecute(DEVICE_FLAGS)
    ensures !UserBit(READ_FLAGS) && !Writable(READ_FLAGS) && NoExecute(READ_FLAGS)
    ensures !Present(0)
  {
  }

  // ---------------------------------------------------------------- the walk

  function L4(v: nat): (i: nat) ensures i < SLOTS { v / 0x80_0000_0000 % SLOTS }
  function L3(v: nat): (i: nat) ensures i < SLOTS { v / 0x4000_0000 % SLOTS }
  function L2(v: nat): (i: nat) ensures i < SLOTS { v / 0x20_0000 % SLOTS }
  function L1(v: nat): (i: nat) ensures i < SLOTS { v / 0x1000 % SLOTS }

  predicate SamePage(v: nat, w: nat)
  {
    L4(v) == L4(w) && L3(v) == L3(w) && L2(v) == L2(w) && L1(v) == L1(w)
  }

  // Below the canonical boundary the four indices determine the page.
  lemma SamePageIsSameFrameOfAddresses(v: nat, w: nat)
    requires v < USER_END && w < USER_END
    ensures SamePage(v, w) <==> v / PAGE == w / PAGE
  {
    Digits(v);
    Digits(w);
    hide L1, L2, L3, L4;
    if v / PAGE == w / PAGE {
      DigitUnique(L1(v), v / 0x20_0000, L1(w), w / 0x20_0000);
      DigitUnique(L2(v), v / 0x4000_0000, L2(w), w / 0x4000_0000);
      DigitUnique(L3(v), L4(v), L3(w), L4(w));
    }
  }

  lemma DigitUnique(a: nat, q: nat, b: nat, r: nat)
    requires a < 512 && b < 512 && a + 512 * q == b + 512 * r
    ensures a == b && q == r
  {
  }

  lemma Digits(v: nat)
    requires v < USER_END
    ensures v / PAGE == L1(v) + 512 * (v / 0x20_0000)
    ensures v / 0x20_0000 == L2(v) + 512 * (v / 0x4000_0000)
    ensures v / 0x4000_0000 == L3(v) + 512 * L4(v)
  {
    assert v / 0x20_0000 == v / 0x1000 / 512;
    assert v / 0x4000_0000 == v / 0x20_0000 / 512;
    assert v / 0x80_0000_0000 == v / 0x4000_0000 / 512;
    assert v / 0x80_0000_0000 < 512;
  }

  // Word i of frame f; addresses outside RAM read as zero.
  function At(mem: Memory, f: nat, i: nat): Word
    requires i < SLOTS
  {
    if f < |mem| then WordAt(mem[f], i) else 0
  }

  datatype Option<+T> = None | Some(value: T)

  // The leaf entry the kernel's software walks reach for v (PS is looked at on level 2 only).
  function Translate(mem: Memory, root: nat, v: nat): Option<Word>
  {
    var e4 := At(mem, root, L4(v));
    if !Present(e4) then None else
    var e3 := At(mem, Frame(e4), L3(v));
    if !Present(e3) then None else
    var e2 := At(mem, Frame(e3), L2(v));
    if !Present(e2) || Huge(e2) then None else
    var e1 := At(mem, Frame(e2), L1(v));
    if !Present(e1) then None else Some(e1)
  }

  // ---------------------------------------------------------------- ownership

  // Who a frame belongs to. A table or data frame records the one entry that refers to it.
  datatype Tag =
    | Unowned                                                       // free, or the kernel's
    | Root                                                          // a process PML4
    | Table(root: nat, level: nat, parent: nat, slot: nat)          // level 3, 2 or 1
    | Data(root: nat, parent: nat, slot: nat)

  // An own entry above level 1 takes no right away: what ring 3 may do is decided by the leaf.
  predicate OpenTable(e: nat) { UserBit(e) && Writable(e) && !NoExecute(e) }

  datatype State = State(mem: Memory, tag: seq<Tag>, bits: seq<bool>, ker: nat)

  predicate IsTable(t: Tag) { t.Root? || t.Table? }

  function Level(t: Tag): nat
  {
    match t
    case Unowned => 0
    case Root => 4
    case Table(_, level, _, _) => level
    case Data(_, _, _) => 0
  }

  function RootOf(tag: seq<Tag>, f: nat): nat
    requires f < |tag|
  {
    match tag[f]
    case Unowned => 0
    case Root => f
    case Table(r, _, _, _) => r
    case Data(r, _, _) => r
  }

  predicate OwnedBy(tag: seq<Tag>, f: nat, root: nat)
    requires f < |tag|
  {
    tag[f] != Unowned && RootOf(tag, f) == root
  }

  // The tag of the frame that entry i of table t refers to.
  function ChildTag(tag: seq<Tag>, t: nat, i: nat): Tag
    requires t < |tag| && IsTable(tag[t])
  {
    var r, l := RootOf(tag, t), Level(tag[t]);
    if l <= 1 then Data(r, t, i) else Table(r, l - 1, t, i)
  }

  predicate KernelSlot(s: State, i: nat)
    requires s.ker < |s.mem| && i < SLOTS
  {
    Present(WordAt(s.mem[s.ker], i))
  }

  ghost predicate Shape(s: State)
  {
    |s.mem| == |s.tag| == |s.bits| <= MAX_FRAMES && 0 < s.ker < |s.mem| && s.tag[s.ker] == Unowned && s.bits[s.ker]
    && s.tag[0] == Unowned && s.bits[0]
  }

  ghost predicate EntryOk(s: State, t: nat, i: nat)
    requires Shape(s) && t < |s.tag| && IsTable(s.tag[t]) && i < SLOTS
  {
    var e := WordAt(s.mem[t], i);
    if s.tag[t].Root? && KernelSlot(s, i) then e == WordAt(s.mem[s.ker], i)
    else Present(e) ==>
           !Huge(e) && (Level(s.tag[t]) >= 2 ==> OpenTable(e))
           && ((Level(s.tag[t]) == 1 && Mmio(e))
               || (Frame(e) < |s.tag| && s.tag[Frame(e)] == ChildTag(s.tag, t, i)))
  }

  ghost predicate ParentOk(s: State, f: nat)
    requires Shape(s) && f < |s.tag| && (s.tag[f].Table? || s.tag[f].Data?)
  {
    var p, i := s.tag[f].parent, s.tag[f].slot;
    p < |s.tag| && i < SLOTS && IsTable(s.tag[p]) && s.tag[f] == ChildTag(s.tag, p, i)
    && 1 <= Level(s.tag[p]) <= 4 && (s.tag[p].Root? <==> Level(s.tag[p]) == 4)
    && (s.tag[p].Root? ==> !KernelSlot(s, i))
    && Present(WordAt(s.mem[p], i)) && Frame(WordAt(s.mem[p], i)) == f
    && (s.tag[f].Data? ==> !Mmio(WordAt(s.mem[p], i)))
    && (s.tag[f].Table? ==> 1 <= s.tag[f].level <= 3)
  }

  ghost predicate InUse(s: State)
    requires Shape(s)
  {
    forall f | 0 <= f < |s.tag| :: s.tag[f] != Unowned ==> s.bits[f]
  }

  ghost predicate EntriesOk(s: State)
    requires Shape(s)
  {
    forall t, i | 0 <= t < |s.tag| && 0 <= i < SLOTS && IsTable(s.tag[t]) :: EntryOk(s, t, i)
  }

  ghost predicate ParentsOk(s: State)
    requires Shape(s)
  {
    forall f | 0 <= f < |s.tag| && (s.tag[f].Table? || s.tag[f].Data?) :: ParentOk(s, f)
  }

  // ---------------------------------------------------------------- the kernel's own tables

  // The table reached from the kernel's PML4 by the slots of 'path', one a level.
  function KernelWalk(mem: Memory, ker: nat, path: seq<nat>): Option<nat>
  {
    if path == [] then Some(ker)
    else
      var n := |path| - 1;
      match KernelWalk(mem, ker, path[..n])
      case None => None
      case Some(t) => if path[n] < SLOTS then NamedTable(At(mem, t, path[n])) else None
  }

  function NamedTable(e: Word): Option<nat>
  {
    if Present(e) && !Huge(e) then Some(Frame(e)) else None
  }

  // The kernel's PML4 and every table below it, down to level 1.
  ghost predicate InKernel(mem: Memory, ker: nat, f: nat)
  {
    exists path: seq<nat> | |path| <= 3 :: KernelWalk(mem, ker, path) == Some(f)
  }

  // The kernel's tables lie in RAM, are in use and belong to no process.
  ghost predicate KernelApart(s: State)
  {
    forall path: seq<nat> | |path| <= 3 :: KernelWalk(s.mem, s.ker, path).Some? ==>
      KernelFrame(s, KernelWalk(s.mem, s.ker, path).value)
  }

  ghost predicate KernelFrame(s: State, f: nat)
  {
    f < |s.mem| == |s.tag| == |s.bits| && s.tag[f] == Unowned && s.bits[f]
  }

  lemma InKernelFrame(s: State, f: nat)
    requires KernelApart(s) && InKernel(s.mem, s.ker, f)
    ensures KernelFrame(s, f)
  {
  }

  lemma RootInKernel(mem: Memory, ker: nat)
    ensures InKernel(mem, ker, ker)
  {
    assert KernelWalk(mem, ker, []) == Some(ker);
  }

  // Memory that agrees on the kernel's tables holds the same kernel tables.
  lemma {:induction false} SameKernelWalk(s: State, mem': Memory, path: seq<nat>)
    requires KernelApart(s) && |mem'| == |s.mem| && |path| <= 3
    requires forall f | 0 <= f < |s.mem| && InKernel(s.mem, s.ker, f) :: mem'[f] == s.mem[f]
    ensures KernelWalk(mem', s.ker, path) == KernelWalk(s.mem, s.ker, path)
  {
    hide WordAt, NamedTable;
    if path != [] {
      var n := |path| - 1;
      SameKernelWalk(s, mem', path[..n]);
      if KernelWalk(s.mem, s.ker, path[..n]).Some? {
        var t := KernelWalk(s.mem, s.ker, path[..n]).value;
        assert KernelFrame(s, t);
        assert InKernel(s.mem, s.ker, t);
      }
    }
  }

  lemma SameKernel(s: State, mem': Memory)
    requires KernelApart(s) && |mem'| == |s.mem|
    requires forall f | 0 <= f < |s.mem| && InKernel(s.mem, s.ker, f) :: mem'[f] == s.mem[f]
    ensures forall f: nat :: InKernel(mem', s.ker, f) <==> InKernel(s.mem, s.ker, f)
  {
    forall path: seq<nat> | |path| <= 3
      ensures KernelWalk(mem', s.ker, path) == KernelWalk(s.mem, s.ker, path)
    {
      SameKernelWalk(s, mem', path);
    }
  }

  // A change that spares the kernel's tables keeps them apart.
  lemma KernelStaysApart(s: State, s': State)
    requires KernelApart(s) && |s'.mem| == |s.mem| && |s'.tag| == |s'.bits| == |s'.mem| && s'.ker == s.ker
    requires forall f | 0 <= f < |s.mem| && InKernel(s.mem, s.ker, f) ::
               s'.mem[f] == s.mem[f] && s'.tag[f] == Unowned && s'.bits[f]
    ensures KernelApart(s')
  {
    hide KernelWalk;
    forall path: seq<nat> | |path| <= 3 && KernelWalk(s'.mem, s'.ker, path).Some?
      ensures KernelFrame(s', KernelWalk(s'.mem, s'.ker, path).value)
    {
      SameKernelWalk(s, s'.mem, path);
      var f := KernelWalk(s.mem, s.ker, path).value;
      assert KernelFrame(s, f);
      assert InKernel(s.mem, s.ker, f);
    }
  }

  // The ownership invariant: every entry of a process's tables that is not inherited from the kernel
  // refers to a frame that knows this entry as its only parent, and conversely; the kernel's tables are
  // nobody's.
  ghost predicate Inv(s: State)
  {
    Shape(s) && InUse(s) && EntriesOk(s) && ParentsOk(s) && KernelApart(s)
  }

  // An address in a top-level slot the kernel leaves empty.
  predicate UserAddress(s: State, v: nat)
    requires s.ker < |s.mem|
  {
    !KernelSlot(s, L4(v))
  }

  // ---------------------------------------------------------------- the writes

  function PutEntry(mem: Memory, t: nat, i: nat, e: Word): Memory
    requires t < |mem| && i < SLOTS
  {
    mem[t := PutWord(mem[t], i, e)]
  }

  // A fresh zeroed table in frame f, hung from the empty entry i of table t.
  function AddTable(s: State, t: nat, i: nat, f: nat): (s': State)
    requires t < |s.mem| == |s.tag| == |s.bits| && f < |s.mem| && i < SLOTS && IsTable(s.tag[t])
  {
    State(PutEntry(s.mem[f := ZeroPage()], t, i, TableEntry(f)), s.tag[f := ChildTag(s.tag, t, i)], s.bits[f := true],
          s.ker)
  }

  function TableEntry(f: nat): (e: Word)
  {
    assert f % FRAME_LIMIT * PAGE <= (FRAME_LIMIT - 1) * PAGE;
    Entry(f, TABLE_FLAGS)
  }

  ghost predicate CanAddTable(s: State, t: nat, i: nat, f: nat)
  {
    Inv(s) && t < |s.tag| && i < SLOTS && IsTable(s.tag[t]) && Level(s.tag[t]) >= 2
    && !Present(WordAt(s.mem[t], i)) && (s.tag[t].Root? ==> !KernelSlot(s, i))
    && f < |s.tag| && !s.bits[f]
  }

  lemma TableEntryReads(f: nat)
    requires f < FRAME_LIMIT
    ensures var e := TableEntry(f); Present(e) && !Huge(e) && !Mmio(e) && Frame(e) == f && OpenTable(e)
    ensures !Present(0)
  {
    hide Entry, Present, Huge, Mmio, Writable, NoExecute, UserBit, Frame, LeafFlags;
    FlagConstants();
    EntryReads(f, TABLE_FLAGS);
  }

  lemma AddTableReads(s: State, t: nat, i: nat, f: nat)
    requires CanAddTable(s, t, i, f)
    ensures var s' := AddTable(s, t, i, f);
            |s'.mem| == |s.mem| && s'.ker == s.ker && t != f && s.ker != f && s.ker != t
            && (forall g, j | 0 <= g < |s.mem| && 0 <= j < SLOTS ::
                  WordAt(s'.mem[g], j)
                  == if g == f then 0 else if g == t && j == i then TableEntry(f) else WordAt(s.mem[g], j))
            && (forall g | 0 <= g < |s.mem| && g != f && g != t :: s'.mem[g] == s.mem[g])
  {
    hide WordAt, PutWord, Present, TableEntry;
    ZeroPageReads();
    PutWordReads(s.mem[t], i, TableEntry(f));
  }

  lemma AddTableEntry(s: State, t: nat, i: nat, f: nat, g: nat, j: nat)
    requires CanAddTable(s, t, i, f)
    requires g < |s.tag| && j < SLOTS && IsTable(AddTable(s, t, i, f).tag[g])
    ensures Shape(AddTable(s, t, i, f)) && EntryOk(AddTable(s, t, i, f), g, j)
  {
    hide WordAt, PutWord, Present, Huge, Mmio, Frame, TableEntry, PutEntry, KernelApart;
    AddTableReads(s, t, i, f);
    TableEntryReads(f);
    assert s.tag[f] == Unowned;
    if g != f { assert EntryOk(s, g, j); }
  }

  lemma AddTableParent(s: State, t: nat, i: nat, f: nat, g: nat)
    requires CanAddTable(s, t, i, f)
    requires g < |s.tag| && (AddTable(s, t, i, f).tag[g].Table? || AddTable(s, t, i, f).tag[g].Data?)
    ensures Shape(AddTable(s, t, i, f)) && ParentOk(AddTable(s, t, i, f), g)
  {
    hide WordAt, PutWord, Present, Huge, Mmio, Frame, TableEntry, PutEntry, KernelApart;
    AddTableReads(s, t, i, f);
    TableEntryReads(f);
    assert s.tag[f] == Unowned;
    if g != f { assert ParentOk(s, g); }
    if s.tag[t].Table? { assert ParentOk(s, t); }
  }

  lemma AddTableApart(s: State, t: nat, i: nat, f: nat)
    requires CanAddTable(s, t, i, f)
    ensures KernelApart(AddTable(s, t, i, f))
  {
    hide WordAt, PutEntry, EntriesOk, ParentsOk, Present, TableEntry, KernelApart, InKernel;
    AddTableReads(s, t, i, f);
    forall g: nat | InKernel(s.mem, s.ker, g)
      ensures g != f && g != t && KernelFrame(s, g)
    {
      InKernelFrame(s, g);
    }
    KernelStaysApart(s, AddTable(s, t, i, f));
  }

  lemma AddTableInv(s: State, t: nat, i: nat, f: nat)
    requires CanAddTable(s, t, i, f)
    ensures Inv(AddTable(s, t, i, f))
  {
    hide WordAt, PutEntry, EntryOk, ParentOk, Present, TableEntry, KernelApart;
    var s' := AddTable(s, t, i, f);
    AddTableReads(s, t, i, f);
    assert s.tag[f] == Unowned;
    AddTableApart(s, t, i, f);
    forall g, j | 0 <= g < |s'.tag| && 0 <= j < SLOTS && IsTable(s'.tag[g])
      ensures EntryOk(s', g, j)
    {
      AddTableEntry(s, t, i, f, g, j);
    }
    forall g | 0 <= g < |s'.tag| && (s'.tag[g].Table? || s'.tag[g].Data?)
      ensures ParentOk(s', g)
    {
      AddTableParent(s, t, i, f, g);
    }
  }

  lemma AddTableTranslate(s: State, t: nat, i: nat, f: nat, root: nat, v: nat)
    requires CanAddTable(s, t, i, f) && root < |s.tag| && s.tag[root].Root? && UserAddress(s, v)
    ensures Translate(AddTable(s, t, i, f).mem, root, v) == Translate(s.mem, root, v)
  {
    hide WordAt, PutWord, Present, Huge, Mmio, Frame, TableEntry, L4, L3, L2, L1;
    AddTableReads(s, t, i, f);
    TableEntryReads(f);
    WalkTags(s, root, v);
  }

  // A present entry of an own table above level 1 refers to the child that names it as parent.
  lemma OwnEntry(s: State, t: nat, i: nat)
    requires Inv(s) && t < |s.tag| && i < SLOTS && IsTable(s.tag[t]) && Level(s.tag[t]) >= 2
    requires s.tag[t].Root? ==> !KernelSlot(s, i)
    requires Present(WordAt(s.mem[t], i))
    ensures var e := WordAt(s.mem[t], i);
            !Huge(e) && 0 < Frame(e) < |s.tag| && s.tag[Frame(e)] == ChildTag(s.tag, t, i)
  {
    hide WordAt, Present, Huge, Mmio, Frame;
    assert EntryOk(s, t, i);
  }

  // The tables a user address is walked through all belong to the walked address space.
  lemma WalkTags(s: State, root: nat, v: nat)
    requires Inv(s) && root < |s.tag| && s.tag[root].Root? && UserAddress(s, v)
    ensures var e4 := At(s.mem, root, L4(v));
            Present(e4) ==>
              Frame(e4) < |s.tag| && s.tag[Frame(e4)] == Table(root, 3, root, L4(v)) && !Huge(e4) && OpenTable(e4) &&
              var e3 := At(s.mem, Frame(e4), L3(v));
              Present(e3) ==>
                Frame(e3) < |s.tag| && s.tag[Frame(e3)] == Table(root, 2, Frame(e4), L3(v))
                && !Huge(e3) && OpenTable(e3) &&
                var e2 := At(s.mem, Frame(e3), L2(v));
                Present(e2) ==>
                  Frame(e2) < |s.tag| && s.tag[Frame(e2)] == Table(root, 1, Frame(e3), L2(v))
                  && !Huge(e2) && OpenTable(e2) &&
                  var e1 := At(s.mem, Frame(e2), L1(v));
                  Present(e1) ==>
                    !Huge(e1) && (Mmio(e1) || (Frame(e1) < |s.tag| && s.tag[Frame(e1)] == Data(root, Frame(e2), L1(v))))
  {
    hide WordAt, Present, Huge, Mmio, Frame, L4, L3, L2, L1;
    var e4 := At(s.mem, root, L4(v));
    assert EntryOk(s, root, L4(v));
    if Present(e4) {
      assert EntryOk(s, Frame(e4), L3(v));
      var e3 := At(s.mem, Frame(e4), L3(v));
      if Present(e3) {
        assert EntryOk(s, Frame(e3), L2(v));
        var e2 := At(s.mem, Frame(e3), L2(v));
        if Present(e2) {
          assert EntryOk(s, Frame(e2), L1(v));
        }
      }
    }
  }

  // A translation depends on nothing but the tables its address space owns.
  lemma TranslateKeeps(s: State, mem': Memory, root: nat, v: nat)
    requires Inv(s) && root < |s.tag| && s.tag[root].Root? && UserAddress(s, v)
    requires |mem'| == |s.mem|
    requires forall t | 0 <= t < |s.tag| && OwnedBy(s.tag, t, root) && IsTable(s.tag[t]) :: mem'[t] == s.mem[t]
    ensures Translate(mem', root, v) == Translate(s.mem, root, v)
  {
    hide WordAt, Present, Huge, Mmio, Frame, L4, L3, L2, L1;
    WalkTags(s, root, v);
  }

  // ---------------------------------------------------------------- leaves

  predicate OwnLeaf(e: nat) { Present(e) && !Mmio(e) }

  // Entry i of the level-1 table t becomes e: the data frame it referred to loses its owner, the new one
  // gains it.
  function LeafTags(s: State, t: nat, i: nat, e: Word): (tag: seq<Tag>)
    requires t < |s.mem| == |s.tag| && i < SLOTS
    ensures |tag| == |s.tag|
  {
    var was := WordAt(s.mem[t], i);
    var tag := if OwnLeaf(was) && Frame(was) < |s.tag| then s.tag[Frame(was) := Unowned] else s.tag;
    if OwnLeaf(e) && Frame(e) < |s.tag| then tag[Frame(e) := Data(RootOf(s.tag, t), t, i)] else tag
  }

  function SetLeaf(s: State, t: nat, i: nat, e: Word): (s': State)
    requires t < |s.mem| == |s.tag| == |s.bits| && i < SLOTS
  {
    State(PutEntry(s.mem, t, i, e), LeafTags(s, t, i, e), s.bits, s.ker)
  }

  ghost predicate CanSetLeaf(s: State, t: nat, i: nat, e: Word)
  {
    Inv(s) && t < |s.tag| && i < SLOTS && IsTable(s.tag[t]) && Level(s.tag[t]) == 1
    && (Present(e) ==> !Huge(e))
    && (OwnLeaf(e) ==>
          0 < Frame(e) < |s.tag| && s.tag[Frame(e)] == Unowned && s.bits[Frame(e)]
          && !InKernel(s.mem, s.ker, Frame(e)))
  }

  lemma SetLeafReads(s: State, t: nat, i: nat, e: Word)
    requires CanSetLeaf(s, t, i, e)
    ensures var s' := SetLeaf(s, t, i, e);
            |s'.mem| == |s.mem| && s'.ker == s.ker && s.ker != t
            && (forall g, j | 0 <= g < |s.mem| && 0 <= j < SLOTS ::
                  WordAt(s'.mem[g], j) == if g == t && j == i then e else WordAt(s.mem[g], j))
            && (forall g | 0 <= g < |s.mem| && g != t :: s'.mem[g] == s.mem[g])
  {
    hide WordAt, PutWord, Present, LeafTags;
    PutWordReads(s.mem[t], i, e);
  }

  lemma SetLeafTags(s: State, t: nat, i: nat, e: Word)
    requires CanSetLeaf(s, t, i, e)
    ensures var tag', was := LeafTags(s, t, i, e), WordAt(s.mem[t], i);
            && (OwnLeaf(was) ==> Frame(was) < |s.tag| && s.tag[Frame(was)] == Data(RootOf(s.tag, t), t, i))
            && tag'[0] == Unowned && tag'[s.ker] == Unowned
            && (OwnLeaf(e) ==> !InKernel(s.mem, s.ker, Frame(e)) && Frame(e) != s.ker)
            && (forall g | 0 <= g < |s.tag| ::
                  s.tag[g] == Data(RootOf(s.tag, t), t, i) <==> OwnLeaf(was) && g == Frame(was))
            && (forall g | 0 <= g < |s.tag| ::
                  tag'[g] == if OwnLeaf(e) && g == Frame(e) then Data(RootOf(s.tag, t), t, i)
                             else if s.tag[g] == Data(RootOf(s.tag, t), t, i) then Unowned
                             else s.tag[g])
  {
    hide WordAt, Present, Huge, Mmio, Frame;
    var was := WordAt(s.mem[t], i);
    assert EntryOk(s, t, i);
    RootInKernel(s.mem, s.ker);
    forall g | 0 <= g < |s.tag| && s.tag[g] == Data(RootOf(s.tag, t), t, i)
      ensures OwnLeaf(was) && g == Frame(was)
    {
      assert ParentOk(s, g);
    }
  }

  lemma SetLeafEntry(s: State, t: nat, i: nat, e: Word, g: nat, j: nat)
    requires CanSetLeaf(s, t, i, e)
    requires g < |s.tag| && j < SLOTS && IsTable(s.tag[g])
    ensures Shape(SetLeaf(s, t, i, e)) && SetLeaf(s, t, i, e).tag[g] == s.tag[g] && EntryOk(SetLeaf(s, t, i, e), g, j)
  {
    hide WordAt, PutWord, Present, Huge, Mmio, Frame, LeafTags, PutEntry, KernelApart, InKernel;
    SetLeafReads(s, t, i, e);
    SetLeafTags(s, t, i, e);
    assert EntryOk(s, g, j);
  }

  lemma SetLeafParent(s: State, t: nat, i: nat, e: Word, g: nat)
    requires CanSetLeaf(s, t, i, e)
    requires g < |s.tag| && (LeafTags(s, t, i, e)[g].Table? || LeafTags(s, t, i, e)[g].Data?)
    ensures Shape(SetLeaf(s, t, i, e)) && ParentOk(SetLeaf(s, t, i, e), g)
  {
    hide WordAt, PutWord, Present, Huge, Mmio, Frame, LeafTags, PutEntry, KernelApart, InKernel;
    SetLeafReads(s, t, i, e);
    SetLeafTags(s, t, i, e);
    if s.tag[g] != Unowned { assert ParentOk(s, g); }
  }

  lemma SetLeafApart(s: State, t: nat, i: nat, e: Word)
    requires CanSetLeaf(s, t, i, e)
    ensures KernelApart(SetLeaf(s, t, i, e))
  {
    hide WordAt, LeafTags, PutEntry, EntriesOk, ParentsOk, Present, Huge, Mmio, Frame, KernelApart, InKernel;
    SetLeafReads(s, t, i, e);
    SetLeafTags(s, t, i, e);
    forall g: nat | InKernel(s.mem, s.ker, g)
      ensures g != t && KernelFrame(s, g)
    {
      InKernelFrame(s, g);
    }
    KernelStaysApart(s, SetLeaf(s, t, i, e));
  }

  lemma SetLeafInv(s: State, t: nat, i: nat, e: Word)
    requires CanSetLeaf(s, t, i, e)
    ensures Inv(SetLeaf(s, t, i, e))
  {
    hide WordAt, LeafTags, PutEntry, EntryOk, ParentOk, Present, Huge, Mmio, Frame, KernelApart;
    var s' := SetLeaf(s, t, i, e);
    SetLeafReads(s, t, i, e);
    SetLeafTags(s, t, i, e);
    SetLeafApart(s, t, i, e);
    forall g, j | 0 <= g < |s'.tag| && 0 <= j < SLOTS && IsTable(s'.tag[g])
      ensures EntryOk(s', g, j)
    {
      SetLeafEntry(s, t, i, e, g, j);
    }
    forall g | 0 <= g < |s'.tag| && (s'.tag[g].Table? || s'.tag[g].Data?)
      ensures ParentOk(s', g)
    {
      SetLeafParent(s, t, i, e, g);
    }
  }

  // The refinement: writing a leaf changes the translation of exactly one page of one address space.
  lemma SetLeafTranslate(s: State, t: nat, i: nat, e: Word, root: nat, v: nat)
    requires CanSetLeaf(s, t, i, e) && root < |s.tag| && s.tag[root].Root? && UserAddress(s, v)
    ensures var reached := Reaches(s, root, v, t, i);
            Translate(SetLeaf(s, t, i, e).mem, root, v)
            == if reached then (if Present(e) then Some(e) else None) else Translate(s.mem, root, v)
  {
    hide WordAt, PutWord, Present, Huge, Mmio, Frame, L4, L3, L2, L1, LeafTags;
    SetLeafReads(s, t, i, e);
    WalkTags(s, root, v);
  }

  // The walk of v arrives at entry i of table t.
  predicate Reaches(s: State, root: nat, v: nat, t: nat, i: nat)
  {
    var e4 := At(s.mem, root, L4(v));
    var e3 := At(s.mem, Frame(e4), L3(v));
    var e2 := At(s.mem, Frame(e3), L2(v));
    Present(e4) && Present(e3) && Present(e2) && Frame(e2) == t && L1(v) == i
  }

  // A chain of tags down from a root is a walk.
  lemma TagsReach(s: State, root: nat, v: nat, t3: nat, t2: nat, t1: nat)
    requires Inv(s) && root < |s.tag| && s.tag[root].Root? && t3 < |s.tag| && t2 < |s.tag| && t1 < |s.tag|
    requires s.tag[t3] == Table(root, 3, root, L4(v)) && s.tag[t2] == Table(root, 2, t3, L3(v))
    requires s.tag[t1] == Table(root, 1, t2, L2(v))
    ensures Reaches(s, root, v, t1, L1(v))
  {
    hide WordAt, Present, Huge, Mmio, Frame, L4, L3, L2, L1;
    assert ParentOk(s, t3) && ParentOk(s, t2) && ParentOk(s, t1);
  }

  // Back pointers make the path to an entry unique.
  lemma ReachesOnePage(s: State, root: nat, v: nat, root': nat, w: nat, t: nat, i: nat)
    requires Inv(s) && root < |s.tag| && s.tag[root].Root? && UserAddress(s, v)
    requires root' < |s.tag| && s.tag[root'].Root? && UserAddress(s, w)
    requires Reaches(s, root, v, t, i)
    ensures Reaches(s, root', w, t, i) <==> root == root' && SamePage(v, w)
  {
    hide WordAt, Present, Huge, Mmio, Frame, L4, L3, L2, L1;
    WalkTags(s, root, v);
    WalkTags(s, root', w);
  }
}
