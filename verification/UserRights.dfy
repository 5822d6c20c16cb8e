// What the processor lets ring 3 do at an address, from the page-table entries alone (sections 5.3 and 5.6 of the
// AMD64 Architecture Programmer's Manual, Volume 2), and why in a process's own memory the leaf decides it.
module UserRights {
  import opened PhysMemory
  import opened PageTables

  function Index(v: nat, level: nat): (i: nat)
    ensures i < SLOTS
  {
    if level == 4 then L4(v) else if level == 3 then L3(v) else if level == 2 then L2(v) else L1(v)
  }

  // The entries the processor reads for v from a table of this level down. It stops at an entry that is not present
  // and at one that maps a large page.
  function WalkFrom(mem: Memory, table: nat, level: nat, v: nat): (es: seq<Word>)
    ensures |es| > 0
    decreases level
  {
    var e := At(mem, table, Index(v, level));
    if level <= 1 || !Present(e) || (level <= 3 && Huge(e)) then [e] else [e] + WalkFrom(mem, Frame(e), level - 1, v)
  }

  function Walk(mem: Memory, root: nat, v: nat): (es: seq<Word>) { WalkFrom(mem, root, 4, v) }

  // Every entry is present and has the user bit.
  predicate Ring3Reads(mem: Memory, root: nat, v: nat)
  {
    forall e | e in Walk(mem, root, v) :: Present(e) && UserBit(e)
  }

  // A write needs the write bit on every level too, an instruction fetch no no-execute bit on any.
  predicate Ring3Writes(mem: Memory, root: nat, v: nat)
  {
    Ring3Reads(mem, root, v) && forall e | e in Walk(mem, root, v) :: Writable(e)
  }

  predicate Ring3Fetches(mem: Memory, root: nat, v: nat)
  {
    Ring3Reads(mem, root, v) && forall e | e in Walk(mem, root, v) :: !NoExecute(e)
  }

  // Memory for data: ring 3 may read and write every address, and execute none.
  ghost predicate DataMemory(mem: Memory, root: nat, lo: nat, hi: nat)
  {
    forall v | lo <= v < hi ::
      Ring3Reads(mem, root, v) && Ring3Writes(mem, root, v) && !Ring3Fetches(mem, root, v)
  }

  ghost predicate MayRead(mem: Memory, root: nat, lo: nat, hi: nat)
  {
    forall v | lo <= v < hi :: Ring3Reads(mem, root, v)
  }

  lemma FirstOf(e: Word, es: seq<Word>)
    ensures forall x :: x in [e] + es <==> x == e || x in es
  {
  }

  // The entries of a whole walk through own tables.
  lemma WalkEntries(s: State, root: nat, v: nat)
    requires Inv(s) && root < |s.tag| && s.tag[root].Root? && UserAddress(s, v)
    ensures match Translate(s.mem, root, v)
            case None => exists e | e in Walk(s.mem, root, v) :: !Present(e)
            case Some(leaf) =>
              leaf in Walk(s.mem, root, v) && Present(leaf)
              && forall e | e in Walk(s.mem, root, v) :: e == leaf || (Present(e) && OpenTable(e))
  {
    hide WordAt, Present, Huge, Mmio, Frame, L4, L3, L2, L1, OpenTable, EntriesOk, ParentsOk, KernelApart, InUse;
    WalkTags(s, root, v);
    var e4 := At(s.mem, root, L4(v));
    FirstOf(e4, WalkFrom(s.mem, Frame(e4), 3, v));
    if Present(e4) {
      var e3 := At(s.mem, Frame(e4), L3(v));
      FirstOf(e3, WalkFrom(s.mem, Frame(e3), 2, v));
      if Present(e3) {
        var e2 := At(s.mem, Frame(e3), L2(v));
        FirstOf(e2, WalkFrom(s.mem, Frame(e2), 1, v));
      }
    }
  }

  // The rights of ring 3 at a user address are those of the leaf the kernel's own walk finds.
  lemma RightsOfLeaf(s: State, root: nat, v: nat)
    requires Inv(s) && root < |s.tag| && s.tag[root].Root? && UserAddress(s, v)
    ensures var leaf := Translate(s.mem, root, v);
            (Ring3Reads(s.mem, root, v) <==> leaf.Some? && UserBit(leaf.value))
            && (Ring3Writes(s.mem, root, v) <==> leaf.Some? && UserBit(leaf.value) && Writable(leaf.value))
            && (Ring3Fetches(s.mem, root, v) <==> leaf.Some? && UserBit(leaf.value) && !NoExecute(leaf.value))
  {
    hide Walk, Translate, Present, UserBit, Writable, NoExecute, Inv, UserAddress;
    WalkEntries(s, root, v);
  }

  // So they stay where the translation stays.
  lemma RightsFollow(s: State, s': State, root: nat, v: nat)
    requires Inv(s) && root < |s.tag| && s.tag[root].Root? && UserAddress(s, v)
    requires Inv(s') && root < |s'.tag| && s'.tag[root].Root? && UserAddress(s', v)
    requires Translate(s'.mem, root, v) == Translate(s.mem, root, v)
    ensures Ring3Reads(s'.mem, root, v) == Ring3Reads(s.mem, root, v)
    ensures Ring3Writes(s'.mem, root, v) == Ring3Writes(s.mem, root, v)
    ensures Ring3Fetches(s'.mem, root, v) == Ring3Fetches(s.mem, root, v)
  {
    hide Walk, Translate, UserBit, Writable, NoExecute, Inv, UserAddress, Ring3Reads, Ring3Writes, Ring3Fetches;
    RightsOfLeaf(s, root, v);
    RightsOfLeaf(s', root, v);
  }
}
