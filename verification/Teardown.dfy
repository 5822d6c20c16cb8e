// What paging_free_address_space gives back: the list of frames it passes to pmm_free, in order, and the
// proof that under the ownership invariant this list is exactly the address space's own frames, each once.
module Teardown {
  import opened PhysMemory
  import opened FrameAllocator
  import opened PageTables

  // paging_free_subtree from entry i on: the children's frames, then the table itself.
  function FreedSubtree(mem: Memory, t: nat, level: nat, i: nat): seq<nat>
    requires 1 <= level <= 3 && i <= SLOTS
    decreases level, SLOTS - i
  {
    if i == SLOTS then [t]
    else FreedEntry(mem, At(mem, t, i), level) + FreedSubtree(mem, t, level, i + 1)
  }

  function FreedEntry(mem: Memory, e: Word, level: nat): seq<nat>
    requires 1 <= level <= 3
    decreases level, 0
  {
    if !Present(e) || Huge(e) then []
    else if level > 1 then FreedSubtree(mem, Frame(e), level - 1, 0)
    else if Mmio(e) then []
    else [Frame(e)]
  }

  // paging_free_address_space from top-level entry i on.
  function FreedSpace(mem: Memory, root: nat, ker: nat, i: nat): seq<nat>
    requires i <= SLOTS
    decreases SLOTS - i
  {
    if i == SLOTS then [root]
    else
      var e := At(mem, root, i);
      (if !Present(e) || e == At(mem, ker, i) then [] else FreedSubtree(mem, Frame(e), 3, 0))
      + FreedSpace(mem, root, ker, i + 1)
  }

  // The effect of pmm_free on each frame of the list in turn (frame 0 is refused).
  function ClearAll(b: seq<bool>, fs: seq<nat>): (b': seq<bool>)
    ensures |b'| == |b|
  {
    if fs == [] then b
    else
      var b' := ClearAll(b, fs[..|fs| - 1]);
      var f := fs[|fs| - 1];
      if f == 0 then b' else SetRun(b', f, 1, false)
  }

  lemma {:induction false} ClearAllConcat(b: seq<bool>, fs: seq<nat>, gs: seq<nat>)
    ensures ClearAll(b, fs + gs) == ClearAll(ClearAll(b, fs), gs)
  {
    if gs == [] {
      assert fs + gs == fs;
    } else {
      assert (fs + gs)[..|fs + gs| - 1] == fs + gs[..|gs| - 1];
      ClearAllConcat(b, fs, gs[..|gs| - 1]);
    }
  }

  lemma ClearNothing(b: seq<bool>)
    ensures ClearAll(b, []) == b
  {
  }

  ghost predicate NoDup(fs: seq<nat>)
  {
    forall i, j | 0 <= i < j < |fs| :: fs[i] != fs[j]
  }

  lemma {:induction false} ClearAllExact(b: seq<bool>, fs: seq<nat>)
    requires NoDup(fs) && forall f | f in fs :: 0 < f < |b| && b[f]
    ensures forall f | 0 <= f < |b| :: ClearAll(b, fs)[f] == (b[f] && f !in fs)
    ensures CountSet(ClearAll(b, fs)) + |fs| == CountSet(b)
  {
    if fs != [] {
      var gs, f := fs[..|fs| - 1], fs[|fs| - 1];
      LastApart(fs);
      ClearAllExact(b, gs);
      CountUpdate(ClearAll(b, gs), f, false);
      assert SetRun(ClearAll(b, gs), f, 1, false) == ClearAll(b, gs)[f := false];
    }
  }

  lemma LastApart(fs: seq<nat>)
    requires NoDup(fs) && fs != []
    ensures var gs, f := fs[..|fs| - 1], fs[|fs| - 1];
            NoDup(gs) && f in fs && f !in gs && forall g :: g in fs <==> g in gs || g == f
  {
    var gs, f := fs[..|fs| - 1], fs[|fs| - 1];
    assert fs == gs + [f];
    assert forall i | 0 <= i < |gs| :: gs[i] == fs[i];
  }

  lemma NoDupConcat(fs: seq<nat>, gs: seq<nat>)
    requires NoDup(fs) && NoDup(gs) && forall f | f in fs :: f !in gs
    ensures NoDup(fs + gs)
  {
    forall i, j | 0 <= i < j < |fs + gs|
      ensures (fs + gs)[i] != (fs + gs)[j]
    {
      if i < |fs| <= j { assert fs[i] in fs && gs[j - |fs|] in gs; }
    }
  }

  // ---------------------------------------------------------------- who is below whom

  ghost predicate Below4(s: State, f: nat)
    requires Shape(s)
  {
    f < |s.tag| && (s.tag[f].Table? || s.tag[f].Data?)
  }

  // The frame on level l on the way from f up to its root.
  ghost function Ancestor(s: State, f: nat, l: nat): (a: nat)
    requires Inv(s) && Below4(s, f) && Level(s.tag[f]) <= l <= 3
    ensures Below4(s, a) && Level(s.tag[a]) == l && s.tag[a].root == s.tag[f].root
    ensures Level(s.tag[f]) == l ==> a == f
    decreases l - Level(s.tag[f])
  {
    assert ParentOk(s, f);
    if Level(s.tag[f]) == l then f else Ancestor(s, s.tag[f].parent, l)
  }

  lemma {:induction false} AncestorStep(s: State, f: nat, l: nat)
    requires Inv(s) && Below4(s, f) && Level(s.tag[f]) < l <= 3
    ensures Ancestor(s, f, l) == s.tag[Ancestor(s, f, l - 1)].parent
    decreases l - Level(s.tag[f])
  {
    assert ParentOk(s, f);
    if Level(s.tag[f]) < l - 1 { AncestorStep(s, s.tag[f].parent, l); }
  }

  // f hangs below table t (on level l) through an entry numbered i or more.
  ghost predicate Under(s: State, f: nat, t: nat, l: nat, i: nat)
    requires Inv(s) && 1 <= l <= 4
  {
    Below4(s, f) && Level(s.tag[f]) < l &&
    var a := Ancestor(s, f, l - 1);
    s.tag[a].parent == t && s.tag[a].slot >= i
  }

  lemma ChildCovers(s: State, t: nat, l: nat, i: nat, c: nat, f: nat)
    requires Inv(s) && 2 <= l <= 4 && t < |s.tag| && i < SLOTS
    requires c < |s.tag| && s.tag[c].Table? && s.tag[c].level == l - 1 && s.tag[c].parent == t && s.tag[c].slot == i
    ensures f == c || Under(s, f, c, l - 1, 0) <==> Under(s, f, t, l, i) && !Under(s, f, t, l, i + 1)
  {
    hide WordAt, Present, Huge, Mmio, Frame, EntriesOk, KernelApart, InUse;
    if Below4(s, f) && Level(s.tag[f]) < l {
      var a := Ancestor(s, f, l - 1);
      assert ParentOk(s, a) && ParentOk(s, c);
      if Level(s.tag[f]) < l - 1 { AncestorStep(s, f, l - 1); }
    }
  }

  // ---------------------------------------------------------------- the list is exact

  // The part of the list that comes from one entry of an own table.
  ghost predicate EntryExact(s: State, t: nat, l: nat, i: nat, fs: seq<nat>)
    requires Inv(s) && 1 <= l <= 4
  {
    NoDup(fs) && forall f: nat :: f in fs <==> Under(s, f, t, l, i) && !Under(s, f, t, l, i + 1)
  }

  ghost predicate TableExact(s: State, t: nat, l: nat, i: nat, fs: seq<nat>)
    requires Inv(s) && 1 <= l <= 4
  {
    NoDup(fs) && forall f: nat :: f in fs <==> f == t || Under(s, f, t, l, i)
  }

  lemma {:induction false} SubtreeExact(s: State, t: nat, l: nat, i: nat)
    requires Inv(s) && 1 <= l <= 3 && t < |s.tag| && s.tag[t].Table? && s.tag[t].level == l && i <= SLOTS
    ensures TableExact(s, t, l, i, FreedSubtree(s.mem, t, l, i))
    decreases l, SLOTS - i
  {
    hide WordAt, Present, Huge, Mmio, Frame, EntriesOk, ParentsOk, KernelApart, InUse, Under;
    if i == SLOTS {
      NothingPast(s, t, l);
    } else {
      var fs, gs := FreedEntry(s.mem, At(s.mem, t, i), l), FreedSubtree(s.mem, t, l, i + 1);
      SubtreeEntryExact(s, t, l, i);
      SubtreeExact(s, t, l, i + 1);
      Join(s, t, l, i, fs, gs);
    }
  }

  lemma Join(s: State, t: nat, l: nat, i: nat, fs: seq<nat>, gs: seq<nat>)
    requires Inv(s) && 1 <= l <= 4 && t < |s.tag| && IsTable(s.tag[t]) && Level(s.tag[t]) == l
    requires EntryExact(s, t, l, i, fs) && TableExact(s, t, l, i + 1, gs)
    ensures TableExact(s, t, l, i, fs + gs)
  {
    NoDupConcat(fs, gs);
  }

  lemma NothingPast(s: State, t: nat, l: nat)
    requires Inv(s) && 1 <= l <= 4
    ensures forall f: nat :: !Under(s, f, t, l, SLOTS)
  {
  }

  // An entry with no own child has nothing below it.
  lemma NoChild(s: State, t: nat, l: nat, i: nat)
    requires Inv(s) && 1 <= l <= 4 && t < |s.tag| && IsTable(s.tag[t]) && Level(s.tag[t]) == l && i < SLOTS
    requires !Present(WordAt(s.mem[t], i)) || (l == 1 && Mmio(WordAt(s.mem[t], i))) || (l == 4 && KernelSlot(s, i))
    ensures forall f: nat :: Under(s, f, t, l, i) ==> Under(s, f, t, l, i + 1)
  {
    hide WordAt, Present, Huge, Mmio, Frame, EntriesOk, KernelApart, InUse;
    forall f: nat | Under(s, f, t, l, i)
      ensures Under(s, f, t, l, i + 1)
    {
      assert ParentOk(s, Ancestor(s, f, l - 1));
    }
  }

  lemma {:induction false} SubtreeEntryExact(s: State, t: nat, l: nat, i: nat)
    requires Inv(s) && 1 <= l <= 3 && t < |s.tag| && s.tag[t].Table? && s.tag[t].level == l && i < SLOTS
    ensures EntryExact(s, t, l, i, FreedEntry(s.mem, At(s.mem, t, i), l))
    decreases l, 0
  {
    hide WordAt, Present, Huge, Mmio, Frame, EntriesOk, ParentsOk, KernelApart, InUse, Under;
    var e := At(s.mem, t, i);
    if !Present(e) || (l == 1 && Mmio(e)) {
      NoChild(s, t, l, i);
      EntryEmpty(s, t, l, i);
    } else if l > 1 {
      OwnEntry(s, t, i);
      var c := Frame(e);
      SubtreeExact(s, c, l - 1, 0);
      EntryIsSubtree(s, t, l, i, c, FreedSubtree(s.mem, c, l - 1, 0));
    } else {
      LeafExact(s, t, i);
      OneFrame(s, t, i, Frame(e));
      assert FreedEntry(s.mem, e, l) == [Frame(e)];
    }
  }

  lemma OneFrame(s: State, t: nat, i: nat, f0: nat)
    requires Inv(s) && forall f: nat :: f == f0 <==> Under(s, f, t, 1, i) && !Under(s, f, t, 1, i + 1)
    ensures EntryExact(s, t, 1, i, [f0])
  {
    hide Under, EntriesOk, ParentsOk, KernelApart, InUse;
  }

  lemma EntryEmpty(s: State, t: nat, l: nat, i: nat)
    requires Inv(s) && 1 <= l <= 4
    requires forall f: nat :: Under(s, f, t, l, i) ==> Under(s, f, t, l, i + 1)
    ensures EntryExact(s, t, l, i, [])
  {
  }

  lemma EntryIsSubtree(s: State, t: nat, l: nat, i: nat, c: nat, fs: seq<nat>)
    requires Inv(s) && 2 <= l <= 4 && t < |s.tag| && i < SLOTS
    requires c < |s.tag| && s.tag[c].Table? && s.tag[c].level == l - 1 && s.tag[c].parent == t && s.tag[c].slot == i
    requires TableExact(s, c, l - 1, 0, fs)
    ensures EntryExact(s, t, l, i, fs)
  {
    hide WordAt, Present, Huge, Mmio, Frame, EntriesOk, ParentsOk, KernelApart, InUse, Under;
    forall f: nat
      ensures f in fs <==> Under(s, f, t, l, i) && !Under(s, f, t, l, i + 1)
    {
      ChildCovers(s, t, l, i, c, f);
    }
  }

  lemma LeafExact(s: State, t: nat, i: nat)
    requires Inv(s) && t < |s.tag| && s.tag[t].Table? && s.tag[t].level == 1 && i < SLOTS
    requires OwnLeaf(WordAt(s.mem[t], i))
    ensures var e := WordAt(s.mem[t], i);
            !Huge(e) && forall f: nat :: f == Frame(e) <==> Under(s, f, t, 1, i) && !Under(s, f, t, 1, i + 1)
  {
    hide WordAt, Present, Huge, Mmio, Frame, InUse;
    var e := WordAt(s.mem[t], i);
    assert EntryOk(s, t, i);
    forall f: nat
      ensures f == Frame(e) <==> Under(s, f, t, 1, i) && !Under(s, f, t, 1, i + 1)
    {
      if Below4(s, f) { assert ParentOk(s, f); }
    }
  }

  lemma {:induction false} SpaceExactFrom(s: State, root: nat, i: nat)
    requires Inv(s) && root < |s.tag| && s.tag[root].Root? && i <= SLOTS
    ensures TableExact(s, root, 4, i, FreedSpace(s.mem, root, s.ker, i))
    decreases SLOTS - i
  {
    hide WordAt, Present, Huge, Mmio, Frame, InUse, EntriesOk, ParentsOk, KernelApart, FreedSubtree, Under;
    if i == SLOTS {
      NothingPast(s, root, 4);
    } else {
      var e := At(s.mem, root, i);
      var fs := if !Present(e) || e == At(s.mem, s.ker, i) then [] else FreedSubtree(s.mem, Frame(e), 3, 0);
      RootEntryExact(s, root, i);
      SpaceExactFrom(s, root, i + 1);
      Join(s, root, 4, i, fs, FreedSpace(s.mem, root, s.ker, i + 1));
    }
  }

  lemma RootEntryExact(s: State, root: nat, i: nat)
    requires Inv(s) && root < |s.tag| && s.tag[root].Root? && i < SLOTS
    ensures var e := At(s.mem, root, i);
            EntryExact(s, root, 4, i, if !Present(e) || e == At(s.mem, s.ker, i) then []
                       else FreedSubtree(s.mem, Frame(e), 3, 0))
  {
    hide WordAt, Present, Huge, Mmio, Frame, InUse, EntriesOk, KernelApart;
    var e := At(s.mem, root, i);
    if KernelSlot(s, i) { assert EntryOk(s, root, i) by { SharedEntry(s, root, i); } }
    if !Present(e) || e == At(s.mem, s.ker, i) {
      NoChild(s, root, 4, i);
      EntryEmpty(s, root, 4, i);
    } else {
      SharedEntry(s, root, i);
      OwnEntry(s, root, i);
      SubtreeExact(s, Frame(e), 3, 0);
      EntryIsSubtree(s, root, 4, i, Frame(e), FreedSubtree(s.mem, Frame(e), 3, 0));
    }
  }

  // Comparing whole entries tells inherited slots from own ones.
  lemma SharedEntry(s: State, root: nat, i: nat)
    requires Inv(s) && root < |s.tag| && s.tag[root].Root? && i < SLOTS
    ensures EntryOk(s, root, i)
    ensures KernelSlot(s, i) ==> WordAt(s.mem[root], i) == WordAt(s.mem[s.ker], i)
    ensures Present(WordAt(s.mem[root], i)) ==>
              (WordAt(s.mem[root], i) == WordAt(s.mem[s.ker], i) <==> KernelSlot(s, i))
  {
    hide WordAt, Present;
    assert EntryOk(s, root, i);
  }

  // The frames paging_free_address_space frees are the address space's own, each once; none of them is a table
  // the kernel's PML4 reaches.
  lemma SpaceExact(s: State, root: nat)
    requires Inv(s) && root < |s.tag| && s.tag[root].Root?
    ensures var fs := FreedSpace(s.mem, root, s.ker, 0);
            NoDup(fs) && (forall f: nat :: f in fs <==> f < |s.tag| && OwnedBy(s.tag, f, root))
            && (forall f | f in fs :: !InKernel(s.mem, s.ker, f))
  {
    hide WordAt, Present, Huge, Mmio, Frame, InUse, EntriesOk, KernelApart, KernelWalk;
    forall f: nat | f < |s.tag| && OwnedBy(s.tag, f, root)
      ensures !InKernel(s.mem, s.ker, f)
    {
      if InKernel(s.mem, s.ker, f) { InKernelFrame(s, f); }
    }
    SpaceExactFrom(s, root, 0);
    hide Inv, Under, OwnedBy, FreedSpace, InKernel;
    forall f: nat
      ensures f == root || Under(s, f, root, 4, 0) <==> f < |s.tag| && OwnedBy(s.tag, f, root)
    {
      OwnedIsBelow(s, root, f);
    }
  }

  lemma OwnedIsBelow(s: State, root: nat, f: nat)
    requires Inv(s) && root < |s.tag| && s.tag[root].Root?
    ensures f == root || Under(s, f, root, 4, 0) <==> f < |s.tag| && OwnedBy(s.tag, f, root)
  {
    hide WordAt, Present, Huge, Mmio, Frame, InUse, EntriesOk, ParentsOk, KernelApart;
    if Below4(s, f) {
      RevealParent(s, f);
      var a := Ancestor(s, f, 3);
      RevealParent(s, a);
    }
  }

  lemma RevealParent(s: State, f: nat)
    requires Inv(s) && Below4(s, f)
    ensures ParentOk(s, f)
  {
  }

  // ---------------------------------------------------------------- the state afterwards

  function Disowned(tag: seq<Tag>, root: nat): (tag': seq<Tag>)
    ensures |tag'| == |tag|
  {
    seq(|tag|, f requires 0 <= f < |tag| => if OwnedBy(tag, f, root) then Unowned else tag[f])
  }

  function TornDown(s: State, root: nat): State
  {
    State(s.mem, Disowned(s.tag, root), ClearAll(s.bits, FreedSpace(s.mem, root, s.ker, 0)), s.ker)
  }

  lemma FreedCount(s: State, root: nat)
    requires Inv(s) && root < |s.tag| && s.tag[root].Root?
    ensures var fs := FreedSpace(s.mem, root, s.ker, 0); CountSet(ClearAll(s.bits, fs)) + |fs| == CountSet(s.bits)
  {
    hide WordAt, Present, Huge, Mmio, Frame, FreedSpace, ClearAll, EntriesOk, ParentsOk, KernelApart;
    SpaceExact(s, root);
    ClearAllExact(s.bits, FreedSpace(s.mem, root, s.ker, 0));
  }

  lemma TornDownEntry(s: State, root: nat, g: nat, j: nat)
    requires Inv(s) && Shape(TornDown(s, root)) && root < |s.tag| && s.tag[root].Root?
    requires g < |s.tag| && j < SLOTS && IsTable(s.tag[g]) && !OwnedBy(s.tag, g, root)
    ensures EntryOk(TornDown(s, root), g, j)
  {
    hide WordAt, Present, Huge, Mmio, Frame, FreedSpace, ClearAll, InUse, ParentsOk;
    assert EntryOk(s, g, j);
  }

  lemma TornDownParent(s: State, root: nat, g: nat)
    requires Inv(s) && Shape(TornDown(s, root)) && root < |s.tag| && s.tag[root].Root?
    requires g < |s.tag| && (s.tag[g].Table? || s.tag[g].Data?) && !OwnedBy(s.tag, g, root)
    ensures ParentOk(TornDown(s, root), g)
  {
    hide WordAt, Present, Huge, Mmio, Frame, FreedSpace, ClearAll, InUse, EntriesOk, KernelApart;
    assert ParentOk(s, g);
  }

  lemma TornDownInv(s: State, root: nat)
    requires Inv(s) && root < |s.tag| && s.tag[root].Root?
    ensures var s' := TornDown(s, root);
            Inv(s') && (forall f | 0 <= f < |s.bits| :: s'.bits[f] == (s.bits[f] && !OwnedBy(s.tag, f, root)))
            && (forall f: nat | InKernel(s.mem, s.ker, f) :: f < |s.mem| && s'.bits[f] && s'.mem[f] == s.mem[f])
  {
    hide WordAt, FreedSpace, ClearAll, EntryOk, ParentOk, KernelApart, InKernel;
    var s' := TornDown(s, root);
    SpaceExact(s, root);
    ClearAllExact(s.bits, FreedSpace(s.mem, root, s.ker, 0));
    forall f: nat | InKernel(s.mem, s.ker, f)
      ensures KernelFrame(s, f) && f !in FreedSpace(s.mem, root, s.ker, 0)
    {
      InKernelFrame(s, f);
    }
    KernelStaysApart(s, s');
    forall g, j | 0 <= g < |s'.tag| && 0 <= j < SLOTS && IsTable(s'.tag[g])
      ensures EntryOk(s', g, j)
    {
      TornDownEntry(s, root, g, j);
    }
    forall g | 0 <= g < |s'.tag| && (s'.tag[g].Table? || s'.tag[g].Data?)
      ensures ParentOk(s', g)
    {
      TornDownParent(s, root, g);
    }
  }
}
