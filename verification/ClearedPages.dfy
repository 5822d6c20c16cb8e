// What a heap call that failed leaves behind: the pages it had mapped are unmapped again, whatever they held before.
module ClearedPages {
  import opened PhysMemory
  import opened FrameAllocator
  import opened PageTables
  import opened AddressSpaces
  import opened ProcessMemory

  // From s0 to s, the k pages of 'root' from lo on lost their translations; all others are as before, no data frame
  // was taken or given back, and the frames taken are tables of 'root'.
  ghost predicate Cleared(s0: State, s: State, root: nat, lo: nat, k: nat)
  {
    Inv(s0) && Inv(s) && |s.mem| == |s0.mem| && s.ker == s0.ker && root < |s0.tag| && s0.tag[root].Root?
    && (forall i | 0 <= i < SLOTS :: KernelSlot(s, i) == KernelSlot(s0, i))
    && Absent(s0, s, root, lo, k)
    && Untouched(s0, s, root)
    && (forall f | 0 <= f < |s0.mem| && s0.bits[f] :: s.bits[f] && s.tag[f] == s0.tag[f])
    && (forall f | 0 <= f < |s0.mem| && !s0.bits[f] && s.bits[f] :: s.tag[f].Table? && s.tag[f].root == root)
  }

  ghost predicate Absent(s0: State, s: State, root: nat, lo: nat, k: nat)
    requires s0.ker < |s0.mem|
  {
    forall r: nat, v: nat | r < |s0.tag| && s0.tag[r].Root? && v < USER_END && UserAddress(s0, v) ::
      Translate(s.mem, r, v) == if r == root && lo <= v / PAGE < lo + k then None else Translate(s0.mem, r, v)
  }

  // The pages the call may use: none of them holds a frame.
  ghost predicate PagesOpen(s: State, root: nat, lo: nat, k: nat)
    requires s.ker < |s.mem|
  {
    forall p | lo <= p < lo + k :: p * PAGE < USER_END && UserAddress(s, p * PAGE) && NoOwnLeaf(s, root, p * PAGE)
  }

  // None of them holds anything.
  ghost predicate PagesEmpty(s: State, root: nat, lo: nat, k: nat)
    requires s.ker < |s.mem|
  {
    forall p | lo <= p < lo + k ::
      p * PAGE < USER_END && UserAddress(s, p * PAGE) && Translate(s.mem, root, p * PAGE) == None
  }

  // The call restores every translation exactly when no page it had mapped held a leaf before.
  lemma ClearedRestores(s0: State, s: State, root: nat, lo: nat, k: nat)
    requires Cleared(s0, s, root, lo, k) && PagesOpen(s0, root, lo, k)
    ensures SameUserTranslations(s0, s) <==> PagesEmpty(s0, root, lo, k)
    ensures PagesEmpty(s0, root, lo, k) ==> Extended(s0, s, root, map[], {})
  {
    hide Translate, KernelSlot, EntriesOk, ParentsOk, KernelApart, NoOwnLeaf, L4, MappedBy;
    if PagesEmpty(s0, root, lo, k) {
      forall v: nat | v < USER_END && UserAddress(s0, v) && lo <= v / PAGE < lo + k
        ensures Translate(s0.mem, root, v) == None
      {
        PageStart(s0, root, v);
      }
    } else {
      var p :| lo <= p < lo + k && Translate(s0.mem, root, p * PAGE) != None;
      assert p * PAGE / PAGE == p;
      assert Translate(s.mem, root, p * PAGE) != Translate(s0.mem, root, p * PAGE);
    }
  }

  ghost predicate SameUserTranslations(s: State, s': State)
    requires s.ker < |s.mem|
  {
    forall r: nat, v: nat | r < |s.tag| && s.tag[r].Root? && v < USER_END && UserAddress(s, v) ::
      Translate(s'.mem, r, v) == Translate(s.mem, r, v)
  }

  lemma PageStart(s: State, root: nat, v: nat)
    requires v < USER_END
    ensures Translate(s.mem, root, v) == Translate(s.mem, root, v / PAGE * PAGE)
  {
    hide Translate, L4, L3, L2, L1;
    SamePageIsSameFrameOfAddresses(v, v / PAGE * PAGE);
    SamePageTranslates(s.mem, root, v, v / PAGE * PAGE);
  }

  // ---------------------------------------------------------------- the state before the call without those leaves

  // Only leaves of device pages went away.
  ghost predicate Wiped(s0: State, z: State, root: nat, lo: nat, k: nat)
  {
    Cleared(s0, z, root, lo, k) && z.bits == s0.bits && z.tag == s0.tag
  }

  lemma WipedNone(s: State, root: nat, lo: nat)
    requires Inv(s) && root < |s.tag| && s.tag[root].Root?
    ensures Wiped(s, s, root, lo, 0)
  {
    hide Translate, KernelSlot, EntriesOk, ParentsOk, KernelApart;
  }

  lemma WipeOne(s: State, root: nat, p: nat) returns (z: State)
    requires Inv(s) && root < |s.tag| && s.tag[root].Root? && p * PAGE < USER_END && UserAddress(s, p * PAGE)
    requires NoOwnLeaf(s, root, p * PAGE)
    ensures Wiped(s, z, root, p, 1)
  {
    var virt := p * PAGE;
    z := WipeLeaf(s, root, virt);
    hide Translate, KernelSlot, Inv, NoOwnLeaf, L4, L3, L2, L1, Frame, OwnLeaf, SamePage, Untouched, Holds, WordAt;
    assert s.ker < |s.mem| && z.ker < |z.mem| by { KernelInside(s); KernelInside(z); }
    forall r: nat, v: nat | r < |s.tag| && s.tag[r].Root? && v < USER_END && UserAddress(s, v)
      ensures Translate(z.mem, r, v) == if r == root && p <= v / PAGE < p + 1 then None else Translate(s.mem, r, v)
    {
      SamePageIsSameFrameOfAddresses(v, virt);
      assert virt / PAGE == p;
    }
  }

  lemma KernelInside(s: State)
    requires Inv(s)
    ensures s.ker < |s.mem| && |s.tag| == |s.mem| == |s.bits|
  {
  }

  lemma WipeLeaf(s: State, root: nat, virt: nat) returns (z: State)
    requires Inv(s) && root < |s.tag| && s.tag[root].Root? && UserAddress(s, virt) && NoOwnLeaf(s, root, virt)
    ensures Mapped(s, z, root, virt, None) && z.bits == s.bits && z.tag == s.tag
  {
    hide WordAt, PutWord, EntriesOk, ParentsOk, KernelApart, InUse, Present, Huge, Mmio, L4, L3, L2, L1, Low, Frame;
    hide KernelSlot;
    WalkTags(s, root, virt);
    FlagConstants();
    if Translate(s.mem, root, virt) == None {
      z := s;
      forall v: nat | SamePage(v, virt)
        ensures Translate(s.mem, root, v) == None
      {
        SamePageTranslates(s.mem, root, v, virt);
      }
    } else {
      var e4 := At(s.mem, root, L4(virt));
      var e3 := At(s.mem, Frame(e4), L3(virt));
      var e2 := At(s.mem, Frame(e3), L2(virt));
      var t := Frame(e2);
      SetLeafMaps(s, t, L1(virt), 0, root, virt);
      z := SetLeaf(s, t, L1(virt), 0);
    }
  }

  lemma WipedMore(s: State, y: State, z: State, root: nat, lo: nat, k: nat)
    requires Wiped(s, y, root, lo, k) && Wiped(y, z, root, lo + k, 1)
    ensures Wiped(s, z, root, lo, k + 1)
  {
    hide Translate, KernelSlot, EntriesOk, ParentsOk, KernelApart, L4;
    forall r: nat, v: nat | r < |s.tag| && s.tag[r].Root? && v < USER_END && UserAddress(s, v)
      ensures Translate(z.mem, r, v)
              == if r == root && lo <= v / PAGE < lo + (k + 1) then None else Translate(s.mem, r, v)
    {
      assert UserAddress(y, v);
    }
  }

  lemma {:induction false} WipePages(s: State, root: nat, lo: nat, k: nat) returns (z: State)
    requires Inv(s) && root < |s.tag| && s.tag[root].Root? && PagesOpen(s, root, lo, k)
    ensures Wiped(s, z, root, lo, k) && PagesEmpty(z, root, lo, k)
  {
    hide Translate, KernelSlot, Inv, NoOwnLeaf, L4;
    if k == 0 {
      z := s;
      WipedNone(s, root, lo);
      return;
    }
    var y := WipePages(s, root, lo, k - 1);
    var p := lo + k - 1;
    StillOpen(s, y, root, lo, k - 1, p);
    z := WipeOne(y, root, p);
    WipedMore(s, y, z, root, lo, k - 1);
    WipedAt(s, z, root, lo, k, p);
    forall q | lo <= q < lo + k
      ensures q * PAGE < USER_END && UserAddress(z, q * PAGE) && Translate(z.mem, root, q * PAGE) == None
    {
      WipedAt(s, z, root, lo, k, q);
    }
  }

  lemma StillOpen(s: State, y: State, root: nat, lo: nat, k: nat, p: nat)
    requires Wiped(s, y, root, lo, k) && p * PAGE < USER_END && UserAddress(s, p * PAGE) && NoOwnLeaf(s, root, p * PAGE)
    ensures Inv(y) && root < |y.tag| && y.tag[root].Root? && UserAddress(y, p * PAGE) && NoOwnLeaf(y, root, p * PAGE)
  {
    hide Translate, KernelSlot, EntriesOk, ParentsOk, KernelApart, L4, OwnLeaf;
  }

  lemma WipedAt(s: State, z: State, root: nat, lo: nat, k: nat, q: nat)
    requires Wiped(s, z, root, lo, k) && lo <= q < lo + k && q * PAGE < USER_END && UserAddress(s, q * PAGE)
    ensures z.ker < |z.mem| && UserAddress(z, q * PAGE) && Translate(z.mem, root, q * PAGE) == None
  {
    hide Translate, KernelSlot, EntriesOk, ParentsOk, KernelApart, L4;
    assert q * PAGE / PAGE == q;
  }

  // Growth over those pages is growth from the state without their leaves.
  lemma Rebase(s0: State, z: State, s: State, root: nat, lo: nat, k: nat, m: map<nat, Word>)
    requires Wiped(s0, z, root, lo, k) && Extended(s0, s, root, m, {})
    requires (forall p :: p in m <==> lo <= p < lo + k)
    ensures Extended(z, s, root, m, {})
  {
    hide Translate, KernelSlot, EntriesOk, ParentsOk, KernelApart, L4, OwnLeaf, MappedBy, Frame;
    forall p | p in m
      ensures UserAddress(z, p * PAGE) && NoOwnLeaf(z, root, p * PAGE)
    {
      WipedAt(s0, z, root, lo, k, p);
    }
  }

  // With the pages unmapped again, that is all that is left of the call.
  lemma ClearedAfter(s0: State, z: State, s: State, root: nat, lo: nat, k: nat)
    requires Wiped(s0, z, root, lo, k) && Extended(z, s, root, map[], {})
    ensures Cleared(s0, s, root, lo, k)
  {
    hide Translate, KernelSlot, EntriesOk, ParentsOk, KernelApart, L4, OwnLeaf, Frame;
  }
}
