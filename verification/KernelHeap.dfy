// The kernel heap: one list of blocks, each a 32-byte header and its payload. kmalloc takes the first block that fits
// and grows by arenas of 256 frames; kfree merges neighbours of the list.
module KernelHeap {
  import opened PhysMemory
  import opened FrameAllocator
  import opened Alignment

  const HEADER: nat := 32
  const BOOT: nat := 1024        // frames of the first arena
  const GROW: nat := 256         // frames of every further one

  // A block of the list.
  datatype Block = Block(addr: nat, size: nat, free: bool)

  function End(b: Block): nat { b.addr + HEADER + b.size }

  predicate Apart(a: Block, b: Block) { End(a) <= b.addr || End(b) <= a.addr }

  predicate BlockOk(b: Block) { b.addr > 0 && Aligned16(b.addr) && Aligned16(b.size) }

  // Blocks are aligned and do not overlap.
  ghost predicate Good(bs: seq<Block>)
  {
    (forall i | 0 <= i < |bs| :: BlockOk(bs[i])) && (forall i, j | 0 <= i < j < |bs| :: Apart(bs[i], bs[j]))
  }

  // Each block ends where the next of the list starts.
  ghost predicate Contiguous(bs: seq<Block>)
  {
    forall i | 0 <= i < |bs| - 1 :: Touch(bs, i)
  }

  predicate Touch(bs: seq<Block>, i: nat)
    requires i + 1 < |bs|
  {
    End(bs[i]) == bs[i + 1].addr
  }

  predicate FreePair(bs: seq<Block>, i: nat)
    requires i + 1 < |bs|
  {
    bs[i].free && bs[i + 1].free
  }

  ghost predicate NoFreePair(bs: seq<Block>)
  {
    forall i | 0 <= i < |bs| - 1 :: !FreePair(bs, i)
  }

  // Free neighbours of the list are neighbours in memory.
  ghost predicate PairsTouch(bs: seq<Block>)
  {
    forall i | 0 <= i < |bs| - 1 && FreePair(bs, i) :: Touch(bs, i)
  }

  ghost predicate Live(bs: seq<Block>, b: Block) { b in bs && !b.free }

  // Address a belongs to some block.
  ghost predicate Owned(bs: seq<Block>, a: nat)
  {
    exists i :: 0 <= i < |bs| && bs[i].addr <= a < End(bs[i])
  }

  // ---------------------------------------------------------------- merging

  function Joined(a: Block, b: Block): Block { Block(a.addr, a.size + HEADER + b.size, a.free) }

  // kfree's pass: from the head on, a free block takes in its free successor as often as it can.
  function Merged(bs: seq<Block>): seq<Block>
    decreases |bs|
  {
    if |bs| < 2 then bs
    else if bs[0].free && bs[1].free then Merged([Joined(bs[0], bs[1])] + bs[2..])
    else [bs[0]] + Merged(bs[1..])
  }

  // The pass leaves no two free blocks next to each other on the list.
  lemma {:induction false} MergedNoPair(bs: seq<Block>)
    ensures NoFreePair(Merged(bs))
    ensures (bs != [] ==> Merged(bs) != [] && Merged(bs)[0].addr == bs[0].addr && Merged(bs)[0].free == bs[0].free)
    decreases |bs|
  {
    if |bs| >= 2 {
      if bs[0].free && bs[1].free {
        MergedNoPair([Joined(bs[0], bs[1])] + bs[2..]);
      } else {
        MergedNoPair(bs[1..]);
        var m := Merged(bs[1..]);
        forall i | 0 <= i < |m|
          ensures !FreePair([bs[0]] + m, i)
        {
          if i > 0 { assert !FreePair(m, i - 1); }
        }
      }
    }
  }

  // Live blocks are never changed by it.
  lemma {:induction false} MergedLive(bs: seq<Block>, b: Block)
    ensures Live(Merged(bs), b) <==> Live(bs, b)
    decreases |bs|
  {
    if |bs| >= 2 {
      if bs[0].free && bs[1].free {
        var l := [Joined(bs[0], bs[1])] + bs[2..];
        MergedLive(l, b);
        assert bs == [bs[0], bs[1]] + bs[2..];
      } else {
        MergedLive(bs[1..], b);
        assert bs == [bs[0]] + bs[1..];
      }
    }
  }

  // Joining two blocks that touch keeps the addresses they own, and joining two that do not loses some: the merge is
  // right exactly when the second starts where the first ends.
  lemma JoinExact(a: Block, b: Block)
    requires Apart(a, b)
    ensures (forall x: nat :: Owned([Joined(a, b)], x) <==> Owned([a, b], x)) <==> End(a) == b.addr
  {
    var j := Joined(a, b);
    if End(a) == b.addr {
      forall x: nat
        ensures Owned([j], x) <==> Owned([a, b], x)
      {
        assert [j][0] == j && [a, b][0] == a && [a, b][1] == b;
      }
    } else {
      assert [j][0] == j && [a, b][0] == a && [a, b][1] == b;
      if b.addr > End(a) {
        assert Owned([j], End(a)) && !Owned([a, b], End(a));
      } else {
        assert Owned([a, b], b.addr) && !Owned([j], b.addr);
      }
    }
  }

  lemma OwnedAt(bs: seq<Block>, x: nat, i: nat)
    requires i < |bs| && bs[i].addr <= x < End(bs[i])
    ensures Owned(bs, x)
  {
  }

  lemma OwnedCons(b: Block, rest: seq<Block>, x: nat)
    ensures Owned([b] + rest, x) <==> b.addr <= x < End(b) || Owned(rest, x)
  {
    var bs := [b] + rest;
    assert bs[0] == b;
    if Owned(rest, x) {
      var i :| 0 <= i < |rest| && rest[i].addr <= x < End(rest[i]);
      assert bs[i + 1] == rest[i];
    }
    if Owned(bs, x) {
      var i :| 0 <= i < |bs| && bs[i].addr <= x < End(bs[i]);
      if i > 0 { assert rest[i - 1] == bs[i]; }
    }
  }

  lemma OwnedJoin(a: Block, b: Block, rest: seq<Block>, x: nat)
    requires End(a) == b.addr
    ensures Owned([Joined(a, b)] + rest, x) <==> Owned([a, b] + rest, x)
  {
    OwnedCons(Joined(a, b), rest, x);
    OwnedCons(b, rest, x);
    OwnedCons(a, [b] + rest, x);
    assert [a] + ([b] + rest) == [a, b] + rest;
  }

  // Where free neighbours touch, the pass keeps blocks aligned and apart and owns the same addresses as before.
  lemma {:induction false} MergedGood(bs: seq<Block>)
    requires Good(bs) && PairsTouch(bs)
    ensures Good(Merged(bs)) && forall x: nat :: Owned(Merged(bs), x) <==> Owned(bs, x)
    decreases |bs|
  {
    if |bs| >= 2 {
      if bs[0].free && bs[1].free {
        assert FreePair(bs, 0);
        assert Touch(bs, 0);
        var l := [Joined(bs[0], bs[1])] + bs[2..];
        JoinGood(bs);
        MergedGood(l);
        assert bs == [bs[0], bs[1]] + bs[2..];
        forall x: nat
          ensures Owned(l, x) <==> Owned(bs, x)
        {
          OwnedJoin(bs[0], bs[1], bs[2..], x);
        }
      } else {
        TailOk(bs);
        MergedGood(bs[1..]);
        assert bs == [bs[0]] + bs[1..];
        ConsGood(bs[0], bs[1..], Merged(bs[1..]));
        forall x: nat
          ensures Owned(Merged(bs), x) <==> Owned(bs, x)
        {
          OwnedCons(bs[0], bs[1..], x);
          OwnedCons(bs[0], Merged(bs[1..]), x);
        }
      }
    }
  }

  lemma TailOk(bs: seq<Block>)
    requires Good(bs) && PairsTouch(bs) && bs != []
    ensures Good(bs[1..]) && PairsTouch(bs[1..])
  {
    var l := bs[1..];
    forall i | 0 <= i < |l| - 1 && FreePair(l, i)
      ensures Touch(l, i)
    {
      assert FreePair(bs, i + 1);
      assert Touch(bs, i + 1);
    }
  }

  lemma JoinGood(bs: seq<Block>)
    requires Good(bs) && PairsTouch(bs) && |bs| >= 2 && bs[0].free && bs[1].free && Touch(bs, 0)
    ensures var l := [Joined(bs[0], bs[1])] + bs[2..]; Good(l) && PairsTouch(l)
  {
    var j := Joined(bs[0], bs[1]);
    var l := [j] + bs[2..];
    assert BlockOk(bs[0]) && BlockOk(bs[1]);
    assert BlockOk(j) by { JoinAligned(bs[0].size, bs[1].size); }
    forall k | 1 <= k < |l|
      ensures Apart(j, l[k]) && l[k] == bs[k + 1]
    {
      assert Apart(bs[0], bs[k + 1]) && Apart(bs[1], bs[k + 1]) && BlockOk(bs[k + 1]);
    }
    forall i | 0 <= i < |l| - 1 && FreePair(l, i)
      ensures Touch(l, i)
    {
      assert FreePair(bs, i + 1);
      assert Touch(bs, i + 1);
    }
  }

  // A block apart from a list is apart from any list that owns no more.
  lemma ConsGood(b: Block, rest: seq<Block>, m: seq<Block>)
    requires Good([b] + rest) && Good(m) && forall x: nat :: Owned(m, x) <==> Owned(rest, x)
    ensures Good([b] + m)
  {
    var bs := [b] + rest;
    assert bs[0] == b && BlockOk(b);
    forall k | 0 <= k < |m|
      ensures Apart(b, m[k])
    {
      assert BlockOk(m[k]);
      var x := if b.addr > m[k].addr then b.addr else m[k].addr;
      NotInside(b, rest, x);
      assert m[k].addr <= x < End(m[k]) ==> Owned(m, x);
    }
  }

  lemma NotInside(b: Block, rest: seq<Block>, x: nat)
    requires Good([b] + rest)
    ensures b.addr <= x < End(b) ==> !Owned(rest, x)
  {
    var bs := [b] + rest;
    forall i | 0 <= i < |rest|
      ensures Apart(b, rest[i])
    {
      assert bs[i + 1] == rest[i] && bs[0] == b;
    }
  }

  // Blocks in the order of their addresses.
  ghost predicate Ordered(bs: seq<Block>)
  {
    forall i | 0 <= i < |bs| - 1 :: End(bs[i]) <= bs[i + 1].addr
  }

  // On a list in address order the pass owns the same addresses exactly when all free neighbours touch: over a gap it
  // claims memory that is not the heap's.
  lemma {:induction false} MergedExact(bs: seq<Block>)
    requires Good(bs) && Ordered(bs)
    ensures (forall x: nat :: Owned(Merged(bs), x) <==> Owned(bs, x)) <==> PairsTouch(bs)
  {
    if PairsTouch(bs) {
      MergedGood(bs);
    } else {
      var x := Overreach(bs);
    }
  }

  lemma {:induction false} Overreach(bs: seq<Block>) returns (x: nat)
    requires Ordered(bs) && |bs| >= 2 && !PairsTouch(bs)
    ensures Owned(Merged(bs), x) && !Owned(bs, x) && bs != [] && x >= bs[0].addr
    decreases |bs|
  {
    hide Owned;
    if !FreePair(bs, 0) {
      TailOrdered(bs);
      x := Overreach(bs[1..]);
      assert bs == [bs[0]] + bs[1..];
      OwnedCons(bs[0], bs[1..], x);
      OwnedCons(bs[0], Merged(bs[1..]), x);
    } else if Touch(bs, 0) {
      JoinOrdered(bs);
      x := Overreach([Joined(bs[0], bs[1])] + bs[2..]);
      assert bs == [bs[0], bs[1]] + bs[2..];
      OwnedJoin(bs[0], bs[1], bs[2..], x);
    } else {
      x := GapHere(bs);
    }
  }

  lemma GapHere(bs: seq<Block>) returns (x: nat)
    requires Ordered(bs) && |bs| >= 2 && FreePair(bs, 0) && !Touch(bs, 0)
    ensures Owned(Merged(bs), x) && !Owned(bs, x) && x >= bs[0].addr
  {
    x := End(bs[0]);
    assert End(bs[0]) <= bs[0 + 1].addr;
    var l := [Joined(bs[0], bs[1])] + bs[2..];
    FirstStays(l);
    hide Merged;
    OwnedAt(Merged(l), x, 0);
    assert Merged(bs) == Merged(l) by { MergedJoin(bs); }
    TailStays(bs);
    NotBelow(bs[1..], x);
    assert bs == [bs[0]] + bs[1..];
    OwnedCons(bs[0], bs[1..], x);
  }

  lemma MergedJoin(bs: seq<Block>)
    requires |bs| >= 2 && FreePair(bs, 0)
    ensures Merged(bs) == Merged([Joined(bs[0], bs[1])] + bs[2..])
  {
  }

  lemma TailStays(bs: seq<Block>)
    requires Ordered(bs) && |bs| >= 2
    ensures Ordered(bs[1..]) && End(bs[0]) <= bs[1].addr
  {
    var l := bs[1..];
    forall i | 0 <= i < |l| - 1
      ensures End(l[i]) <= l[i + 1].addr
    {
      assert End(bs[i + 1]) <= bs[(i + 1) + 1].addr;
    }
    assert End(bs[0]) <= bs[0 + 1].addr;
  }

  lemma TailOrdered(bs: seq<Block>)
    requires Ordered(bs) && |bs| >= 2 && !PairsTouch(bs) && !FreePair(bs, 0)
    ensures |bs| >= 3 && Ordered(bs[1..]) && !PairsTouch(bs[1..]) && End(bs[0]) <= bs[1].addr
  {
    TailStays(bs);
    var k :| 0 <= k < |bs| - 1 && FreePair(bs, k) && !Touch(bs, k);
    assert FreePair(bs[1..], k - 1) && !Touch(bs[1..], k - 1);
  }

  lemma JoinOrdered(bs: seq<Block>)
    requires Ordered(bs) && |bs| >= 2 && !PairsTouch(bs) && FreePair(bs, 0) && Touch(bs, 0)
    ensures |bs| >= 3
    ensures var l := [Joined(bs[0], bs[1])] + bs[2..]; Ordered(l) && !PairsTouch(l)
  {
    var l := [Joined(bs[0], bs[1])] + bs[2..];
    forall i | 0 <= i < |l| - 1
      ensures End(l[i]) <= l[i + 1].addr
    {
      assert End(bs[i + 1]) <= bs[(i + 1) + 1].addr;
    }
    var k :| 0 <= k < |bs| - 1 && FreePair(bs, k) && !Touch(bs, k);
    assert FreePair(l, k - 1) && !Touch(l, k - 1);
  }

  // The first block of the pass starts where it did and reaches at least as far.
  lemma {:induction false} FirstStays(bs: seq<Block>)
    requires bs != []
    ensures Merged(bs) != [] && Merged(bs)[0].addr == bs[0].addr && End(Merged(bs)[0]) >= End(bs[0])
    decreases |bs|
  {
    if |bs| >= 2 && bs[0].free && bs[1].free { FirstStays([Joined(bs[0], bs[1])] + bs[2..]); }
  }

  // An ordered list owns nothing below its first block.
  lemma {:induction false} NotBelow(bs: seq<Block>, x: nat)
    requires bs != [] && x < bs[0].addr && Ordered(bs)
    ensures !Owned(bs, x)
    decreases |bs|
  {
    assert bs == [bs[0]] + bs[1..];
    OwnedCons(bs[0], bs[1..], x);
    if |bs| > 1 {
      TailStays(bs);
      NotBelow(bs[1..], x);
    }
  }

  // In one contiguous arena every pair touches, and the pass keeps it contiguous with the same bounds.
  lemma {:induction false} MergedContiguous(bs: seq<Block>)
    requires Contiguous(bs) && bs != []
    ensures PairsTouch(bs) && Contiguous(Merged(bs)) && Merged(bs) != []
    ensures Merged(bs)[0].addr == bs[0].addr && End(Merged(bs)[|Merged(bs)| - 1]) == End(bs[|bs| - 1])
    decreases |bs|
  {
    if |bs| >= 2 {
      assert Touch(bs, 0);
      if bs[0].free && bs[1].free {
        var l := [Joined(bs[0], bs[1])] + bs[2..];
        forall i | 0 <= i < |l| - 1
          ensures Touch(l, i)
        {
          assert Touch(bs, i + 1);
        }
        MergedContiguous(l);
      } else {
        var l := bs[1..];
        forall i | 0 <= i < |l| - 1
          ensures Touch(l, i)
        {
          assert Touch(bs, i + 1);
        }
        MergedContiguous(l);
        var m := Merged(l);
        forall i | 0 <= i < |[bs[0]] + m| - 1
          ensures Touch([bs[0]] + m, i)
        {
          if i > 0 { assert Touch(m, i - 1); }
        }
      }
    }
  }

  // ---------------------------------------------------------------- taking a block

  predicate Fits(b: Block, size: nat) { b.free && b.size >= size }

  ghost predicate NoFit(bs: seq<Block>, size: nat)
  {
    forall i | 0 <= i < |bs| :: !Fits(bs[i], size)
  }

  // Block k is taken: whole, or cut when what is left makes a block of at least 32 bytes.
  function Taken(bs: seq<Block>, k: nat, size: nat): seq<Block>
    requires k < |bs| && Fits(bs[k], size)
  {
    var b := bs[k];
    if b.size >= size + HEADER + 32
    then bs[..k] + [Block(b.addr, size, false),
                    Block(b.addr + HEADER + size, b.size - size - HEADER, true)] + bs[k + 1..]
    else bs[k := b.(free := false)]
  }

  // 256 frames as one free block.
  function NewArena(g: nat): Block { Block(g * PAGE, GROW * PAGE - HEADER, true) }

  // A request without a fit is served from a new arena at the end of the list, on the lowest run of 256 free frames.
  ghost predicate GrownFor(bits: seq<bool>, bits': seq<bool>, bs: seq<Block>, bs': seq<Block>, p: nat, need: nat)
  {
    exists g: nat :: LowestRun(bits, g, GROW) && bits' == SetRun(bits, g, GROW, true)
                     && p == g * PAGE + HEADER && need <= GROW * PAGE - HEADER && bs' == TakenLast(bs, g, need)
  }

  function TakenLast(bs: seq<Block>, g: nat, need: nat): seq<Block>
    requires need <= GROW * PAGE - HEADER
  {
    Taken(bs + [NewArena(g)], |bs|, need)
  }

  // When only the last block of the list can fit, that is the one taken.
  lemma TookTheArena(bits: seq<bool>, bits': seq<bool>, bs: seq<Block>, bs': seq<Block>, p: nat, need: nat, g: nat)
    requires NoFit(bs, need) && LowestRun(bits, g, GROW) && bits' == SetRun(bits, g, GROW, true)
    requires exists k :: 0 <= k < |bs + [NewArena(g)]| && Fits((bs + [NewArena(g)])[k], need)
                         && p == (bs + [NewArena(g)])[k].addr + HEADER && bs' == Taken(bs + [NewArena(g)], k, need)
    ensures GrownFor(bits, bits', bs, bs', p, need)
  {
    hide LowestRun, Taken;
    var l := bs + [NewArena(g)];
    var k :| 0 <= k < |l| && Fits(l[k], need) && p == l[k].addr + HEADER && bs' == Taken(l, k, need);
    assert forall i | 0 <= i < |bs| :: l[i] == bs[i];
    assert k == |bs|;
  }

  // Exactly one block became live: payload p, with room for size bytes.
  ghost predicate Gained(bs: seq<Block>, bs': seq<Block>, p: nat, size: nat)
  {
    p >= HEADER && (forall b | Live(bs, b) :: b.addr != p - HEADER)
    && exists n: Block :: n.addr + HEADER == p && !n.free && size <= n.size < size + HEADER + 32
                          && forall b :: Live(bs', b) <==> Live(bs, b) || b == n
  }

  // What taking keeps: alignment and separation, the addresses owned, contiguity with the bounds, no free pair.
  lemma TakenGood(bs: seq<Block>, k: nat, size: nat)
    requires Good(bs) && k < |bs| && Fits(bs[k], size) && Aligned16(size)
    ensures Good(Taken(bs, k, size))
  {
    var b, t := bs[k], Taken(bs, k, size);
    assert BlockOk(b);
    if b.size >= size + HEADER + 32 {
      JoinAligned(b.addr, size);
      CutAligned(b.size, size);
      forall i | 0 <= i < |t|
        ensures BlockOk(t[i])
      {
        if i > k + 1 { assert t[i] == bs[i - 1]; }
      }
      forall i, j | 0 <= i < j < |t|
        ensures Apart(t[i], t[j])
      {
        var i0, j0 := if i > k then i - 1 else i, if j > k then j - 1 else j;
        if i0 != j0 { assert Apart(bs[i0], bs[j0]); }
      }
    } else {
      forall i | 0 <= i < |t|
        ensures BlockOk(t[i])
      {
        assert BlockOk(bs[i]);
      }
      forall i, j | 0 <= i < j < |t|
        ensures Apart(t[i], t[j])
      {
        assert Apart(bs[i], bs[j]);
      }
    }
  }

  lemma TakenContiguous(bs: seq<Block>, k: nat, size: nat)
    requires Contiguous(bs) && k < |bs| && Fits(bs[k], size)
    ensures var t := Taken(bs, k, size);
            Contiguous(t) && t != [] && t[0].addr == bs[0].addr
            && End(t[|t| - 1]) == End(bs[|bs| - 1])
  {
    var t := Taken(bs, k, size);
    forall i | 0 <= i < |t| - 1
      ensures Touch(t, i)
    {
      if |t| == |bs| || i < k { assert Touch(bs, i); } else if i > k { assert Touch(bs, i - 1); }
    }
  }

  lemma TakenNoPair(bs: seq<Block>, k: nat, size: nat)
    requires NoFreePair(bs) && k < |bs| && Fits(bs[k], size)
    ensures NoFreePair(Taken(bs, k, size))
  {
    var t := Taken(bs, k, size);
    forall i | 0 <= i < |t| - 1
      ensures !FreePair(t, i)
    {
      if |t| == |bs| || i < k { assert !FreePair(bs, i); } else if i > k { assert !FreePair(bs, i - 1); }
    }
  }

  lemma TakenGained(bs: seq<Block>, k: nat, size: nat)
    requires Good(bs) && k < |bs| && Fits(bs[k], size)
    ensures Gained(bs, Taken(bs, k, size), bs[k].addr + HEADER, size)
  {
    var b, t := bs[k], Taken(bs, k, size);
    var n := if b.size >= size + HEADER + 32 then Block(b.addr, size, false) else b.(free := false);
    assert bs == bs[..k] + [b] + bs[k + 1..];
    assert t[k] == n;
    if b.size < size + HEADER + 32 { assert t == bs[..k] + [n] + bs[k + 1..]; }
    forall c | Live(bs, c)
      ensures c.addr != b.addr
    {
      var i :| 0 <= i < |bs| && bs[i] == c;
      assert i < k ==> Apart(bs[i], bs[k]);
      assert i > k ==> Apart(bs[k], bs[i]);
    }
  }

  // ---------------------------------------------------------------- the list in memory

  // heap_node_t; the magic number is constant and not shown.
  datatype Node = Node(size: nat, free: bool, next: nat)

  // head starts the chain of next pointers through the blocks.
  ghost predicate Linked(m: map<nat, Node>, head: nat, bs: seq<Block>)
  {
    head == (if bs == [] then 0 else bs[0].addr)
    && forall i | 0 <= i < |bs| :: LinkedAt(m, bs, i)
  }

  ghost predicate LinkedAt(m: map<nat, Node>, bs: seq<Block>, i: nat)
    requires i < |bs|
  {
    bs[i].addr in m && m[bs[i].addr] == Node(bs[i].size, bs[i].free, if i + 1 < |bs| then bs[i + 1].addr else 0)
  }

  // The headers once block b, whose node is n, is taken.
  function TakenNodes(m: map<nat, Node>, b: Block, size: nat, n: Node): map<nat, Node>
    requires b.size >= size
  {
    if b.size >= size + HEADER + 32
    then m[b.addr + HEADER + size := Node(b.size - size - HEADER, true, n.next)]
          [b.addr := Node(size, false, b.addr + HEADER + size)]
    else m[b.addr := n.(free := false)]
  }

  lemma TakenLinkedAt(m: map<nat, Node>, bs: seq<Block>, k: nat, size: nat, n: Node, i: nat)
    requires k < |bs| && Fits(bs[k], size) && bs[k].addr in m && m[bs[k].addr] == n && i < |Taken(bs, k, size)|
    requires forall j | 0 <= j < |bs| :: LinkedAt(m, bs, j)
    requires forall j | 0 <= j < |bs| && j != k :: Apart(bs[j], bs[k])
    ensures LinkedAt(TakenNodes(m, bs[k], size, n), Taken(bs, k, size), i)
  {
    var t := Taken(bs, k, size);
    var i0 := if |t| > |bs| && i > k then i - 1 else i;
    assert LinkedAt(m, bs, i0) && LinkedAt(m, bs, k);
    assert i0 != k ==> Apart(bs[i0], bs[k]);
  }

  lemma TakenLinked(m: map<nat, Node>, head: nat, bs: seq<Block>, k: nat, size: nat, n: Node)
    requires Linked(m, head, bs) && Good(bs) && k < |bs| && Fits(bs[k], size) && bs[k].addr in m && m[bs[k].addr] == n
    ensures Linked(TakenNodes(m, bs[k], size, n), head, Taken(bs, k, size))
  {
    forall j | 0 <= j < |bs| && j != k
      ensures Apart(bs[j], bs[k])
    {
      assert if j < k then Apart(bs[j], bs[k]) else Apart(bs[k], bs[j]);
    }
    hide Apart, LinkedAt, TakenNodes, Good;
    forall i | 0 <= i < |Taken(bs, k, size)|
      ensures LinkedAt(TakenNodes(m, bs[k], size, n), Taken(bs, k, size), i)
    {
      TakenLinkedAt(m, bs, k, size, n, i);
    }
  }

  class KHeap {
    var mem: map<nat, Node>  // the headers in the heap's memory, by address
    var head: nat            // heap_head; 0 before heap_init
    const pmm: Pmm
    ghost var blocks: seq<Block>

    // The heap's addresses lie in frames the frame allocator has given away.
    ghost predicate Backed()
      reads this, pmm, pmm.bitmap
    {
      forall x: nat | Owned(blocks, x) :: x / PAGE < |pmm.Bits()| && pmm.Bits()[x / PAGE]
    }

    ghost predicate Valid()
      reads this, pmm, pmm.bitmap
    {
      pmm.Valid() && Linked(mem, head, blocks) && Good(blocks) && Backed()
    }

    constructor (p: Pmm)
      requires p.Valid()
      ensures pmm == p && Valid() && blocks == []
    {
      mem, head, pmm, blocks := map[], 0, p, [];
    }

    // heap_init.
    method Init()
      requires Valid() && blocks == []
      modifies this, pmm, pmm.bitmap
      ensures Valid()
      ensures blocks == []
              || (blocks == [Block(head, BOOT * PAGE - HEADER, true)] && Contiguous(blocks) && NoFreePair(blocks))
      ensures blocks == [] <==> NoRun(old(pmm.Bits()), BOOT)
      ensures blocks != [] ==> head % PAGE == 0 && LowestRun(old(pmm.Bits()), head / PAGE, BOOT)
                               && pmm.Bits() == SetRun(old(pmm.Bits()), head / PAGE, BOOT, true)
    {
      ghost var bits := pmm.Bits();
      var a := pmm.Alloc(BOOT);
      if a == 0 { return; }
      head := a;
      mem := mem[a := Node(BOOT * PAGE - HEADER, true, 0)];
      blocks := [Block(a, BOOT * PAGE - HEADER, true)];
      assert LinkedAt(mem, blocks, 0);
      PagesAligned(a, BOOT);
      ArenaBacked(bits, a, BOOT, blocks[0]);
      assert BlockOk(blocks[0]);
    }

    // The block of the list that is tried first and fits, or 0.
    method FindFit(size: nat) returns (cur: nat, ghost k: nat)
      requires Valid()
      ensures cur == 0 <==> NoFit(blocks, size)
      ensures cur != 0 ==>
                k < |blocks| && blocks[k].addr == cur && Fits(blocks[k], size)
                && forall i | 0 <= i < k :: !Fits(blocks[i], size)
    {
      NonZero(blocks);
      cur := head;
      k := 0;
      while cur != 0
        invariant k <= |blocks| && cur == (if k < |blocks| then blocks[k].addr else 0)
        invariant forall i | 0 <= i < k :: !Fits(blocks[i], size)
        decreases |blocks| - k
      {
        assert LinkedAt(mem, blocks, k);
        if mem[cur].free && mem[cur].size >= size { return; }
        k, cur := k + 1, mem[cur].next;
      }
    }

    // kmalloc. Null exactly without a heap, for size 0, or when no block fits and growing cannot help: no run of 256
    // free frames is left, or the request is larger than what such a run adds (then every run is used up in vain), or
    // its rounding wrapped to zero. The payload has room for the rounded size, which covers the request exactly when
    // it did not wrap.
    method Kmalloc(size: nat) returns (p: nat)
      requires Valid() && size < WORD
      modifies this, pmm, pmm.bitmap
      ensures Valid() && head == old(head) && p % 16 == 0
      ensures p == 0 <==> head == 0 || size == 0
                          || (NoFit(old(blocks), Rounded(size))
                              && (Rounded(size) == 0 || Rounded(size) > GROW * PAGE - HEADER
                                  || NoRun(old(pmm.Bits()), GROW)))
      ensures p == 0 ==> forall b :: Live(blocks, b) <==> Live(old(blocks), b)
      ensures p == 0 && head != 0 && size != 0 && Rounded(size) != 0 ==> NoRun(pmm.Bits(), GROW)
      ensures p != 0 ==> Gained(old(blocks), blocks, p, Rounded(size))
      ensures size != 0 && !NoFit(old(blocks), Rounded(size)) ==>
                pmm.Bits() == old(pmm.Bits())
                && exists k ::
                  0 <= k < |old(blocks)| && Fits(old(blocks)[k], Rounded(size))
                  && (forall i | 0 <= i < k :: !Fits(old(blocks)[i], Rounded(size)))
                               && p == old(blocks)[k].addr + HEADER && blocks == Taken(old(blocks), k, Rounded(size))
      ensures head != 0 && size != 0 && NoFit(old(blocks), Rounded(size)) && p != 0 ==>
                GrownFor(old(pmm.Bits()), pmm.Bits(), old(blocks), blocks, p, Rounded(size))
      decreases |pmm.Bits()| - CountSet(pmm.Bits())
    {
      hide Good, Linked, Owned, Gained, NoFit, Taken, Rounded, GrownFor, LowestRun, LowFirst;
      HeadNone(mem, head, blocks, Rounded(size));
      if head == 0 || size == 0 { return 0; }
      RoundedCovers(size);
      var need := Rounded(size);
      ghost var bs := blocks;
      var cur, k := FindFit(need);
      if cur != 0 {
        Take(cur, need, k);
        p := cur + HEADER;
        GoodAt(bs, k);
      } else {
        CountAtMost(pmm.Bits());
        ghost var bits := pmm.Bits();
        var grown, g := Grow();
        if grown {
          CountAtMost(pmm.Bits());
          GrownFits(bs, blocks[|bs|], need);
          ghost var bs1 := blocks;
          RoundedTwice(size);
          p := Kmalloc(need);
          if p != 0 {
            GainedFrom(bs, bs1, blocks, p, need);
            TookTheArena(bits, pmm.Bits(), bs, blocks, p, need, g);
          }
        } else {
          p := 0;
        }
      }
    }

    // The block at cur, the k-th of the list, is taken.
    method Take(cur: nat, size: nat, ghost k: nat)
      requires Valid() && k < |blocks| && blocks[k].addr == cur && Fits(blocks[k], size) && Aligned16(size)
      modifies this
      ensures Valid() && head == old(head) && blocks == Taken(old(blocks), k, size)
      ensures Gained(old(blocks), blocks, cur + HEADER, size)
    {
      ghost var m := mem;
      assert LinkedAt(mem, blocks, k);
      var n := mem[cur];
      TakenLinked(m, head, blocks, k, size, n);
      TakenGood(blocks, k, size);
      TakenGained(blocks, k, size);
      TakenOwned(blocks, k, size);
      hide Good, Owned, Gained;
      if n.size >= size + HEADER + 32 {
        var split := cur + HEADER + size;
        mem := mem[split := Node(n.size - size - HEADER, true, n.next)];
        mem := mem[cur := Node(size, false, split)];
      } else {
        mem := mem[cur := n.(free := false)];
      }
      blocks := Taken(blocks, k, size);
    }

    // One more arena at the end of the list.
    method Grow() returns (grown: bool, ghost g: nat)
      requires Valid() && blocks != []
      modifies this, pmm, pmm.bitmap
      ensures Valid() && head == old(head) && |pmm.Bits()| == |old(pmm.Bits())|
      ensures grown <==> !NoRun(old(pmm.Bits()), GROW)
      ensures !grown ==> blocks == old(blocks) && pmm.Bits() == old(pmm.Bits())
      ensures grown ==> blocks == old(blocks) + [NewArena(g)] && LowestRun(old(pmm.Bits()), g, GROW)
                        && pmm.Bits() == SetRun(old(pmm.Bits()), g, GROW, true)
                        && CountSet(pmm.Bits()) == CountSet(old(pmm.Bits())) + GROW
    {
      hide Good, Owned, LowFirst;
      ghost var bits, bs, m := pmm.Bits(), blocks, mem;
      var more := pmm.Alloc(GROW);
      g := more / PAGE;
      if more == 0 { return false, g; }
      ghost var n := NewArena(g);
      CountSetRun(bits, more / PAGE, GROW);
      PagesAligned(more, GROW);
      ArenaBacked(bits, more, GROW, n);
      ArenaApart(bs, bits, n);
      var last := Last();
      mem := mem[more := Node(GROW * PAGE - HEADER, true, 0)];
      mem := mem[last := mem[last].(next := more)];
      AppendLinked(m, head, bs, n);
      blocks := blocks + [n];
      OwnedAppend(bs, n);
      return true, g;
    }

    method Last() returns (last: nat)
      requires Linked(mem, head, blocks) && Good(blocks) && blocks != []
      ensures last == blocks[|blocks| - 1].addr && last in mem
    {
      NonZero(blocks);
      assert LinkedAt(mem, blocks, 0);
      last := head;
      ghost var k := 0;
      while mem[last].next != 0
        invariant k < |blocks| && last == blocks[k].addr && LinkedAt(mem, blocks, k)
        decreases |blocks| - k
      {
        k, last := k + 1, mem[last].next;
        assert LinkedAt(mem, blocks, k);
      }
    }

    // kfree: null and pointers to no block are ignored. Otherwise the block is freed and one pass merges free
    // neighbours of the list; the heap stays as it should be when these are neighbours in memory.
    method Kfree(p: nat)
      requires Valid()
      modifies this
      ensures Linked(mem, head, blocks) && head == old(head)
      ensures (forall i | 0 <= i < |old(blocks)| :: old(blocks)[i].addr + HEADER != p) ==> blocks == old(blocks)
      ensures forall i | 0 <= i < |old(blocks)| && old(blocks)[i].addr + HEADER == p ::
                var freed := old(blocks)[i := old(blocks)[i].(free := true)];
                blocks == Merged(freed) && NoFreePair(blocks)
                && (PairsTouch(freed) ==> Valid())
                && forall b :: Live(blocks, b) <==> Live(old(blocks), b) && b != old(blocks)[i]
    {
      if p == 0 { return; }
      ghost var bs, m := blocks, mem;
      var cur := head;
      ghost var k := 0;
      NonZero(bs);
      while cur != 0
        invariant k <= |bs| && cur == (if k < |bs| then bs[k].addr else 0) && mem == m && blocks == bs
        invariant head == old(head)
        invariant forall i | 0 <= i < k :: bs[i].addr + HEADER != p
        decreases |bs| - k
      {
        assert LinkedAt(mem, bs, k);
        if cur + HEADER == p {
          mem := mem[cur := mem[cur].(free := true)];
          blocks := bs[k := bs[k].(free := true)];
          FreedFacts(m, head, bs, k);
          MergePass();
          MergedNoPair(bs[k := bs[k].(free := true)]);
          AfterFree(bs, k);
          OnlyOne(bs, k);
          return;
        }
        k, cur := k + 1, mem[cur].next;
      }
    }

    // As long as every request finds a block in the first arena, any run of kmalloc and kfree (of whatever pointers)
    // keeps its blocks tiling exactly that arena, with no two free blocks next to each other. 'served' counts the
    // calls made before the first request without a fit.
    method Serve(calls: seq<Call>) returns (served: nat)
      requires Valid() && blocks != [] && Contiguous(blocks) && NoFreePair(blocks)
      modifies this, pmm, pmm.bitmap
      ensures Valid() && served <= |calls| && pmm.Bits() == old(pmm.Bits())
      ensures Arena(blocks, old(blocks[0].addr), old(End(blocks[|blocks| - 1]))) && NoFreePair(blocks)
      ensures served < |calls| ==> calls[served].Request? && NoFit(blocks, Rounded(calls[served].size))
    {
      hide Good, Linked, Owned, NoFit, Rounded, NoFreePair, Arena;
      ghost var lo, hi := blocks[0].addr, End(blocks[|blocks| - 1]);
      served := 0;
      MakeArena(blocks);
      while served < |calls|
        invariant served <= |calls| && Valid() && Arena(blocks, lo, hi) && NoFreePair(blocks)
        invariant pmm.Bits() == old(pmm.Bits())
      {
        var done := ServeOne(calls[served], lo, hi);
        if !done { return; }
        served := served + 1;
      }
    }

    // One call, unless it is a request without a fit.
    method ServeOne(call: Call, ghost lo: nat, ghost hi: nat) returns (done: bool)
      requires Valid() && Arena(blocks, lo, hi) && NoFreePair(blocks)
      modifies this, pmm, pmm.bitmap
      ensures Valid() && Arena(blocks, lo, hi) && NoFreePair(blocks) && pmm.Bits() == old(pmm.Bits())
      ensures !done ==> call.Request? && NoFit(blocks, Rounded(call.size))
    {
      hide Good, Linked, Owned, Gained, NoFit, Taken, Rounded, Contiguous, NoFreePair, PairsTouch, Live, Merged;
      ghost var bs := blocks;
      done := true;
      match call {
        case Request(size) =>
          var cur, k := FindFit(Rounded(size));
          if cur == 0 { return false; }
          if size != 0 {
            var p := Kmalloc(size);
            ghost var j :| 0 <= j < |bs| && Fits(bs[j], Rounded(size)) && blocks == Taken(bs, j, Rounded(size));
            TakenContiguous(bs, j, Rounded(size));
            TakenNoPair(bs, j, Rounded(size));
          }
        case Give(p) =>
          ghost var i := IndexOf(bs, p);
          if i < |bs| { FreedArena(bs, i); }
          Kfree(p);
      }
    }

    // The pass of kfree.
    method MergePass()
      requires Linked(mem, head, blocks) && DistinctAddrs(blocks) && blocks != [] && head != 0
      modifies this`mem, this`blocks
      ensures Linked(mem, head, blocks) && blocks == Merged(old(blocks))
    {
      hide Linked, DistinctAddrs, Merged;
      ghost var bs := blocks;
      ghost var front: seq<Block>, rest := [], blocks;
      var n := head;
      assert [] + rest == rest;
      AtFront(mem, head, front, rest);
      while n != 0 && mem[n].next != 0
        invariant n in mem && rest != [] && blocks == front + rest && n == rest[0].addr
        invariant Linked(mem, head, blocks) && DistinctAddrs(blocks) && Merged(bs) == front + Merged(rest)
        decreases |rest|
      {
        AtFront(mem, head, front, rest);
        var next := mem[n].next;
        MergedUnfold(rest);
        if mem[n].free && mem[next].free {
          JoinLinked(mem, head, front, rest);
          mem := mem[n := Node(mem[n].size + HEADER + mem[next].size, true, mem[next].next)];
          rest := [Joined(rest[0], rest[1])] + rest[2..];
          blocks := front + rest;
        } else {
          front, rest := front + [rest[0]], rest[1..];
          assert blocks == front + rest;
          n := next;
        }
      }
      AtFront(mem, head, front, rest);
      MergedUnfold(rest);
    }
  }

  lemma NonZero(bs: seq<Block>)
    requires Good(bs)
    ensures forall i | 0 <= i < |bs| :: bs[i].addr != 0
  {
    assert forall i | 0 <= i < |bs| :: BlockOk(bs[i]);
  }

  lemma MergedUnfold(bs: seq<Block>)
    ensures |bs| < 2 ==> Merged(bs) == bs
    ensures |bs| >= 2 ==>
              Merged(bs) == if bs[0].free && bs[1].free then Merged([Joined(bs[0], bs[1])] + bs[2..])
                            else [bs[0]] + Merged(bs[1..])
  {
  }

  // The headers of the first two blocks of the rest of the list.
  lemma AtFront(m: map<nat, Node>, head: nat, front: seq<Block>, rest: seq<Block>)
    requires Linked(m, head, front + rest) && DistinctAddrs(front + rest) && rest != []
    ensures rest[0].addr != 0 && rest[0].addr in m
    ensures m[rest[0].addr] == Node(rest[0].size, rest[0].free, if |rest| > 1 then rest[1].addr else 0)
    ensures front == [] ==> head == rest[0].addr
    ensures |rest| > 1 ==> rest[1].addr != 0 && rest[1].addr in m && m[rest[1].addr].free == rest[1].free
  {
    var bs := front + rest;
    assert LinkedAt(m, bs, |front|) && bs[|front|] == rest[0];
    if |rest| > 1 {
      assert bs[|front| + 1] == rest[1];
      assert LinkedAt(m, bs, |front| + 1);
    }
  }

  ghost predicate DistinctAddrs(bs: seq<Block>)
  {
    (forall i | 0 <= i < |bs| :: bs[i].addr != 0) && forall i, j | 0 <= i < j < |bs| :: bs[i].addr != bs[j].addr
  }

  lemma JoinLinked(m: map<nat, Node>, head: nat, front: seq<Block>, rest: seq<Block>)
    requires Linked(m, head, front + rest) && DistinctAddrs(front + rest) && |rest| > 1 && rest[0].free
    requires rest[0].addr in m && rest[1].addr in m
    ensures var l := front + ([Joined(rest[0], rest[1])] + rest[2..]);
            DistinctAddrs(l)
            && Linked(m[rest[0].addr := Node(m[rest[0].addr].size + HEADER + m[rest[1].addr].size, true,
                                             m[rest[1].addr].next)], head, l)
  {
    var bs, f := front + rest, |front|;
    var l := front + ([Joined(rest[0], rest[1])] + rest[2..]);
    assert LinkedAt(m, bs, f) && LinkedAt(m, bs, f + 1);
    assert forall i | 0 <= i < |l| :: l[i] == if i < f then bs[i] else if i == f then Joined(rest[0], rest[1])
           else bs[i + 1];
    var m' := m[rest[0].addr := Node(m[rest[0].addr].size + HEADER + m[rest[1].addr].size, true, m[rest[1].addr].next)];
    forall i | 0 <= i < |l|
      ensures LinkedAt(m', l, i)
    {
      assert LinkedAt(m, bs, if i <= f then i else i + 1);
    }
    forall i | 0 <= i < |l|
      ensures l[i].addr == bs[if i <= f then i else i + 1].addr != 0
    {
    }
    forall i, j | 0 <= i < j < |l|
      ensures l[i].addr != l[j].addr
    {
      assert bs[if i <= f then i else i + 1].addr != bs[if j <= f then j else j + 1].addr;
    }
  }

  lemma HeadNone(m: map<nat, Node>, head: nat, bs: seq<Block>, need: nat)
    requires Linked(m, head, bs) && Good(bs)
    ensures head == 0 <==> bs == []
    ensures head == 0 ==> NoFit(bs, need)
  {
    NonZero(bs);
  }

  // A new arena lies in the frames of its run.
  lemma ArenaBacked(bits: seq<bool>, a: nat, pages: nat, n: Block)
    requires pages >= 1 && a % PAGE == 0 && RunFree(bits, a / PAGE, pages) && n == Block(a, pages * PAGE - HEADER, true)
    ensures forall x: nat | n.addr <= x < End(n) :: a / PAGE <= x / PAGE < a / PAGE + pages
    ensures forall x: nat | n.addr <= x < End(n) :: x / PAGE < |bits| && SetRun(bits, a / PAGE, pages, true)[x / PAGE]
  {
    var q := a / PAGE;
    assert a == PAGE * q;
    forall x: nat | n.addr <= x < End(n)
      ensures q <= x / PAGE < q + pages
    {
      assert x == PAGE * (x / PAGE) + x % PAGE;
    }
  }

  // It is apart from every block, for those lie in frames that were in use.
  lemma ArenaApart(bs: seq<Block>, bits: seq<bool>, n: Block)
    requires Good(bs) && BlockOk(n) && forall x: nat | Owned(bs, x) :: x / PAGE < |bits| && bits[x / PAGE]
    requires forall x: nat | n.addr <= x < End(n) :: x / PAGE < |bits| && !bits[x / PAGE]
    ensures Good(bs + [n])
  {
    var l := bs + [n];
    forall i | 0 <= i < |bs|
      ensures Apart(bs[i], n)
    {
      assert BlockOk(bs[i]);
      var x := if bs[i].addr > n.addr then bs[i].addr else n.addr;
      assert bs[i].addr <= x < End(bs[i]) ==> Owned(bs, x);
      assert n.addr <= x < End(n) ==> !bits[x / PAGE];
    }
    forall i, j | 0 <= i < j < |l|
      ensures Apart(l[i], l[j])
    {
      if j < |bs| { assert Apart(bs[i], bs[j]); }
    }
    forall i | 0 <= i < |l|
      ensures BlockOk(l[i])
    {
      if i < |bs| { assert BlockOk(bs[i]); }
    }
  }

  lemma OwnedAppend(bs: seq<Block>, n: Block)
    ensures forall x: nat :: Owned(bs + [n], x) <==> Owned(bs, x) || n.addr <= x < End(n)
  {
    var l := bs + [n];
    assert l[|bs|] == n;
    forall x: nat | Owned(bs, x)
      ensures Owned(l, x)
    {
      var i :| 0 <= i < |bs| && bs[i].addr <= x < End(bs[i]);
      assert l[i] == bs[i];
    }
  }

  lemma AppendLinked(m: map<nat, Node>, head: nat, bs: seq<Block>, n: Block)
    requires Linked(m, head, bs) && bs != [] && Good(bs + [n])
    requires bs[|bs| - 1].addr in m
    ensures var last := bs[|bs| - 1].addr;
            var m1 := m[n.addr := Node(n.size, n.free, 0)];
            Linked(m1[last := m1[last].(next := n.addr)], head, bs + [n])
  {
    var l := bs + [n];
    var last := bs[|bs| - 1].addr;
    var m1 := m[n.addr := Node(n.size, n.free, 0)];
    var m2 := m1[last := m1[last].(next := n.addr)];
    forall i | 0 <= i < |l|
      ensures LinkedAt(m2, l, i)
    {
      if i < |bs| {
        assert LinkedAt(m, bs, i);
        assert Apart(l[i], l[|bs|]);
        if i < |bs| - 1 { assert Apart(l[i], l[|bs| - 1]); }
      } else {
        assert Apart(l[|bs| - 1], l[|bs|]);
      }
    }
  }

  lemma TakenOwned(bs: seq<Block>, k: nat, size: nat)
    requires k < |bs| && Fits(bs[k], size)
    ensures forall x: nat :: Owned(Taken(bs, k, size), x) <==> Owned(bs, x)
  {
    var t := Taken(bs, k, size);
    forall x: nat
      ensures Owned(t, x) <==> Owned(bs, x)
    {
      if Owned(bs, x) {
        var i :| 0 <= i < |bs| && bs[i].addr <= x < End(bs[i]);
        var i' := if |t| > |bs| && (i > k || (i == k && x >= t[k + 1].addr)) then i + 1 else i;
        assert t[i'].addr <= x < End(t[i']);
      }
      if Owned(t, x) {
        var i :| 0 <= i < |t| && t[i].addr <= x < End(t[i]);
        var i' := if |t| > |bs| && i > k then i - 1 else i;
        assert bs[i'].addr <= x < End(bs[i']);
      }
    }
  }

  lemma GrownFits(bs: seq<Block>, n: Block, need: nat)
    requires NoFit(bs, need) && n.free
    ensures NoFit(bs + [n], need) <==> n.size < need
    ensures forall b :: Live(bs + [n], b) <==> Live(bs, b)
  {
    var l := bs + [n];
    assert l[|bs|] == n;
    assert forall i | 0 <= i < |bs| :: l[i] == bs[i];
  }

  lemma GainedFrom(bs: seq<Block>, bs1: seq<Block>, bs2: seq<Block>, p: nat, need: nat)
    requires (forall b :: Live(bs1, b) <==> Live(bs, b)) && Gained(bs1, bs2, p, need)
    ensures Gained(bs, bs2, p, need)
  {
    hide Live;
  }

  lemma GoodAt(bs: seq<Block>, k: nat)
    requires Good(bs) && k < |bs|
    ensures BlockOk(bs[k]) && Aligned16(bs[k].addr + HEADER)
  {
    assert BlockOk(bs[k]);
  }

  lemma FreedFacts(m: map<nat, Node>, head: nat, bs: seq<Block>, k: nat)
    requires Linked(m, head, bs) && Good(bs) && k < |bs| && bs[k].addr in m
    ensures var l := bs[k := bs[k].(free := true)];
            Linked(m[bs[k].addr := m[bs[k].addr].(free := true)], head, l) && DistinctAddrs(l)
  {
    var l := bs[k := bs[k].(free := true)];
    var m' := m[bs[k].addr := m[bs[k].addr].(free := true)];
    forall i, j | 0 <= i < j < |bs|
      ensures bs[i].addr != bs[j].addr
    {
      assert Apart(bs[i], bs[j]);
    }
    forall i | 0 <= i < |l|
      ensures LinkedAt(m', l, i) && l[i].addr != 0
    {
      assert LinkedAt(m, bs, i) && BlockOk(bs[i]);
    }
  }

  lemma AfterFree(bs: seq<Block>, k: nat)
    requires Good(bs) && k < |bs|
    ensures var l := bs[k := bs[k].(free := true)];
            (PairsTouch(l) ==> Good(Merged(l)) && forall x: nat :: Owned(Merged(l), x) <==> Owned(bs, x))
            && forall b :: Live(Merged(l), b) <==> Live(bs, b) && b != bs[k]
  {
    var l := bs[k := bs[k].(free := true)];
    forall i, j | 0 <= i < j < |bs|
      ensures Apart(l[i], l[j]) && bs[i] != bs[j]
    {
      assert Apart(bs[i], bs[j]);
    }
    forall i | 0 <= i < |l|
      ensures BlockOk(l[i])
    {
      assert BlockOk(bs[i]);
    }
    if PairsTouch(l) {
      MergedGood(l);
      SameRanges(bs, l);
    }
    forall b
      ensures Live(Merged(l), b) <==> Live(bs, b) && b != bs[k]
    {
      MergedLive(l, b);
      LiveFreed(bs, k, b);
    }
  }

  lemma LiveFreed(bs: seq<Block>, k: nat, b: Block)
    requires k < |bs| && forall i, j | 0 <= i < j < |bs| :: bs[i] != bs[j]
    ensures Live(bs[k := bs[k].(free := true)], b) <==> Live(bs, b) && b != bs[k]
  {
    var l := bs[k := bs[k].(free := true)];
    if Live(bs, b) {
      var i :| 0 <= i < |bs| && bs[i] == b;
      if i != k { assert l[i] == b; }
    }
    if Live(l, b) {
      var i :| 0 <= i < |l| && l[i] == b;
      assert bs[i] == b;
    }
  }

  lemma SameRanges(bs: seq<Block>, l: seq<Block>)
    requires |l| == |bs| && forall i | 0 <= i < |bs| :: l[i].addr == bs[i].addr && l[i].size == bs[i].size
    ensures forall x: nat :: Owned(l, x) <==> Owned(bs, x)
  {
    forall x: nat
      ensures Owned(l, x) <==> Owned(bs, x)
    {
      if Owned(bs, x) {
        var i :| 0 <= i < |bs| && bs[i].addr <= x < End(bs[i]);
        assert l[i].addr <= x < End(l[i]);
      }
    }
  }

  lemma OnlyOne(bs: seq<Block>, k: nat)
    requires Good(bs) && k < |bs|
    ensures forall i | 0 <= i < |bs| && bs[i].addr == bs[k].addr :: i == k
  {
    forall i | 0 <= i < |bs| && i != k
      ensures bs[i].addr != bs[k].addr
    {
      assert Apart(bs[if i < k then i else k], bs[if i < k then k else i]);
      assert BlockOk(bs[i]) && BlockOk(bs[k]);
    }
  }

  datatype Call = Request(size: Word) | Give(p: nat)

  // The blocks tile lo..hi.
  ghost predicate Arena(bs: seq<Block>, lo: nat, hi: nat)
  {
    bs != [] && Contiguous(bs) && bs[0].addr == lo && End(bs[|bs| - 1]) == hi
  }

  lemma MakeArena(bs: seq<Block>)
    requires bs != [] && Contiguous(bs)
    ensures Arena(bs, bs[0].addr, End(bs[|bs| - 1]))
  {
  }

  ghost function IndexOf(bs: seq<Block>, p: nat): (i: nat)
    ensures i <= |bs| && (i < |bs| ==> bs[i].addr + HEADER == p) && forall j | 0 <= j < i :: bs[j].addr + HEADER != p
  {
    if bs == [] || bs[0].addr + HEADER == p then 0 else 1 + IndexOf(bs[1..], p)
  }

  lemma FreedArena(bs: seq<Block>, i: nat)
    requires Contiguous(bs) && i < |bs|
    ensures var freed := bs[i := bs[i].(free := true)];
            PairsTouch(freed) && Contiguous(Merged(freed)) && Merged(freed) != [] && Merged(freed)[0].addr == bs[0].addr
            && End(Merged(freed)[|Merged(freed)| - 1]) == End(bs[|bs| - 1])
  {
    var freed := bs[i := bs[i].(free := true)];
    forall k | 0 <= k < |freed| - 1
      ensures Touch(freed, k)
    {
      assert Touch(bs, k);
    }
    MergedContiguous(freed);
  }

  // ---------------------------------------------------------------- arenas that do not touch

  // The first arena, then a foreign frame run of 'gap' frames, then a second arena; every block is taken.
  ghost predicate TwoTaken(h: KHeap, gap: nat, bits: seq<bool>)
    reads h, h.pmm, h.pmm.bitmap
  {
    h.Valid() && h.head == 256 * PAGE && h.pmm.Bits() == bits
    && h.blocks == [Block(256 * PAGE, BOOT * PAGE - HEADER, false),
                    Block((1280 + gap) * PAGE, GROW * PAGE - HEADER, false)]
  }

  method TakeTwo(frames: nat, gap: nat) returns (h: KHeap, foreign: nat)
    requires 0 < gap && BOOT + gap + GROW == frames <= 4096
    ensures fresh(h) && fresh(h.pmm) && fresh(h.pmm.bitmap) && foreign == 1280 * PAGE
    ensures TwoTaken(h, gap, seq(257 + frames, _ => true))
  {
    hide Good, Linked, Owned, Gained, Contiguous, NoFreePair, CountSet, LowFirst;
    var pmm := BootMemory(frames);
    h := new KHeap(pmm);
    ghost var b0 := pmm.Bits();
    assert RunFree(b0, 256, BOOT);
    h.Init();
    LowestAt(b0, 256, BOOT, h.head / PAGE);
    ghost var b1 := pmm.Bits();
    assert RunFree(b1, 1280, gap);
    foreign := pmm.Alloc(gap);
    LowestAt(b1, 1280, gap, foreign / PAGE);
    ghost var b2 := pmm.Bits();
    assert h.Valid();
    TakeAll(h, b2);
    assert RunFree(b2, 1280 + gap, GROW);
    TakeArena(h, 1280 + gap);
    assert pmm.Bits() == seq(257 + frames, _ => true);
  }

  // A request for all the first arena holds.
  method TakeAll(h: KHeap, ghost bits: seq<bool>)
    requires h.Valid() && h.blocks == [Block(256 * PAGE, BOOT * PAGE - HEADER, true)] && h.head == 256 * PAGE
    requires h.pmm.Bits() == bits
    modifies h, h.pmm, h.pmm.bitmap
    ensures h.Valid() && h.blocks == [Block(256 * PAGE, BOOT * PAGE - HEADER, false)] && h.head == 256 * PAGE
    ensures h.pmm.Bits() == bits
  {
    hide Good, Linked, Owned, Gained, CountSet, GrownFor;
    assert Fits(h.blocks[0], Rounded(BOOT * PAGE - HEADER));
    var p := h.Kmalloc(BOOT * PAGE - HEADER);
  }

  // A request for all a further arena holds, none being free.
  method TakeArena(h: KHeap, ghost lo: nat)
    requires h.Valid() && h.blocks != [] && h.head != 0 && (forall i | 0 <= i < |h.blocks| :: !h.blocks[i].free)
    requires (forall f | 0 <= f < |h.pmm.Bits()| && f < lo :: h.pmm.Bits()[f]) && RunFree(h.pmm.Bits(), lo, GROW)
    modifies h, h.pmm, h.pmm.bitmap
    ensures h.Valid() && h.head == old(h.head)
    ensures h.blocks == old(h.blocks) + [Block(lo * PAGE, GROW * PAGE - HEADER, false)]
    ensures h.pmm.Bits() == SetRun(old(h.pmm.Bits()), lo, GROW, true)
  {
    hide Good, Linked, Owned, Gained, CountSet;
    ghost var bits, bs := h.pmm.Bits(), h.blocks;
    ghost var need := Rounded(GROW * PAGE - HEADER);
    assert need == GROW * PAGE - HEADER;
    assert NoFit(bs, need);
    assert !NoRun(bits, GROW);
    var p := h.Kmalloc(GROW * PAGE - HEADER);
    ghost var g: nat :| LowestRun(bits, g, GROW) && h.pmm.Bits() == SetRun(bits, g, GROW,
      true) && h.blocks == TakenLast(bs, g, need);
    LowestAt(bits, lo, GROW, g);
    assert h.blocks == bs + [Block(lo * PAGE, GROW * PAGE - HEADER, false)];
  }

  // Both blocks of a heap like that are freed: kfree joins them over the gap between the arenas.
  method FreeTwo(h: KHeap, gap: nat, ghost rest: seq<Block>)
    requires h.Valid() && gap > 0 && (rest == [] || (|rest| == 1 && !rest[0].free))
    requires h.blocks == [Block(256 * PAGE, BOOT * PAGE - HEADER, false),
                          Block((1280 + gap) * PAGE, GROW * PAGE - HEADER, false)] + rest
    modifies h
    ensures Linked(h.mem, h.head, h.blocks)
    ensures h.blocks == [Block(256 * PAGE, (BOOT + GROW) * PAGE - HEADER, true)] + rest
  {
    hide Good, Linked, Owned, Merged, NoFreePair;
    ghost var a, b := h.blocks[0], h.blocks[1];
    ghost var l1 := [a.(free := true), b] + rest;
    assert h.blocks[0 := a.(free := true)] == l1;
    assert NoFreePair(l1) by { OneFree(l1); }
    MergedApart(l1);
    h.Kfree(256 * PAGE + HEADER);
    assert h.blocks == l1;
    ghost var l2 := [a.(free := true), b.(free := true)] + rest;
    assert l1[1 := b.(free := true)] == l2;
    assert h.blocks[1] == b;
    h.Kfree((1280 + gap) * PAGE + HEADER);
    assert h.blocks == Merged(l2);
    JoinTwo(a.(free := true), b.(free := true), rest);
  }

  lemma OneFree(bs: seq<Block>)
    requires forall i | 1 <= i < |bs| :: !bs[i].free
    ensures NoFreePair(bs)
  {
  }

  lemma JoinTwo(a: Block, b: Block, rest: seq<Block>)
    requires a.free && b.free && forall i | 0 <= i < |rest| :: !rest[i].free
    ensures Merged([a, b] + rest) == [Joined(a, b)] + rest
  {
    var l := [a, b] + rest;
    MergedUnfold(l);
    assert l[2..] == rest;
    OneFree([Joined(a, b)] + rest);
    MergedApart([Joined(a, b)] + rest);
  }

  // Without free neighbours the pass does nothing.
  lemma {:induction false} MergedApart(bs: seq<Block>)
    requires NoFreePair(bs)
    ensures Merged(bs) == bs
    decreases |bs|
  {
    if |bs| >= 2 {
      assert !FreePair(bs, 0);
      forall i | 0 <= i < |bs[1..]| - 1
        ensures !FreePair(bs[1..], i)
      {
        assert !FreePair(bs, i + 1);
      }
      MergedApart(bs[1..]);
    }
  }

  // Two arenas with one foreign frame between them, everything freed in the end: the heap's only block covers the
  // foreign frame, although the frame allocator may give it to anyone.
  method FreedOverGap() returns (h: KHeap, foreign: nat)
    ensures fresh(h) && Linked(h.mem, h.head, h.blocks) && Good(h.blocks) && !h.Backed()
    ensures foreign / PAGE < |h.pmm.Bits()| && !h.pmm.Bits()[foreign / PAGE] && Owned(h.blocks, foreign)
  {
    hide Good, Linked, Owned, Merged;
    h, foreign := TakeTwo(BOOT + 1 + GROW, 1);
    FreeTwo(h, 1, []);
    h.pmm.Free(foreign, 1);
    ghost var bs := h.blocks;
    assert bs == [Block(256 * PAGE, (BOOT + GROW) * PAGE - HEADER, true)];
    OwnedAt(bs, foreign, 0);
    OneGood(bs[0]);
  }

  lemma OneGood(b: Block)
    requires BlockOk(b)
    ensures Good([b])
  {
  }

  // Two arenas with 256 foreign frames between them, which become the third arena: freeing the first two puts the
  // live third block inside the merged free one.
  method LiveInsideFree() returns (h: KHeap)
    ensures fresh(h) && Linked(h.mem, h.head, h.blocks) && !Good(h.blocks)
    ensures |h.blocks| == 2 && h.blocks[0].free && !h.blocks[1].free
            && h.blocks[0].addr <= h.blocks[1].addr && End(h.blocks[1]) <= End(h.blocks[0])
  {
    hide Good, Linked, Owned, Merged;
    var foreign;
    h, foreign := TakeTwo(BOOT + GROW + GROW, GROW);
    TwoRanges(h.blocks, GROW);
    h.pmm.Free(foreign, GROW);
    assert h.Valid();
    ghost var c := Block(1280 * PAGE, GROW * PAGE - HEADER, false);
    TakeArena(h, 1280);
    FreeTwo(h, GROW, [c]);
    Overlap(h.blocks);
  }

  // The frames of the two arenas.
  lemma TwoRanges(bs: seq<Block>, gap: nat)
    requires bs == [Block(256 * PAGE, BOOT * PAGE - HEADER, false),
                    Block((1280 + gap) * PAGE, GROW * PAGE - HEADER, false)]
    ensures forall x: nat | Owned(bs, x) :: 256 <= x / PAGE < 1280 || 1280 + gap <= x / PAGE < 1280 + gap + GROW
  {
    forall x: nat | Owned(bs, x)
      ensures 256 <= x / PAGE < 1280 || 1280 + gap <= x / PAGE < 1280 + gap + GROW
    {
      var i :| 0 <= i < |bs| && bs[i].addr <= x < End(bs[i]);
      assert x == PAGE * (x / PAGE) + x % PAGE;
    }
  }

  lemma Overlap(bs: seq<Block>)
    requires |bs| == 2 && bs[0].addr <= bs[1].addr < End(bs[0]) && bs[0].addr < End(bs[1])
    ensures !Good(bs)
  {
    assert !Apart(bs[0], bs[1]);
  }
}
