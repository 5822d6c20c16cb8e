// spud_malloc and spud_free over the region of UserHeap: every load and store stays inside the mapped region,
// allocated payloads are never touched, and free blocks are merged with both neighbours.
module SpudHeap {
  import opened PhysMemory
  import opened Alignment
  import opened UserHeap

  // The request a caller's n becomes: at least one byte, rounded up to 16.
  function Need(n: nat): nat { Rounded(if n == 0 then 1 else n) }

  // The block is as large as asked exactly when the rounding does not wrap.
  lemma NeedCovers(n: nat)
    requires n < WORD
    ensures Aligned16(Need(n))
    ensures (Need(n) >= 16 && Need(n) >= n) <==> n <= WORD - 16
  {
    RoundedCovers(if n == 0 then 1 else n);
    var q := Sixteenth(Need(n));
  }

  // Pages asked of SYS_MMAP, again in 64-bit arithmetic.
  function Pages(want: nat): nat
  {
    var pages := ((want + PAGE - 1) % WORD) / PAGE;
    if pages < 16 then 16 else pages
  }

  function Want(need: nat): nat { if need < CHUNK then CHUNK else need }

  // The tags are not added to the request, so the block that growing adds is too small for it exactly when the
  // request ends within 32 bytes of its last page (or when the page count wraps).
  lemma GrownTooSmall(need: nat)
    requires Aligned16(need) && need < WORD
    ensures Pages(Want(need)) * PAGE - TAGS < need <==>
            need > CHUNK - TAGS && ((need + TAGS - 16) % PAGE <= 16 || need > WORD - PAGE)
  {
    if need > WORD - PAGE {
      assert (Want(need) + PAGE - 1) % WORD == Want(need) + PAGE - 1 - WORD < PAGE;
    } else if need < CHUNK {
      assert Pages(Want(need)) == 16;
      assert need > CHUNK - TAGS ==> need == CHUNK - 16 by { var q := Sixteenth(need); }
    } else {
      var q := Sixteenth(need);
      RoundUp(need, q);
      assert Pages(Want(need)) == (need + PAGE - 1) / PAGE;
    }
  }

  lemma RoundUp(n: nat, q: nat)
    requires n == 16 * q
    ensures (n + PAGE - 1) / PAGE * PAGE - TAGS < n <==> (n + TAGS - 16) % PAGE <= 16
  {
    var x := n + TAGS - 16;
    var d, r := x / PAGE, x % PAGE;
    assert x == PAGE * d + r;
    assert r == 16 * (q + 1 - 256 * d);
    var p := (n + PAGE - 1) / PAGE;
    assert PAGE * p <= n + PAGE - 1 < PAGE * p + PAGE;
    if r <= 16 { assert p == d; } else { assert p == d + 1; }
  }

  // list[k] is the first block on the list that is large enough.
  ghost predicate FirstFit(s: Heap, list: seq<nat>, need: nat, k: nat)
  {
    k < |list| && Size(s, list[k]) >= need && forall i | 0 <= i < k :: Size(s, list[i]) < need
  }

  ghost predicate NoFit(s: Heap, list: seq<nat>, need: nat)
  {
    forall i | 0 <= i < |list| :: Size(s, list[i]) < need
  }

  // Block b became allocated with room for need bytes, wasting less than another block's worth; nothing else did.
  ghost predicate Took(s: Heap, s': Heap, b: nat, need: nat)
  {
    s'.va == s.va && s'.end == s.end && !Live(s, b) && need <= Size(s', b) < need + TAGS + 16
    && (forall c :: Live(s', c) <==> Live(s, c) || c == b) && KeepsLive(s, s', {})
  }

  // No two free blocks came to be neighbours, except possibly at the addresses in 'but'.
  ghost predicate NoNewPair(s: Heap, s': Heap, but: set<nat>)
  {
    forall e | FreeSeam(s', e) && e !in but :: FreeSeam(s, e)
  }

  lemma PairsKept(s: Heap, s': Heap)
    requires NoNewPair(s, s', {})
    ensures NoFreePair(s) ==> NoFreePair(s')
  {
  }

  // p is the payload of the first block on the list that is large enough; that block alone became allocated.
  ghost predicate Allocated(s: Heap, list: seq<nat>, need: nat, s': Heap, p: nat)
  {
    exists k: nat :: FirstFit(s, list, need, k) && p == list[k] + HDR && Took(s, s', list[k], need)
  }

  // ---------------------------------------------------------------- taking a block

  lemma KeepsShape(s: Heap, s': Heap, c: nat)
    requires SameShape(s, s', c)
    ensures SamePayload(s, s', c) && Size(s', c) == Size(s, c) && IsFree(s', c) == IsFree(s, c)
  {
  }

  // Same blocks, and only h changed its flag, to allocated.
  lemma TookWhole(s: Heap, s': Heap, h: nat, need: nat)
    requires s'.va == s.va && s'.end == s.end && s'.hdrs == s.hdrs && h in s.hdrs && IsFree(s, h) && !IsFree(s', h)
    requires need <= Size(s, h) < need + TAGS + 16 && Size(s', h) == Size(s, h)
    requires forall c | c in s.hdrs && c != h :: SameShape(s, s', c)
    ensures Took(s, s', h, need) && NoNewPair(s, s', {})
  {
    hide SamePayload, Size, IsFree;
    forall c | c in s.hdrs
      ensures Size(s', c) == Size(s, c) && (c != h ==> IsFree(s', c) == IsFree(s, c) && SamePayload(s, s', c))
    {
      if c != h { KeepsShape(s, s', c); }
    }
    forall e | FreeSeam(s', e)
      ensures FreeSeam(s, e)
    {
      var c :| EndsAt(s', c, e) && IsFree(s', c);
      assert EndsAt(s, c, e);
    }
  }

  lemma TakeWhole(s: Heap, fl: nat, list: seq<nat>, k: nat, need: nat, prev: nat)
    requires Tiles(s) && Chain(s, fl, list, {}) && k < |list| && need <= Size(s, list[k]) < need + TAGS + 16
    requires prev == if k == 0 then 0 else list[k - 1]
    ensures var h := list[k];
            var s' := LinkTo(Write(s, h + 8, 0), prev, Next(s, h));
            Tiles(s') && Chain(s', if k == 0 then Next(s, h) else fl, Drop(list, k), {}) && Took(s, s', h, need)
            && NoNewPair(s, s', {})
  {
    hide Tiles, Chain, SameShape, SameBlock, LinkTo, Write, Drop, SamePayload, Next, Size, IsFree, NoNewPair, Took;
    var h, next := list[k], Next(s, list[k]);
    ChainFacts(s, fl, list, {}, k);
    if k > 0 { ChainFacts(s, fl, list, {}, k - 1); }
    WritesCommute(s, h, prev, next);
    UnlinkChain(s, fl, list, {}, k);
    assert {} + {h} == {h};
    var s1 := LinkTo(s, prev, next);
    LinkToFacts(s, prev, next);
    TakeChain(s1, if k == 0 then next else fl, Drop(list, k), h);
    TakeFlag(s, s1, h, need);
  }

  // A block already off the list is marked allocated.
  lemma TakeFlag(s: Heap, s1: Heap, h: nat, need: nat)
    requires Tiles(s1) && s1.hdrs == s.hdrs && s1.va == s.va && s1.end == s.end && h in s.hdrs && IsFree(s, h)
    requires need <= Size(s, h) < need + TAGS + 16
    requires forall c | c in s.hdrs :: SameShape(s, s1, c)
    ensures Tiles(Write(s1, h + 8, 0)) && Took(s, Write(s1, h + 8, 0), h, need) && NoNewPair(s, Write(s1, h + 8, 0), {})
  {
    hide Tiles, SameShape, SameBlock, Write, SamePayload, Size, IsFree, NoNewPair, Took;
    var s2 := Write(s1, h + 8, 0);
    FlagWord(s1, h, 0);
    KeepsShape(s, s1, h);
    TakeWholeShapes(s, s1, s2, h);
    WriteFrame(s1, h + 8, 0);
    TookWhole(s, s2, h, need);
  }

  lemma WriteFrame(s: Heap, a: nat, v: nat)
    ensures var s' := Write(s, a, v); s'.hdrs == s.hdrs && s'.va == s.va && s'.end == s.end
  {
  }

  lemma WritesCommute(s: Heap, h: nat, prev: nat, next: nat)
    requires Tiles(s) && h in s.hdrs && (prev != 0 ==> prev in s.hdrs && prev != h)
    ensures LinkTo(Write(s, h + 8, 0), prev, next) == Write(LinkTo(s, prev, next), h + 8, 0)
  {
    if prev != 0 {
      BlockWords(s, h);
      BlockWords(s, prev);
      if h < prev { Apart(s, h, prev); } else { Apart(s, prev, h); }
      hide Tiles;
      assert s.mem[h + 8 := 0][prev + 16 := next] == s.mem[prev + 16 := next][h + 8 := 0];
    }
  }

  lemma TakeWholeShapes(s: Heap, s1: Heap, s2: Heap, h: nat)
    requires forall c | c in s.hdrs :: SameShape(s, s1, c)
    requires forall c | c in s.hdrs && c != h :: SameBlock(s1, s2, c)
    ensures forall c | c in s.hdrs && c != h :: SameShape(s, s2, c)
  {
    hide SameShape, SameBlock;
    forall c | c in s.hdrs && c != h
      ensures SameShape(s, s2, c)
    {
      assert SameBlock(s1, s2, c);
      BlockShape(s1, s2, c);
      ShapeTrans(s, s1, s2, c);
    }
  }

  // Block b was cut: b allocated in front, n free behind.
  lemma TookFront(s: Heap, s': Heap, b: nat, n: nat, need: nat)
    requires Tiles(s) && b in s.hdrs && IsFree(s, b) && n !in s.hdrs && s'.hdrs == s.hdrs + {n} && s'.va == s.va
    requires s'.end == s.end
    requires b < n < End(s, b) && Size(s', b) == need && !IsFree(s', b) && IsFree(s', n) && End(s', n) == End(s, b)
    requires forall c | c in s.hdrs && c != b :: SameShape(s, s', c)
    ensures Took(s, s', b, need) && NoNewPair(s, s', {})
  {
    hide SamePayload, IsFree, Tiles, SameShape;
    forall c | c in s.hdrs && c != b
      ensures End(s', c) == End(s, c) != n && Size(s', c) == Size(s, c) && IsFree(s', c) == IsFree(s, c)
      ensures SamePayload(s, s', c)
    {
      assert SameShape(s, s', c);
      KeepsShape(s, s', c);
      Block(s, c);
      Block(s, b);
    }
    hide Size, End;
    forall e | FreeSeam(s', e)
      ensures FreeSeam(s, e)
    {
      var c :| EndsAt(s', c, e) && IsFree(s', c);
      assert EndsAt(s, if c == n then b else c, e);
    }
  }

  // ---------------------------------------------------------------- giving a block back

  // The same words mapped, the same blocks; only links may differ.
  ghost predicate Relinked(s: Heap, s': Heap)
  {
    s'.va == s.va && s'.end == s.end && s'.hdrs == s.hdrs && forall c | c in s.hdrs :: SameShape(s, s', c)
  }

  // Allocated blocks are the same and untouched, in the same region, and no seam between free blocks appeared.
  ghost predicate Kept(s: Heap, s': Heap)
  {
    s'.va == s.va && s'.end == s.end && (forall c :: Live(s', c) <==> Live(s, c)) && KeepsLive(s, s', {})
    && NoNewPair(s, s', {})
  }

  lemma KeptSelf(s: Heap)
    ensures Kept(s, s)
  {
  }

  lemma KeptTrans(s: Heap, s1: Heap, s2: Heap)
    requires Kept(s, s1) && Kept(s1, s2)
    ensures Kept(s, s2)
  {
    hide Live, FreeSeam, Size;
    forall c | Live(s, c)
      ensures Size(s2, c) == Size(s, c) && SamePayload(s, s2, c)
    {
      assert Live(s1, c);
      hide Get;
    }
  }

  // Free blocks b and n, neighbours, became one free block.
  ghost predicate Fused(s: Heap, s': Heap, b: nat, n: nat)
  {
    s'.va == s.va && s'.end == s.end && s'.hdrs == s.hdrs - {n} && b in s.hdrs && n in s.hdrs && b < n == End(s, b)
    && IsFree(s, b) && IsFree(s, n) && IsFree(s', b) && End(s', b) == End(s, n)
    && forall c | c in s'.hdrs && c != b :: SameShape(s, s', c)
  }

  lemma FusedKept(s: Heap, s': Heap, b: nat, n: nat)
    requires Fused(s, s', b, n)
    ensures Kept(s, s')
  {
    hide SamePayload, IsFree, SameShape, Size;
    forall c | c in s'.hdrs && c != b
      ensures Size(s', c) == Size(s, c) && IsFree(s', c) == IsFree(s, c) && SamePayload(s, s', c)
    {
      KeepsShape(s, s', c);
    }
    assert Size(s', b) == Size(s, b) + TAGS + Size(s, n);
    forall e | FreeSeam(s', e)
      ensures FreeSeam(s, e)
    {
      var c :| EndsAt(s', c, e) && IsFree(s', c);
      assert EndsAt(s, if c == b then n else c, e);
    }
  }

  // Merging after taking n off the list.
  lemma MergeFused(s: Heap, s1: Heap, b: nat)
    requires Tiles(s) && Relinked(s, s1) && Tiles(s1) && b in s.hdrs && End(s, b) in s.hdrs && IsFree(s, b)
    requires IsFree(s, End(s, b))
    ensures Tiles(Merged(s1, b)) && Fused(s, Merged(s1, b), b, End(s, b))
  {
    hide SamePayload, IsFree, SameShape, Size, Tiles, SameBlock;
    var n, s' := End(s, b), Merged(s1, b);
    assert s'.hdrs == s1.hdrs - {End(s1, b)} && s'.va == s1.va && s'.end == s1.end;
    hide Merged;
    KeepsShape(s, s1, b);
    KeepsShape(s, s1, n);
    MergedTiles(s1, b);
    forall c | c in s'.hdrs && c != b
      ensures SameShape(s, s', c)
    {
      BlockShape(s1, s', c);
      ShapeTrans(s, s1, s', c);
    }
  }

  lemma Inside(s: Heap, b: nat, x: nat)
    requires Tiles(s) && b in s.hdrs && b < x < End(s, b)
    ensures x !in s.hdrs
  {
  }

  // The block right below h, when it is free.
  ghost predicate FreeBelow(s: Heap, h: nat)
  {
    exists b :: EndsAt(s, b, h) && IsFree(s, b)
  }

  lemma Below(s: Heap, h: nat)
    requires Tiles(s) && h in s.hdrs && h != s.va
    ensures h >= 8 && h - 8 in s.mem && var f := Get(s.mem, h - 8);
            f >= 16 && h >= s.va + TAGS + f && EndsAt(s, h - TAGS - f, h)
            && (FreeBelow(s, h) <==> IsFree(s, h - TAGS - f))
  {
    hide Aligned8, Aligned16, IsFree;
    Block(s, h);
    var p := h - TAGS - Get(s.mem, h - 8);
    BlockWords(s, p);
    forall b | EndsAt(s, b, h)
      ensures b == p
    {
      OneBelow(s, b, p, h);
    }
    assert EndsAt(s, p, h);
  }

  lemma OneBelow(s: Heap, b: nat, c: nat, h: nat)
    requires Tiles(s) && EndsAt(s, b, h) && EndsAt(s, c, h)
    ensures b == c
  {
    BlockWords(s, b);
    BlockWords(s, c);
    if b < c { Apart(s, b, c); } else if c < b { Apart(s, c, b); }
  }

  // The block right after h is free.
  ghost predicate NextFree(s: Heap, h: nat)
  {
    End(s, h) in s.hdrs && IsFree(s, End(s, h))
  }

  lemma NextBlock(s: Heap, b: nat)
    requires Tiles(s) && b in s.hdrs && End(s, b) < s.end
    ensures End(s, b) in s.hdrs
  {
    Block(s, b);
  }

  lemma EndNotHeader(s: Heap, x: nat)
    requires Tiles(s) && x >= s.end
    ensures x !in s.hdrs
  {
    if x in s.hdrs { BlockWords(s, x); }
  }

  lemma FusedNext(s: Heap, s': Heap, b: nat, n: nat)
    requires Fused(s, s', b, n) && !NextFree(s, n)
    ensures !NextFree(s', b)
  {
    var e := End(s, n);
    if e in s'.hdrs && e != b { KeepsShape(s, s', e); }
  }

  lemma MakeLone(s: Heap, f: nat)
    requires Tiles(s) && f in s.hdrs && IsFree(s, f) && !NextFree(s, f) && (f == s.va || !FreeBelow(s, f))
    ensures Lone(s, f)
  {
    hide Tiles;
    if f == s.va {
      forall b | b in s.hdrs
        ensures End(s, b) > f
      {
        BlockWords(s, b);
      }
    }
  }

  // Exactly block h stopped being allocated. No free blocks became neighbours, and the free block that h is now
  // part of has none.
  ghost predicate Released(s: Heap, s': Heap, h: nat)
  {
    (forall c :: Live(s', c) <==> Live(s, c) && c != h) && KeepsLive(s, s', {h}) && NoNewPair(s, s', {})
    && exists f: nat :: Lone(s', f) && f <= h && End(s, h) <= End(s', f)
  }

  lemma LiveBlock(s: Heap, h: nat)
    requires Live(s, h)
    ensures h in s.hdrs && !IsFree(s, h)
  {
  }

  // What marking a block free and putting it first on the list does.
  ghost predicate Marked(s: Heap, s': Heap, h: nat)
  {
    s'.va == s.va && s'.end == s.end && s'.hdrs == s.hdrs && h in s.hdrs && IsFree(s', h) && Size(s', h) == Size(s, h)
    && forall c | c in s.hdrs && c != h :: SameShape(s, s', c)
  }

  lemma MarkFree(s: Heap, fl: nat, list: seq<nat>, h: nat)
    requires Tiles(s) && Chain(s, fl, list, {}) && h in s.hdrs && !IsFree(s, h)
    ensures var s' := Write(Write(s, h + 8, 1), h + 16, fl);
            Tiles(s') && Chain(s', h, [h] + list, {}) && Marked(s, s', h)
  {
    hide Tiles, Chain, SameShape, SameBlock, SamePayload, LinkOk;
    var s1 := Write(s, h + 8, 1);
    FlagWord(s, h, 1);
    assert Chain(s1, fl, list, {h}) by {
      hide Write;
      ChainHead(s, fl, list, {});
      ChainDistinct(s, fl, list, {});
      forall i | 0 <= i < |list|
        ensures LinkOk(s1, list, {h}, i)
      {
        ChainFacts(s, fl, list, {}, i);
        SameSize(s, s1, list[i]);
        MakeLink(s1, list, {h}, i);
      }
      forall b | b in s1.hdrs && IsFree(s1, b)
        ensures b in list || b in {h}
      {
        if b != h {
          SameSize(s, s1, b);
          ChainMember(s, fl, list, {}, b);
        }
      }
      MakeChain(s1, fl, list, {h});
    }
    ConsChain(s1, fl, list, h);
    LinkWord(s1, h, fl);
    var s' := Write(s1, h + 16, fl);
    KeepsShape(s1, s', h);
    forall c | c in s.hdrs && c != h
      ensures SameShape(s, s', c)
    {
      BlockShape(s, s1, c);
      BlockShape(s1, s', c);
      ShapeTrans(s, s1, s', c);
    }
  }

  lemma MakeLink(s: Heap, list: seq<nat>, off: set<nat>, i: nat)
    requires i < |list| && list[i] in s.hdrs && IsFree(s, list[i]) && list[i] != 0 && list[i] !in off
    requires Next(s, list[i]) == if i + 1 < |list| then list[i + 1] else 0
    ensures LinkOk(s, list, off, i)
  {
  }

  lemma MarkedKeeps(s: Heap, s': Heap, h: nat)
    requires Marked(s, s', h) && !IsFree(s, h)
    ensures (forall c :: Live(s', c) <==> Live(s, c) && c != h) && KeepsLive(s, s', {h})
    ensures NoNewPair(s, s', {h, End(s, h)})
  {
    hide SamePayload, IsFree, SameShape, Size;
    forall c | c in s.hdrs && c != h
      ensures Size(s', c) == Size(s, c) && IsFree(s', c) == IsFree(s, c) && SamePayload(s, s', c)
    {
      KeepsShape(s, s', c);
    }
    forall e | FreeSeam(s', e) && e !in {h, End(s, h)}
      ensures FreeSeam(s, e)
    {
      var c :| EndsAt(s', c, e) && IsFree(s', c);
      assert EndsAt(s, c, e);
    }
  }

  lemma CoalescedIs(s: Heap, s1: Heap, s2: Heap, h: nat, f: nat)
    requires Marked(s, s1, h) && !IsFree(s, h) && Tiles(s2) && Kept(s1, s2)
    requires Lone(s2, f) && f <= h && End(s1, h) <= End(s2, f)
    ensures Released(s, s2, h)
  {
    MarkedKeeps(s, s1, h);
    hide SamePayload, IsFree, SameShape, Size, Tiles, Lone;
    assert End(s1, h) == End(s, h);
    forall c | Live(s, c) && c != h
      ensures Size(s2, c) == Size(s, c) && SamePayload(s, s2, c)
    {
      assert Live(s1, c);
      PayloadTrans(s, s1, s2, c);
    }
    forall e | FreeSeam(s2, e)
      ensures FreeSeam(s, e)
    {
      assert FreeSeam(s1, e);
      LoneAt(s2, f, e);
      if e in {h, End(s, h)} {
        if e != f && e != End(s2, f) { Inside(s2, f, e); }
      }
    }
  }

  lemma PayloadTrans(s: Heap, s1: Heap, s2: Heap, c: nat)
    requires SamePayload(s, s1, c) && SamePayload(s1, s2, c) && Size(s1, c) == Size(s, c)
    ensures SamePayload(s, s2, c)
  {
  }

  lemma LoneAt(s: Heap, f: nat, e: nat)
    requires Lone(s, f)
    ensures f in s.hdrs && IsFree(s, f) && (FreeSeam(s, e) ==> e != f && e != End(s, f) && e in s.hdrs)
  {
  }

  // ---------------------------------------------------------------- growing

  // What SYS_MMAP answers: a failure, or whole pages right after the ones it gave before.
  predicate MmapAnswer(s: Heap, va: int)
  {
    va > 0 ==> PageAligned(va) && (s.va != 0 ==> va == s.end)
  }

  lemma ExtendedIs(s: Heap, va: nat, end: nat, page: map<nat, nat>, fl: nat, size: nat)
    requires va + TAGS <= end && size == end - va - TAGS
    ensures WithArena(s, va, end, page, fl) ==
            Heap((s.mem + NewWords(page, va, end))[va := size][va + 8 := 1][va + 16 := fl][va + HDR + size := size],
                 if s.va == 0 then va else s.va, end, s.hdrs + {va})
  {
  }

  lemma LongerKeeps(s: Heap, s': Heap, va: nat)
    requires Tiles(s) && Longer(s, s', va) && IsFree(s', va)
    ensures (forall c :: Live(s', c) <==> Live(s, c)) && KeepsLive(s, s', {}) && NoNewPair(s, s', {va}) && va !in s.hdrs
    ensures FreeSeam(s', va) <==> FreeBelow(s, va)
  {
    LongerTiles(s, s', va);
    assert s'.hdrs == s.hdrs + {va};
    hide SamePayload, IsFree, SameBlock, Size, Tiles, Longer, FreeSeam, FreeBelow;
    forall c | c in s.hdrs
      ensures Size(s', c) == Size(s, c) && IsFree(s', c) == IsFree(s, c) && SamePayload(s, s', c)
    {
      BlockShape(s, s', c);
      KeepsShape(s, s', c);
    }
    forall e | FreeSeam(s', e) && e != va
      ensures FreeSeam(s, e)
    {
      LongerSeam(s, s', va, e);
    }
    LongerSeam(s, s', va, va);
  }

  // A seam between free blocks in the extended region: an old one, or at va above a free last block.
  lemma LongerSeam(s: Heap, s': Heap, va: nat, e: nat)
    requires Tiles(s) && Longer(s, s', va) && IsFree(s', va) && va !in s.hdrs && s'.hdrs == s.hdrs + {va}
    requires forall c | c in s.hdrs :: Size(s', c) == Size(s, c) && IsFree(s', c) == IsFree(s, c)
    ensures if e == va then FreeSeam(s', va) <==> FreeBelow(s, va) else FreeSeam(s', e) ==> FreeSeam(s, e)
  {
    BlockPast(s, s', va, End(s', va));
    hide IsFree, Size, Tiles, Longer;
    assert forall c | c in s.hdrs :: End(s', c) == End(s, c);
    assert forall c | c in s.hdrs :: EndsAt(s', c, e) <==> EndsAt(s, c, e);
  }

  // Exactly block b became allocated, with room for need bytes; no payload changed.
  ghost predicate Gained(s: Heap, s': Heap, b: nat, need: nat)
  {
    !Live(s, b) && need <= Size(s', b) < need + TAGS + 16 && (forall c :: Live(s', c) <==> Live(s, c) || c == b)
    && KeepsLive(s, s', {})
  }

  lemma AllocatedGain(s: Heap, list: seq<nat>, need: nat, s': Heap, p: nat)
    requires Allocated(s, list, need, s', p)
    ensures p >= HDR && Gained(s, s', p - HDR, need) && s'.end == s.end
  {
  }

  // Nothing past the new block.
  lemma BlockPast(s: Heap, s': Heap, va: nat, e: nat)
    requires Tiles(s) && Longer(s, s', va) && End(s', va) == e
    ensures e !in s'.hdrs
  {
    LongerTiles(s, s', va);
    EndNotHeader(s', e);
  }

  lemma ListInHdrs(s: Heap, fl: nat, list: seq<nat>)
    requires Chain(s, fl, list, {})
    ensures forall i | 0 <= i < |list| :: list[i] in s.hdrs
  {
  }

  // A new block that fits is the one taken, being first on the list; so it is not left free at the seam.
  lemma GrownAllocated(s: Heap, s1: Heap, list: seq<nat>, need: nat, va: nat, s2: Heap, p: nat)
    requires (forall c :: Live(s1, c) <==> Live(s, c)) && KeepsLive(s, s1, {}) && NoNewPair(s, s1, {va})
    requires Allocated(s1, [va] + list, need, s2, p) && NoNewPair(s1, s2, {}) && Size(s1, va) >= need
    ensures p == va + HDR && Gained(s, s2, va, need) && NoNewPair(s, s2, {}) && s2.end == s1.end
  {
    hide SamePayload, IsFree, Size, FreeSeam;
    var l := [va] + list;
    var k: nat :| FirstFit(s1, l, need, k) && p == l[k] + HDR && Took(s1, s2, l[k], need);
    assert k == 0 by { assert l[0] == va; }
    forall c | Live(s, c)
      ensures Size(s2, c) == Size(s, c) && SamePayload(s, s2, c)
    {
      assert Live(s1, c);
      PayloadTrans(s, s1, s2, c);
    }
    assert Live(s2, va);
    assert !FreeSeam(s2, va) by { LiveNoSeam(s2, va); }
  }

  lemma LiveNoSeam(s: Heap, b: nat)
    requires Live(s, b)
    ensures !FreeSeam(s, b)
  {
  }

  lemma GrownFit(s: Heap, list: seq<nat>, s1: Heap, need: nat, va: nat)
    requires Tiles(s) && Longer(s, s1, va) && NoFit(s, list, need) && forall i | 0 <= i < |list| :: list[i] in s.hdrs
    ensures NoFit(s1, [va] + list, need) <==> Size(s1, va) < need
  {
    LongerTiles(s, s1, va);
    hide Tiles, Longer, SameBlock;
    forall i | 0 <= i < |list|
      ensures Size(s1, list[i]) == Size(s, list[i])
    {
      SameSize(s, s1, list[i]);
    }
    if Size(s1, va) < need {
      forall i | 0 <= i < |list| + 1
        ensures Size(s1, ([va] + list)[i]) < need
      {
        if i > 0 { assert ([va] + list)[i] == list[i - 1]; }
      }
    } else {
      assert ([va] + list)[0] == va;
    }
  }

  // Nothing free on either side of f.
  ghost predicate Lone(s: Heap, f: nat)
  {
    f in s.hdrs && IsFree(s, f) && !FreeSeam(s, f) && !FreeSeam(s, End(s, f))
  }

  lemma RelinkedAt(s: Heap, s': Heap, c: nat)
    requires Relinked(s, s') && c in s.hdrs
    ensures c in s'.hdrs && Size(s', c) == Size(s, c) && IsFree(s', c) == IsFree(s, c)
  {
  }

  lemma MergedIs(s: Heap, b: nat, n: nat, size: nat)
    requires n == End(s, b) && size == Size(s, b) + TAGS + Size(s, n)
    ensures Merged(s, b) == Heap(s.mem[b := size][b + HDR + size := size], s.va, s.end, s.hdrs - {n})
  {
  }

  // ---------------------------------------------------------------- a client

  datatype Op =
    // base: where the first pages go; page: what new pages hold
    | Alloc(n: nat, ok: bool, base: nat, page: map<nat, nat>)
    | Release(p: nat)
    | Put(p: nat, off: nat, v: nat)

  predicate OpOk(op: Op)
  {
    match op
    case Alloc(n, _, base, _) => n <= WORD - 16 && base > 0 && PageAligned(base)
    case Release(_) => true
    case Put(_, off, _) => Aligned8(off)
  }

  // What the client knows of a payload: the size it asked for, and the words it stored.
  datatype Owned = Owned(size: nat, words: map<nat, nat>)

  function Stored(o: Owned, off: nat, v: nat): Owned { o.(words := o.words[off := v]) }

  function Step(held: map<nat, Owned>, op: Op, p: nat): map<nat, Owned>
  {
    match op
    case Alloc(n, _, _, _) => if p == 0 then held else held[p := Owned(n, map[])]
    case Release(q) => held - {q}
    case Put(q, off, v) => if q in held && off + 8 <= held[q].size then held[q := Stored(held[q], off, v)] else held
  }

  // What the client holds after these operations and answers.
  function Client(ops: seq<Op>, ptrs: seq<nat>): map<nat, Owned>
    requires |ops| == |ptrs|
  {
    if ops == [] then map[] else Step(Client(ops[..|ops| - 1], ptrs[..|ops| - 1]), ops[|ops| - 1], ptrs[|ops| - 1])
  }

  // Payload p is an allocated block's, large enough, and reads as the client left it.
  ghost predicate Holds(s: Heap, p: nat, o: Owned)
  {
    p >= HDR && Live(s, p - HDR) && o.size <= Size(s, p - HDR)
    && forall off | off in o.words :: off + 8 <= o.size && Get(s.mem, p + off) == o.words[off]
  }

  ghost predicate HoldsAll(s: Heap, held: map<nat, Owned>)
  {
    (forall p | p in held :: Holds(s, p, held[p]))
    && (forall b: nat | Live(s, b) :: b + HDR in held)
  }

  lemma HeldLive(s: Heap, held: map<nat, Owned>, p: nat)
    requires HoldsAll(s, held) && p in held
    ensures p >= HDR && Live(s, p - HDR) && held[p].size <= Size(s, p - HDR) && Holds(s, p, held[p])
  {
    assert Holds(s, p, held[p]);
  }

  lemma EndAligned(s: Heap)
    requires Tiles(s)
    ensures PageAligned(s.end) && (s.va != 0 ==> s.end > 0)
  {
    if s.va != 0 { Block(s, s.va); }
  }

  lemma HoldsKept(s: Heap, s': Heap, p: nat, o: Owned)
    requires Holds(s, p, o) && Live(s', p - HDR) && Size(s', p - HDR) == Size(s, p - HDR) && SamePayload(s, s', p - HDR)
    ensures Holds(s', p, o)
  {
  }

  lemma HoldsGained(s: Heap, s': Heap, held: map<nat, Owned>, p: nat, n: nat)
    requires HoldsAll(s, held) && p >= HDR && Gained(s, s', p - HDR, Need(n)) && Need(n) >= n
    ensures HoldsAll(s', held[p := Owned(n, map[])])
  {
    hide SamePayload, Live, Size, Holds;
    var held' := held[p := Owned(n, map[])];
    forall q | q in held'
      ensures Holds(s', q, held'[q])
    {
      if q != p {
        HeldLive(s, held, q);
        assert Holds(s, q, held[q]);
        HoldsKept(s, s', q, held[q]);
      } else {
        NewHolds(s', p, n);
      }
    }
  }

  lemma NewHolds(s: Heap, p: nat, n: nat)
    requires p >= HDR && Live(s, p - HDR) && n <= Size(s, p - HDR)
    ensures Holds(s, p, Owned(n, map[]))
  {
  }

  lemma HoldsSame(s: Heap, s': Heap, held: map<nat, Owned>)
    requires HoldsAll(s, held) && (forall c :: Live(s', c) <==> Live(s, c)) && KeepsLive(s, s', {})
    ensures HoldsAll(s', held)
  {
    hide SamePayload, Live, Size, Holds;
    forall q | q in held
      ensures Holds(s', q, held[q])
    {
      HeldLive(s, held, q);
      assert Holds(s, q, held[q]);
      HoldsKept(s, s', q, held[q]);
    }
  }

  lemma HoldsReleased(s: Heap, s': Heap, held: map<nat, Owned>, p: nat)
    requires HoldsAll(s, held) && p in held && p >= HDR && Released(s, s', p - HDR)
    ensures HoldsAll(s', held - {p})
  {
    hide SamePayload, Live, Size, Holds, Lone;
    forall q | q in held && q != p
      ensures Holds(s', q, held[q])
    {
      HeldLive(s, held, q);
      assert Holds(s, q, held[q]);
      assert Live(s, q - HDR) && q - HDR !in {p - HDR};
      HoldsKept(s, s', q, held[q]);
    }
  }

  lemma ReleasedPairs(s: Heap, s': Heap, h: nat)
    requires Released(s, s', h)
    ensures NoFreePair(s) ==> NoFreePair(s')
  {
  }

  // Payloads of different blocks share no byte.
  lemma PayloadsApart(s: Heap, b: nat, c: nat)
    requires Tiles(s) && Live(s, b) && Live(s, c) && b != c
    ensures b + HDR + Size(s, b) + 8 <= c || c + HDR + Size(s, c) + 8 <= b
  {
    if b < c { Apart(s, b, c); } else { Apart(s, c, b); }
  }

  lemma HoldsPutAt(s: Heap, held: map<nat, Owned>, p: nat, off: nat, v: nat, q: nat)
    requires Tiles(s) && HoldsAll(s, held) && p in held && q in held && off + 8 <= held[p].size && p >= HDR
    requires var s' := Write(s, p + off, v); (forall c :: Live(s', c) <==> Live(s, c)) && SameTags(s, s', p - HDR)
    ensures Holds(Write(s, p + off, v), q, if q == p then Stored(held[p], off, v) else held[q])
  {
    hide Tiles, Live, Size, Holds, HoldsAll, SameTags, Write, Stored;
    HeldLive(s, held, p);
    HeldLive(s, held, q);
    SameTagsAt(s, Write(s, p + off, v), p - HDR, q - HDR);
    if q != p { OtherHolds(s, q, held[q], p, off, v); } else { PutHolds(s, p, held[p], off, v); }
  }

  lemma OtherHolds(s: Heap, q: nat, o: Owned, p: nat, off: nat, v: nat)
    requires Tiles(s) && Holds(s, q, o) && p >= HDR && Live(s, p - HDR) && p != q && off + 8 <= Size(s, p - HDR)
    requires var s' := Write(s, p + off, v); Live(s', q - HDR) && Size(s', q - HDR) == Size(s, q - HDR)
    ensures Holds(Write(s, p + off, v), q, o)
  {
    OtherPayload(s, q - HDR, p - HDR, off, v);
    hide Tiles, Write, SamePayload, Holds, Live;
    HoldsKept(s, Write(s, p + off, v), q, o);
  }

  lemma OtherPayload(s: Heap, b: nat, c: nat, off: nat, v: nat)
    requires Tiles(s) && Live(s, b) && Live(s, c) && b != c && off + 8 <= Size(s, c)
    ensures SamePayload(s, Write(s, c + HDR + off, v), b)
  {
    PayloadsApart(s, b, c);
    ElsewhereSame(s, b, c + HDR + off, v);
  }

  lemma HoldsPut(s: Heap, held: map<nat, Owned>, p: nat, off: nat, v: nat)
    requires Tiles(s) && HoldsAll(s, held) && p in held && off + 8 <= held[p].size && p >= HDR
    requires var s' := Write(s, p + off, v); (forall c :: Live(s', c) <==> Live(s, c)) && SameTags(s, s', p - HDR)
    ensures HoldsAll(Write(s, p + off, v), held[p := Stored(held[p], off, v)])
  {
    var s', held' := Write(s, p + off, v), held[p := Stored(held[p], off, v)];
    hide Tiles, Live, Holds, SameTags, Write, Stored;
    forall q | q in held'
      ensures Holds(s', q, held'[q])
    {
      HoldsPutAt(s, held, p, off, v, q);
    }
  }

  lemma SameTagsAt(s: Heap, s': Heap, b: nat, c: nat)
    requires SameTags(s, s', b) && Live(s, c)
    ensures Size(s', c) == Size(s, c)
  {
  }

  lemma ElsewhereSame(s: Heap, b: nat, a: nat, v: nat)
    requires a < b + HDR || b + HDR + Size(s, b) <= a
    ensures SamePayload(s, Write(s, a, v), b)
  {
  }

  lemma PutHolds(s: Heap, p: nat, o: Owned, off: nat, v: nat)
    requires Holds(s, p, o) && off + 8 <= o.size
    requires var s' := Write(s, p + off, v); Live(s', p - HDR) && Size(s', p - HDR) == Size(s, p - HDR)
    ensures Holds(Write(s, p + off, v), p, Stored(o, off, v))
  {
  }

  // The same tags everywhere, except the link of b.
  ghost predicate SameTags(s: Heap, s': Heap, b: nat)
  {
    s'.hdrs == s.hdrs && forall c | c in s.hdrs ::
      Size(s', c) == Size(s, c) && IsFree(s', c) == IsFree(s, c) && (c != b ==> Next(s', c) == Next(s, c))
  }

  lemma PokeTags(s: Heap, b: nat, a: nat, v: nat, off: nat)
    requires Tiles(s) && b in s.hdrs && a == b + HDR + off && Aligned8(off) && off + 8 <= Size(s, b)
    ensures a in s.mem && Tiles(Write(s, a, v)) && SameTags(s, Write(s, a, v), b)
  {
    var s' := Write(s, a, v);
    Block(s, b);
    assert a in s.mem by { SumAligned(b, off); }
    hide Tiles, Aligned8, Aligned16, SamePayload, SameBlock;
    InnerWord(s, b, a, v);
    assert IsFree(s', b) == IsFree(s, b);
    forall c | c in s.hdrs
      ensures Size(s', c) == Size(s, c) && IsFree(s', c) == IsFree(s, c) && (c != b ==> Next(s', c) == Next(s, c))
    {
      if c != b { SameSize(s, s', c); }
    }
  }

  lemma SameTagsSeams(s: Heap, s': Heap, b: nat)
    requires SameTags(s, s', b)
    ensures NoNewPair(s, s', {}) && (forall c :: Live(s', c) <==> Live(s, c))
  {
    hide Size, IsFree, Next;
    forall e | FreeSeam(s', e)
      ensures FreeSeam(s, e)
    {
      var c :| EndsAt(s', c, e) && IsFree(s', c);
      assert EndsAt(s, c, e);
    }
  }

  lemma SameTagsChain(s: Heap, s': Heap, b: nat, fl: nat, list: seq<nat>)
    requires SameTags(s, s', b) && Chain(s, fl, list, {}) && !IsFree(s, b)
    ensures Chain(s', fl, list, {})
  {
    hide Size, IsFree, Next, Chain;
    ChainHead(s, fl, list, {});
    ChainDistinct(s, fl, list, {});
    forall i | 0 <= i < |list|
      ensures LinkOk(s', list, {}, i)
    {
      ChainFacts(s, fl, list, {}, i);
    }
    forall c | c in s'.hdrs && IsFree(s', c)
      ensures c in list
    {
      ChainMember(s, fl, list, {}, c);
    }
    MakeChain(s', fl, list, {});
  }

  // A store inside an allocated payload disturbs no tag and no link.
  lemma PokeOk(s: Heap, fl: nat, list: seq<nat>, b: nat, a: nat, v: nat, off: nat)
    requires Tiles(s) && Chain(s, fl, list, {}) && Live(s, b) && a == b + HDR + off && Aligned8(off)
    requires off + 8 <= Size(s, b)
    ensures a in s.mem
    ensures var s' := Write(s, a, v);
            Tiles(s') && Chain(s', fl, list, {}) && SameTags(s, s', b) && NoNewPair(s, s', {})
            && (forall c :: Live(s', c) <==> Live(s, c))
  {
    hide Tiles, Chain, Aligned8, SameTags, Write;
    PokeTags(s, b, a, v, off);
    SameTagsSeams(s, Write(s, a, v), b);
    SameTagsChain(s, Write(s, a, v), b, fl, list);
  }

  lemma SumAligned(b: nat, off: nat)
    requires Aligned16(b) && Aligned8(off)
    ensures Aligned8(b + HDR + off)
  {
    var p, q := b / 16, off / 8;
    assert b + HDR + off == 8 * (2 * p + 3 + q);
  }

  lemma SplitIs(s: Heap, b: nat, need: nat, n: nat, rest: nat)
    requires need + TAGS <= Size(s, b) && n == b + TAGS + need && rest == Size(s, b) - need - TAGS
    ensures Split(s, b, need) ==
            Heap(s.mem[n := rest][n + 8 := 1][n + 16 := Next(s, b)]
                      [b := need][b + 8 := 0][b + HDR + need := need][n + HDR + rest := rest],
                 s.va, s.end, s.hdrs + {n})
  {
  }

  lemma SplitKeys(s: Heap, b: nat, need: nat)
    requires Tiles(s) && b in s.hdrs && need >= 16 && Aligned16(need) && Size(s, b) >= need + TAGS + 16
    ensures Split(s, b, need).mem.Keys == s.mem.Keys
  {
    SplitMapped(s, b, need);
    hide Tiles;
  }

  lemma CutFrame(s: Heap, s': Heap, b: nat, need: nat, prev: nat)
    requires need + TAGS <= Size(s, b) && s' == LinkTo(Split(s, b, need), prev, b + TAGS + need)
    ensures s'.va == s.va && s'.end == s.end
  {
  }

  class SpudHeap {
    var mem: map<nat, nat>  // the mapped words of the heap region
    var fl: nat             // spud_fl
    var heapVa: nat         // spud_heap_va
    var heapEnd: nat        // spud_heap_end
    ghost var hdrs: set<nat>
    ghost var list: seq<nat>

    ghost function S(): Heap
      reads this
    {
      Heap(mem, heapVa, heapEnd, hdrs)
    }

    ghost predicate Valid()
      reads this
    {
      Tiles(S()) && Chain(S(), fl, list, {})
    }

    constructor ()
      ensures Valid() && heapVa == heapEnd == 0 && forall b :: !Live(S(), b)
    {
      mem, fl, heapVa, heapEnd, hdrs, list := map[], 0, 0, 0, {}, [];
    }

    // Only mapped words are read and written.
    function Load(a: nat): nat
      requires a in mem
      reads this
    {
      mem[a]
    }

    method Store(a: nat, v: nat)
      requires a in mem
      modifies this`mem
      ensures mem == old(mem)[a := v] && mem.Keys == old(mem.Keys)
    {
      mem := mem[a := v];
    }

    // *pp = v, where pp is the list head or the link of the block prev.
    method StoreLink(prev: nat, v: nat)
      requires prev != 0 ==> prev + 16 in mem
      modifies this`mem, this`fl
      ensures S() == LinkTo(old(S()), prev, v) && fl == if prev == 0 then v else old(fl)
    {
      if prev == 0 { fl := v; } else { Store(prev + 16, v); }
    }

    // First fit: null exactly when no free block is large enough, otherwise the payload of the first one that is.
    method AllocLocked(need: nat) returns (p: nat)
      requires Valid() && need >= 16 && Aligned16(need)
      modifies this
      ensures Valid()
      ensures p == 0 <==> NoFit(old(S()), old(list), need)
      ensures p == 0 ==> S() == old(S()) && list == old(list)
      ensures p != 0 ==> Allocated(old(S()), old(list), need, S(), p) && NoNewPair(old(S()), S(), {})
    {
      hide Tiles, Chain, Took, NoNewPair, Drop, LinkTo, IsFree, Aligned16;
      p := 0;
      var prev, h := 0, fl;
      ghost var k := 0;
      ghost var s := S();
      ChainHead(s, fl, list, {});
      while h != 0
        invariant S() == s && list == old(list) && fl == old(fl) && k <= |list|
        invariant h == (if k < |list| then list[k] else 0) && prev == if k == 0 then 0 else list[k - 1]
        invariant forall i | 0 <= i < k :: Size(s, list[i]) < need
        decreases |list| - k
      {
        ChainFacts(s, fl, list, {}, k);
        BlockWords(s, h);
        if Load(h) >= need {
          assert FirstFit(s, list, need, k);
          if Load(h) >= need + TAGS + 16 {
            Cut(prev, h, need, k);
          } else {
            TakeWhole(s, fl, list, k, need, prev);
            if k > 0 {
              ChainFacts(s, fl, list, {}, k - 1);
              BlockWords(s, prev);
            }
            var next := Load(h + 16);
            Store(h + 8, 0);
            assert prev != 0 ==> prev + 16 in mem;
            StoreLink(prev, next);
            list := Drop(list, k);
          }
          return h + HDR;
        }
        prev, h := h, Load(h + 16);
        k := k + 1;
      }
      if k < |list| { ChainFacts(s, fl, list, {}, k); }
    }

    // The front of block h is allocated and the rest takes its place on the list.
    method Cut(prev: nat, h: nat, need: nat, ghost k: nat)
      requires Valid() && need >= 16 && Aligned16(need)
      requires k < |list| && h == list[k] && prev == (if k == 0 then 0 else list[k - 1])
      requires Size(S(), h) >= need + TAGS + 16
      modifies this
      ensures Valid() && Took(old(S()), S(), h, need) && NoNewPair(old(S()), S(), {})
      ensures list == old(list)[k := h + TAGS + need]
    {
      hide Tiles, Chain, Took, NoNewPair, SameShape, IsFree, Next, Aligned16, LinkTo, Split;
      ghost var s := S();
      ChainFacts(s, fl, list, {}, k);
      if k > 0 {
        ChainFacts(s, fl, list, {}, k - 1);
        BlockWords(s, prev);
      }
      SplitChain(s, fl, list, k, need, prev);
      SplitBlocks(s, h, need, prev);
      CutStores(h, need);
      var n := h + TAGS + need;
      assert prev != 0 ==> prev + 16 in mem by { SplitKeys(s, h, need); }
      StoreLink(prev, n);
      list := list[k := n];
      CutFrame(s, S(), h, need, prev);
      TookFront(s, S(), h, n, need);
    }

    method CutStores(h: nat, need: nat)
      requires Tiles(S()) && h in hdrs && need >= 16 && Aligned16(need) && Size(S(), h) >= need + TAGS + 16
      modifies this`mem, this`hdrs
      ensures S() == Split(old(S()), h, need)
    {
      hide Tiles, Aligned16, Split, IsFree;
      ghost var s := S();
      BlockWords(s, h);
      var n, rest := h + TAGS + need, Load(h) - need - TAGS;
      ghost var foot := n + HDR + rest;
      assert n in mem && n + 8 in mem && n + 16 in mem && h + HDR + need in mem
             && foot in mem by { SplitMapped(s, h, need); }
      SplitIs(s, h, need, n, rest);
      StoreHeader(n, rest, 1, Load(h + 16));
      StoreTags(h, need, 0, n + HDR + rest, rest);
      hdrs := hdrs + {n};
    }

    // The allocated block's size, flag and footer, then the footer of the remainder.
    method StoreTags(h: nat, size: nat, flag: nat, foot: nat, rest: nat)
      requires h in mem && h + 8 in mem && h + HDR + size in mem && foot in mem
      modifies this`mem
      ensures mem == old(mem)[h := size][h + 8 := flag][h + HDR + size := size][foot := rest]
      ensures mem.Keys == old(mem.Keys)
    {
      Store(h, size);
      Store(h + 8, flag);
      Store(h + HDR + size, size);
      Store(foot, rest);
    }

    method StoreHeader(h: nat, size: nat, flag: nat, next: nat)
      requires h in mem && h + 8 in mem && h + 16 in mem
      modifies this`mem
      ensures mem == old(mem)[h := size][h + 8 := flag][h + 16 := next] && mem.Keys == old(mem.Keys)
    {
      Store(h, size);
      Store(h + 8, flag);
      Store(h + 16, next);
    }

    // Takes h off the free list, if it is there.
    method Unlink(h: nat)
      requires Valid() && h != 0
      modifies this`mem, this`fl, this`list
      ensures Tiles(S()) && Relinked(old(S()), S())
      ensures h in old(list) ==> Chain(S(), fl, list, {h})
      ensures h !in old(list) ==> S() == old(S()) && fl == old(fl) && list == old(list)
    {
      hide Tiles, Chain, SameShape, LinkTo, IsFree, Drop;
      var prev, cur := 0, fl;
      ghost var k := 0;
      ghost var s := S();
      ChainHead(s, fl, list, {});
      while cur != 0 && cur != h
        invariant S() == s && list == old(list) && fl == old(fl) && k <= |list|
        invariant cur == (if k < |list| then list[k] else 0) && prev == if k == 0 then 0 else list[k - 1]
        invariant forall i | 0 <= i < k :: list[i] != h
        decreases |list| - k
      {
        ChainFacts(s, fl, list, {}, k);
        BlockWords(s, cur);
        prev, cur := cur, Load(cur + 16);
        k := k + 1;
      }
      if k < |list| { ChainFacts(s, fl, list, {}, k); }
      if cur != 0 {
        BlockWords(s, cur);
        if k > 0 {
          ChainFacts(s, fl, list, {}, k - 1);
          BlockWords(s, prev);
        }
        UnlinkChain(s, fl, list, {}, k);
        assert {} + {h} == {h};
        LinkToFacts(s, prev, Next(s, cur));
        StoreLink(prev, Load(cur + 16));
        list := Drop(list, k);
      } else {
        forall c | c in s.hdrs
          ensures SameShape(s, s, c)
        {
          ShapeSelf(s, c);
        }
      }
    }

    // h grows over the free block right after it, n.
    method Absorb(h: nat, n: nat)
      requires Valid() && h in hdrs && IsFree(S(), h) && n in hdrs && n == End(S(), h) && IsFree(S(), n)
      modifies this
      ensures Valid() && Fused(old(S()), S(), h, n)
    {
      hide Tiles, Chain, SameShape, Relinked, IsFree, Merged;
      ghost var s := S();
      BlockWords(s, n);
      ChainMember(s, fl, list, {}, n);
      Unlink(n);
      ghost var s1 := S();
      RelinkedAt(s, s1, h);
      RelinkedAt(s, s1, n);
      BlockWords(s1, h);
      BlockWords(s1, n);
      MergeFused(s, s1, h);
      MergeChain(s1, fl, list, h);
      var size := Load(h) + TAGS + Load(n);
      Store(h, size);
      Store(h + HDR + size, size);
      hdrs := hdrs - {n};
      assert S() == Merged(s1, h) by { MergedIs(s1, h, n, size); }
    }

    // Merges the free block h with every free block after it.
    method MergeAfter(h: nat)
      requires Valid() && h in hdrs && IsFree(S(), h)
      modifies this
      ensures Valid() && Kept(old(S()), S())
      ensures h in hdrs && IsFree(S(), h) && !NextFree(S(), h) && End(old(S()), h) <= End(S(), h)
    {
      hide Tiles, Chain, SameShape, Kept, BlockOk;
      ghost var s := S();
      KeptSelf(s);
      while true
        invariant Valid() && h in hdrs && IsFree(S(), h) && Kept(s, S()) && End(s, h) <= End(S(), h)
        decreases |hdrs|
      {
        ghost var t := S();
        BlockWords(t, h);
        var nx := h + TAGS + Load(h);
        if nx >= heapEnd {
          EndNotHeader(t, nx);
          break;
        }
        NextBlock(t, h);
        BlockWords(t, nx);
        if Load(nx + 8) == 0 { break; }
        Absorb(h, nx);
        FusedKept(t, S(), h, nx);
        KeptTrans(s, t, S());
      }
    }

    // Merges the free block h into the free block before it, as long as there is one.
    method MergeBefore(h: nat) returns (f: nat)
      requires Valid() && h in hdrs && IsFree(S(), h) && !NextFree(S(), h)
      modifies this
      ensures Valid() && Kept(old(S()), S())
      ensures Lone(S(), f) && f <= h && End(S(), f) == End(old(S()), h)
    {
      hide Tiles, Chain, SameShape, Kept, BlockOk, FreeBelow, NextFree, Lone;
      ghost var s := S();
      KeptSelf(s);
      f := h;
      while true
        invariant Valid() && f in hdrs && IsFree(S(), f) && Kept(s, S()) && f <= h && End(S(), f) == End(s, h)
        invariant !NextFree(S(), f)
        decreases |hdrs|
      {
        ghost var t := S();
        BlockWords(t, f);
        if f <= heapVa { break; }
        Below(t, f);
        var pf := Load(f - 8);
        if pf == 0 || pf > f - heapVa { break; }
        var pr := f - TAGS - pf;
        BlockWords(t, pr);
        if pr < heapVa || Load(pr + 8) == 0 || Load(pr) != pf { break; }
        Absorb(pr, f);
        FusedKept(t, S(), pr, f);
        FusedNext(t, S(), pr, f);
        KeptTrans(s, t, S());
        f := pr;
      }
      MakeLone(S(), f);
    }

    // Frees merge with both neighbours: the block that holds h0 afterwards has no free neighbour.
    method Coalesce(h0: nat) returns (ghost f: nat)
      requires Valid() && h0 in hdrs && IsFree(S(), h0)
      modifies this
      ensures Valid() && Kept(old(S()), S())
      ensures Lone(S(), f) && f <= h0 && End(old(S()), h0) <= End(S(), f)
    {
      hide Tiles, Chain, SameShape, Kept, Lone;
      ghost var s := S();
      MergeAfter(h0);
      ghost var s1 := S();
      f := MergeBefore(h0);
      KeptTrans(s, s1, S());
    }

    // spud_free: null is ignored; otherwise exactly that block stops being allocated, and free neighbours are merged.
    method Free(p: nat)
      requires Valid() && (p != 0 ==> p >= HDR && Live(S(), p - HDR))
      modifies this
      ensures Valid() && heapVa == old(heapVa) && heapEnd == old(heapEnd)
      ensures p == 0 ==> S() == old(S()) && list == old(list)
      ensures p != 0 ==> Released(old(S()), S(), p - HDR)
    {
      if p == 0 { return; }
      hide Tiles, Chain, SameShape, Write, Kept, Released, Lone, Live, SameBlock, Marked;
      var h := p - HDR;
      ghost var s := S();
      assert h in hdrs && !IsFree(s, h) by { LiveBlock(s, h); }
      BlockWords(s, h);
      MarkFree(s, fl, list, h);
      Push(h);
      list := [h] + list;
      ghost var s1 := S();
      ghost var f := Coalesce(h);
      CoalescedIs(s, s1, S(), h, f);
    }

    method Push(h: nat)
      requires h + 8 in mem && h + 16 in mem
      modifies this`mem, this`fl
      ensures S() == Write(Write(old(S()), h + 8, 1), h + 16, old(fl)) && fl == h
    {
      Store(h + 8, 1);
      Store(h + 16, fl);
      fl := h;
    }

    // spud_grow, where va is the answer of SYS_MMAP (an address at the end of the heap, or a failure) and page what
    // the new pages hold: one more free block, first on the list.
    method Grow(want: nat, va: int, page: map<nat, nat>)
      requires Valid() && MmapAnswer(S(), va)
      modifies this
      ensures Valid()
      ensures va <= 0 ==> S() == old(S()) && list == old(list)
      ensures va > 0 ==> Longer(old(S()), S(), va) && IsFree(S(), va) && list == [va as nat] + old(list)
                         && Size(S(), va) == Pages(want) * PAGE - TAGS && heapEnd == va + Pages(want) * PAGE
    {
      hide Tiles, Chain;
      var pages := Pages(want);
      if va <= 0 { return; }
      ghost var s := S();
      ghost var s' := WithArena(s, va, va + pages * PAGE, page, fl);
      WithArenaLonger(s, va, pages, page, fl);
      LongerTiles(s, s', va);
      LongerChain(s, s', fl, list, va);
      AddChunk(va, va + pages * PAGE, page);
      list := [va as nat] + list;
    }

    method AddChunk(va: nat, end: nat, page: map<nat, nat>)
      requires va + TAGS + 16 <= end && Aligned16(va) && Aligned16(end - va - TAGS)
      modifies this`mem, this`fl, this`heapVa, this`heapEnd, this`hdrs
      ensures S() == WithArena(old(S()), va, end, page, old(fl)) && fl == va
    {
      var size := end - va - TAGS;
      hide WithArena, Aligned8, Aligned16, NewWords;
      TagsAligned(va, size);
      ExtendedIs(S(), va, end, page, fl, size);
      if heapVa == 0 { heapVa := va; }
      heapEnd := end;
      mem := mem + NewWords(page, va, end);
      hdrs := hdrs + {va};
      StoreHeader(va, size, 1, fl);
      Store(va + HDR + size, size);
      fl := va;
    }

    // spud_malloc: null exactly when no free block fits and growing failed or added too small a block. Otherwise the
    // payload is new, large enough and apart from every other; no allocated payload changes. A block added in vain
    // stays free next to the old last block.
    method Malloc(n: nat, va: int, page: map<nat, nat>) returns (p: nat)
      requires Valid() && n <= WORD - 16 && MmapAnswer(S(), va)
      modifies this
      ensures Valid()
      ensures p == 0
              <==> NoFit(old(S()), old(list), Need(n)) && (va <= 0 || Pages(Want(Need(n))) * PAGE - TAGS < Need(n))
      ensures p != 0 ==> p >= HDR && Gained(old(S()), S(), p - HDR, Need(n)) && NoNewPair(old(S()), S(), {})
      ensures p == 0 ==> (forall c :: Live(S(), c) <==> Live(old(S()), c)) && KeepsLive(old(S()), S(), {})
                         && NoNewPair(old(S()), S(), if va <= 0 then {} else {va as nat})
      ensures p == 0 && va > 0 ==> (FreeSeam(S(), va) <==> FreeBelow(old(S()), va))
      ensures heapEnd
              == if NoFit(old(S()), old(list), Need(n)) && va > 0 then va + Pages(Want(Need(n))) * PAGE
                 else old(heapEnd)
    {
      hide Tiles, Chain, Longer, NoFit, Allocated, Took, KeepsLive, NoNewPair, Live, Gained, IsFree, Aligned16, Size;
      hide Want, FreeSeam, FreeBelow;
      ghost var s, l := S(), list;
      var need := Need(n);
      NeedCovers(n);
      ListInHdrs(s, fl, l);
      p := AllocLocked(need);
      if p != 0 {
        AllocatedGain(s, l, need, S(), p);
      } else {
        Grow(Want(need), va, page);
        ghost var s1 := S();
        KeptSelf(s);
        if va > 0 {
          LongerKeeps(s, s1, va);
          GrownFit(s, l, s1, need, va);
        }
        p := AllocLocked(need);
        if p != 0 {
          GrownAllocated(s, s1, l, need, va, S(), p);
        }
      }
    }

    // The client stores a word in a payload it holds.
    method Poke(p: nat, off: nat, v: nat)
      requires Valid() && p >= HDR && Live(S(), p - HDR) && Aligned8(off) && off + 8 <= Size(S(), p - HDR)
      modifies this`mem
      ensures Valid() && S() == Write(old(S()), p + off, v) && SameTags(old(S()), S(), p - HDR)
      ensures NoNewPair(old(S()), S(), {}) && forall c :: Live(S(), c) <==> Live(old(S()), c)
    {
      hide Tiles, Chain, Live, NoNewPair, SameTags, Aligned8;
      PokeOk(S(), fl, list, p - HDR, p + off, v, off);
      Store(p + off, v);
    }

    // One call or store of a client; vain: growing added a block, but too small a one.
    method Apply(op: Op, held: map<nat, Owned>) returns (p: nat, vain: bool)
      requires Valid() && OpOk(op) && HoldsAll(S(), held)
      modifies this
      ensures Valid() && HoldsAll(S(), Step(held, op, p))
      ensures !vain && old(NoFreePair(S())) ==> NoFreePair(S())
    {
      hide Tiles, Chain, HoldsAll, Gained, Released, Live, KeepsLive, NoFreePair, NoNewPair, NoFit, SameTags, FreeSeam;
      hide FreeBelow, Need, Pages, Want, PageAligned, Aligned8, Write, Size;
      p, vain := 0, false;
      ghost var s := S();
      match op {
        case Alloc(n, ok, base, page) =>
          var va := if !ok then 0 else if heapVa == 0 then base else heapEnd;
          EndAligned(s);
          p := Malloc(n, va, page);
          NeedCovers(n);
          if p != 0 { HoldsGained(s, S(), held, p, n); } else { HoldsSame(s, S(), held); }
          vain := p == 0 && va > 0;
          if !vain { PairsKept(s, S()); }
        case Release(q) =>
          if q in held { HeldLive(s, held, q); }
          if q == 0 || q in held {
            Free(q);
            if q != 0 {
              HoldsReleased(s, S(), held, q);
              ReleasedPairs(s, S(), q - HDR);
            }
          }
          assert q !in held ==> held - {q} == held;
        case Put(q, off, v) =>
          if q in held && off + 8 <= held[q].size {
            HeldLive(s, held, q);
            Poke(q, off, v);
            HoldsPut(s, held, q, off, v);
            PairsKept(s, S());
          }
      }
    }

    // Any run of a client that frees only what it holds and stores only inside its payloads. 'ptrs' are the answers
    // it got. Everything it stored is still there, and no two free blocks are neighbours unless some growth was
    // in vain.
    method Run(ops: seq<Op>) returns (ptrs: seq<nat>, vain: bool)
      requires Valid() && (forall c :: !Live(S(), c)) && forall i | 0 <= i < |ops| :: OpOk(ops[i])
      modifies this
      ensures Valid() && |ptrs| == |ops|
      ensures HoldsAll(S(), Client(ops, ptrs))
      ensures !vain && old(NoFreePair(S())) ==> NoFreePair(S())
    {
      ptrs, vain := [], false;
      var held: map<nat, Owned> := map[];
      var i := 0;
      assert HoldsAll(S(), held);
      hide Tiles, Chain, HoldsAll, NoFreePair, Step;
      while i < |ops|
        invariant Valid() && i == |ptrs| <= |ops| && held == Client(ops[..i], ptrs) && HoldsAll(S(), held)
        invariant !vain && old(NoFreePair(S())) ==> NoFreePair(S())
      {
        var p, bad := Apply(ops[i], held);
        ptrs, vain := ptrs + [p], vain || bad;
        held := Step(held, ops[i], p);
        assert ops[..i + 1][..i] == ops[..i] && ptrs[..i] + [p] == ptrs;
        i := i + 1;
      }
      assert ops[..i] == ops;
    }
  }
}
