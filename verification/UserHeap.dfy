// The user-space heap of spud.h: a first-fit free list over one growing region of blocks with boundary tags.
// A block is a header (size, free flag, next), its payload, and a footer repeating the size.
module UserHeap {
  import opened PhysMemory
  import opened Alignment

  const CHUNK: nat := 65536
  const HDR: nat := 24
  const TAGS: nat := 32  // header and footer

  // The mapped words of the region (keyed by byte address, a multiple of 8) and, for the proof, where its
  // headers are.
  datatype Heap = Heap(mem: map<nat, nat>, va: nat, end: nat, hdrs: set<nat>)

  function Get(m: map<nat, nat>, a: nat): nat { if a in m then m[a] else 0 }

  function Size(s: Heap, b: nat): nat { Get(s.mem, b) }
  predicate IsFree(s: Heap, b: nat) { Get(s.mem, b + 8) != 0 }
  function Next(s: Heap, b: nat): nat { Get(s.mem, b + 16) }
  function End(s: Heap, b: nat): nat { b + TAGS + Size(s, b) }

  // The addresses of a block's tags, and the next block, are aligned when the block is.
  lemma TagsAligned(b: nat, size: nat)
    requires Aligned16(b) && Aligned16(size)
    ensures Aligned8(b) && Aligned8(b + 8) && Aligned8(b + 16) && Aligned8(b + HDR + size) && Aligned16(b + TAGS + size)
  {
    var p := Sixteenth(b);
    var q := Sixteenth(size);
    hide Aligned8, Aligned16;
    Times8(b, 2 * p);
    Times8(b + 8, 2 * p + 1);
    Times8(b + 16, 2 * p + 2);
    Times8(b + HDR + size, 2 * p + 2 * q + 3);
    Times16(b + TAGS + size, p + q + 2);
  }

  ghost predicate BlockOk(s: Heap, b: nat)
  {
    s.va <= b && Aligned16(b) && Aligned16(Size(s, b)) && Size(s, b) >= 16 && End(s, b) <= s.end
    && Get(s.mem, b + HDR + Size(s, b)) == Size(s, b)
    && (End(s, b) == s.end || End(s, b) in s.hdrs)
    && (b == s.va || PrevOk(s, b))
  }

  // The footer below b leads to the block that ends at b.
  ghost predicate PrevOk(s: Heap, b: nat)
  {
    b >= 8 && var f := Get(s.mem, b - 8); b >= TAGS + f && b - TAGS - f in s.hdrs && Size(s, b - TAGS - f) == f
  }

  // The blocks tile the region.
  ghost predicate Tiles(s: Heap)
  {
    (forall a :: a in s.mem <==> s.va <= a < s.end && Aligned8(a))
    && (if s.va == 0 then s.end == 0 && s.hdrs == {} else s.va % PAGE == 0 && s.end % PAGE == 0 && s.va in s.hdrs)
    && (forall b {:trigger BlockOk(s, b)} | b in s.hdrs :: BlockOk(s, b))
    && (forall b, c | b in s.hdrs && c in s.hdrs && b < c :: End(s, b) <= c)
  }

  // fl starts the chain of next pointers through 'list', which holds exactly the free blocks, each once,
  // except those in 'off' (free, but taken off the list while they are merged).
  ghost predicate Chain(s: Heap, fl: nat, list: seq<nat>, off: set<nat>)
  {
    fl == (if list == [] then 0 else list[0])
    && (forall i | 0 <= i < |list| :: Next(s, list[i]) == if i + 1 < |list| then list[i + 1] else 0)
    && (forall i, j | 0 <= i < j < |list| :: list[i] != list[j])
    && (forall i | 0 <= i < |list| :: list[i] in s.hdrs && IsFree(s, list[i]) && list[i] !in off && list[i] != 0)
    && (forall b | b in s.hdrs && IsFree(s, b) :: b in list || b in off)
  }

  ghost predicate Live(s: Heap, b: nat)
  {
    b in s.hdrs && !IsFree(s, b)
  }

  // Allocated blocks keep their place, their size and every word of their payload.
  ghost predicate KeepsLive(s: Heap, s': Heap, but: set<nat>)
  {
    forall b | Live(s, b) && b !in but ::
      Live(s', b) && Size(s', b) == Size(s, b) && SamePayload(s, s', b)
  }

  ghost predicate SamePayload(s: Heap, s': Heap, b: nat)
  {
    forall a | b + HDR <= a < b + HDR + Size(s, b) :: Get(s'.mem, a) == Get(s.mem, a)
  }

  // Free blocks on both sides of address e.
  ghost predicate FreeSeam(s: Heap, e: nat)
  {
    e in s.hdrs && IsFree(s, e) && exists b :: EndsAt(s, b, e) && IsFree(s, b)
  }

  ghost predicate EndsAt(s: Heap, b: nat, e: nat)
  {
    b in s.hdrs && End(s, b) == e
  }

  ghost predicate NoFreePair(s: Heap)
  {
    forall e :: !FreeSeam(s, e)
  }

  // ---------------------------------------------------------------- reading the tiling

  lemma BlockWords(s: Heap, b: nat)
    requires Tiles(s) && b in s.hdrs
    ensures b in s.mem && b + 8 in s.mem && b + 16 in s.mem && b + HDR + Size(s, b) in s.mem
    ensures b >= s.va > 0 && End(s, b) <= s.end && Size(s, b) >= 16
  {
    hide Aligned8, Aligned16;
    assert BlockOk(s, b);
    TagsAligned(b, Size(s, b));
  }

  // A word write inside one block leaves every other block as it was, except its view of the footer below.
  ghost predicate InBlock(s: Heap, b: nat, a: nat)
  {
    b in s.hdrs && b <= a < End(s, b)
  }

  lemma OneBlock(s: Heap, b: nat, c: nat, a: nat)
    requires Tiles(s) && InBlock(s, b, a) && InBlock(s, c, a)
    ensures b == c
  {
  }

  // Every address of the region lies in exactly one block.
  lemma {:induction false} Covered(s: Heap, b: nat, a: nat) returns (c: nat)
    requires Tiles(s) && b in s.hdrs && b <= a < s.end
    ensures InBlock(s, c, a) && forall d | InBlock(s, d, a) :: d == c
    decreases s.end - b
  {
    assert BlockOk(s, b);
    if a < End(s, b) {
      c := b;
      forall d | InBlock(s, d, a)
        ensures d == c
      {
        OneBlock(s, d, c, a);
      }
    } else {
      c := Covered(s, End(s, b), a);
    }
  }

  // ---------------------------------------------------------------- rebuilding part of the tiling

  // Words outside lo..hi are as they were.
  ghost predicate Only(m: map<nat, nat>, m': map<nat, nat>, lo: nat, hi: nat)
  {
    m'.Keys == m.Keys && forall a: nat | !(lo <= a < hi) :: Get(m', a) == Get(m, a)
  }

  ghost predicate SameBlock(s: Heap, s': Heap, c: nat)
  {
    Size(s', c) == Size(s, c) && IsFree(s', c) == IsFree(s, c) && Next(s', c) == Next(s, c) && SamePayload(s, s', c)
    && Get(s'.mem, c + HDR + Size(s, c)) == Get(s.mem, c + HDR + Size(s, c))
  }

  lemma OnlyKeeps(s: Heap, s': Heap, lo: nat, hi: nat, c: nat)
    requires Only(s.mem, s'.mem, lo, hi) && (End(s, c) <= lo || hi <= c)
    ensures SameBlock(s, s', c)
  {
  }

  lemma Block(s: Heap, b: nat)
    requires Tiles(s) && b in s.hdrs
    ensures BlockOk(s, b)
  {
  }

  lemma Apart(s: Heap, b: nat, c: nat)
    requires Tiles(s) && b in s.hdrs && c in s.hdrs && b < c
    ensures End(s, b) <= c
  {
  }

  // The blocks between lo and hi were replaced by 'inner'.
  ghost predicate Replaced(s: Heap, s': Heap, lo: nat, hi: nat, inner: set<nat>)
  {
    lo in s.hdrs && lo < hi && (hi == s.end || hi in s.hdrs) && s'.va == s.va && s'.end == s.end
    && Only(s.mem, s'.mem, lo, hi)
    && lo in inner && (forall x | x in inner :: lo <= x < hi)
    && (forall x :: x in s'.hdrs <==> x in inner || (x in s.hdrs && !(lo <= x < hi)))
  }

  lemma OutsidePrev(s: Heap, s': Heap, lo: nat, hi: nat, inner: set<nat>, c: nat)
    requires Tiles(s) && Replaced(s, s', lo, hi, inner) && c in s.hdrs && c != s.va && (c <= lo || hi < c)
    ensures PrevOk(s', c)
  {
    hide Tiles, Aligned8, Aligned16, SamePayload, Only;
    Block(s, c);
    var p := c - TAGS - Get(s.mem, c - 8);
    Block(s, p);
    if hi < c {
      if p < hi && hi in s.hdrs { Apart(s, p, hi); }
      Block(s, lo);
    }
    OnlyAt(s.mem, s'.mem, lo, hi, c - 8);
    OnlyKeeps(s, s', lo, hi, p);
  }

  lemma OnlyAt(m: map<nat, nat>, m': map<nat, nat>, lo: nat, hi: nat, a: nat)
    requires Only(m, m', lo, hi) && !(lo <= a < hi)
    ensures Get(m', a) == Get(m, a)
  {
  }

  lemma OutsideBlock(s: Heap, s': Heap, lo: nat, hi: nat, inner: set<nat>, c: nat)
    requires Tiles(s) && Replaced(s, s', lo, hi, inner) && c in s.hdrs && !(lo <= c < hi)
    requires hi < s.end ==> PrevOk(s', hi)
    ensures BlockOk(s', c) && SameBlock(s, s', c) && (c < lo ==> End(s, c) <= lo)
  {
    hide Tiles, Aligned8, Aligned16, SamePayload, Only;
    Block(s, c);
    if c < lo { Apart(s, c, lo); }
    OnlyKeeps(s, s', lo, hi, c);
    if c != s.va && c != hi { OutsidePrev(s, s', lo, hi, inner, c); }
  }

  lemma MakeTiles(s: Heap, s': Heap)
    requires Tiles(s) && s'.va == s.va > 0 && s'.end == s.end && s'.mem.Keys == s.mem.Keys && s.va in s'.hdrs
    requires forall b {:trigger BlockOk(s', b)} | b in s'.hdrs :: BlockOk(s', b)
    requires forall b, c | b in s'.hdrs && c in s'.hdrs && b < c :: End(s', b) <= c
    ensures Tiles(s')
  {
    hide Aligned8, BlockOk;
  }

  lemma RetileApart(s: Heap, s': Heap, lo: nat, hi: nat, inner: set<nat>, b: nat, c: nat)
    requires Tiles(s) && Replaced(s, s', lo, hi, inner) && (hi < s.end ==> PrevOk(s', hi))
    requires forall x | x in inner :: End(s', x) <= hi
    requires forall x, y | x in inner && y in inner && x < y :: End(s', x) <= y
    requires b in s'.hdrs && c in s'.hdrs && b < c
    ensures End(s', b) <= c
  {
    hide Aligned8, Aligned16, Tiles, SamePayload, Only, PrevOk;
    if b !in inner {
      OutsideBlock(s, s', lo, hi, inner, b);
      if c !in inner { Apart(s, b, c); }
    }
  }

  lemma Retile(s: Heap, s': Heap, lo: nat, hi: nat, inner: set<nat>)
    requires Tiles(s) && Replaced(s, s', lo, hi, inner)
    requires hi < s.end ==> PrevOk(s', hi)
    requires forall x | x in inner :: BlockOk(s', x) && End(s', x) <= hi
    requires forall x, y | x in inner && y in inner && x < y :: End(s', x) <= y
    ensures Tiles(s')
  {
    BlockWords(s, lo);
    VaIsHeader(s, lo);
    hide Aligned8, Aligned16, BlockOk, SamePayload, Tiles, Only, PrevOk;
    forall c {:trigger BlockOk(s', c)} | c in s'.hdrs
      ensures BlockOk(s', c)
    {
      if c !in inner { OutsideBlock(s, s', lo, hi, inner, c); }
    }
    forall b, c | b in s'.hdrs && c in s'.hdrs && b < c
      ensures End(s', b) <= c
    {
      RetileApart(s, s', lo, hi, inner, b, c);
    }
    OnlyKeys(s.mem, s'.mem, lo, hi);
    MakeTiles(s, s');
  }

  lemma VaIsHeader(s: Heap, lo: nat)
    requires Tiles(s) && lo in s.hdrs
    ensures s.va in s.hdrs && s.va <= lo
  {
    Block(s, lo);
  }

  lemma OnlyKeys(m: map<nat, nat>, m': map<nat, nat>, lo: nat, hi: nat)
    requires Only(m, m', lo, hi)
    ensures m'.Keys == m.Keys
  {
  }

  // ---------------------------------------------------------------- the three kinds of update

  // One word of block b other than its size and footer: the flag, the link, a payload word.
  lemma InnerWord(s: Heap, b: nat, a: nat, v: nat)
    requires Tiles(s) && b in s.hdrs && b + 8 <= a < End(s, b) - 8 && a in s.mem
    ensures var s' := Heap(s.mem[a := v], s.va, s.end, s.hdrs);
            Tiles(s') && Size(s', b) == Size(s, b)
            && (forall c | c in s.hdrs && c != b :: SameBlock(s, s', c))
  {
    hide Aligned8, Aligned16, SamePayload, Tiles;
    var s' := Heap(s.mem[a := v], s.va, s.end, s.hdrs);
    Block(s, b);
    InnerReplaced(s, s', b);
    if b != s.va { OutsidePrev(s, s', b, End(s, b), {b}, b); }
    if End(s, b) < s.end {
      assert b == End(s, b) - TAGS - Get(s'.mem, End(s, b) - 8);
    }
    Retile(s, s', b, End(s, b), {b});
    forall c | c in s.hdrs && c != b
      ensures SameBlock(s, s', c)
    {
      if c > b { Apart(s, b, c); }
      OutsideBlock(s, s', b, End(s, b), {b}, c);
    }
  }

  lemma InnerReplaced(s: Heap, s': Heap, b: nat)
    requires Tiles(s) && b in s.hdrs && s'.hdrs == s.hdrs && s'.va == s.va && s'.end == s.end
    requires Only(s.mem, s'.mem, b, End(s, b))
    ensures Replaced(s, s', b, End(s, b), {b})
  {
    hide Aligned8, Aligned16, Only;
    Block(s, b);
    forall x | x in s.hdrs && b <= x < End(s, b)
      ensures x == b
    {
      if x > b { Apart(s, b, x); }
    }
  }

  // Block b and the one right after it become one block.
  function Merged(s: Heap, b: nat): Heap
  {
    var n := End(s, b);
    var size := Size(s, b) + TAGS + Size(s, n);
    Heap(s.mem[b := size][b + HDR + size := size], s.va, s.end, s.hdrs - {n})
  }

  lemma MergedTiles(s: Heap, b: nat)
    requires Tiles(s) && b in s.hdrs && End(s, b) in s.hdrs
    ensures var s', n := Merged(s, b), End(s, b);
            Tiles(s') && End(s', b) == End(s, n) && IsFree(s', b) == IsFree(s, b) && Next(s', b) == Next(s, b)
            && (forall c | c in s.hdrs && c != b && c != n :: SameBlock(s, s', c))
  {
    hide Aligned8, Aligned16, SamePayload, Tiles;
    var s', n := Merged(s, b), End(s, b);
    var hi := End(s, n);
    Block(s, b);
    Block(s, n);
    MergedFacts(s, b);
    if hi < s.end { assert b == hi - TAGS - Get(s'.mem, hi - 8); }
    if b != s.va { OutsidePrev(s, s', b, hi, {b}, b); }
    JoinAligned(Size(s, b), Size(s, n));
    assert BlockOk(s', b);
    Retile(s, s', b, hi, {b});
    forall c | c in s.hdrs && c != b && c != n
      ensures SameBlock(s, s', c)
    {
      if c > b { Apart(s, b, c); }
      if c > n { Apart(s, n, c); }
      OutsideBlock(s, s', b, hi, {b}, c);
    }
  }

  lemma MergedReads(s: Heap, b: nat)
    requires Size(s, b) >= 16 && {b, End(s, End(s, b)) - 8} <= s.mem.Keys && b + TAGS <= End(s, End(s, b))
    ensures var s', n := Merged(s, b), End(s, b);
            Size(s', b) == Size(s, b) + TAGS + Size(s, n) && Get(s'.mem, End(s, n) - 8) == Size(s', b)
            && Only(s.mem, s'.mem, b, End(s, n))
            && IsFree(s', b) == IsFree(s, b) && Next(s', b) == Next(s, b)
  {
  }

  lemma MergedFacts(s: Heap, b: nat)
    requires Tiles(s) && b in s.hdrs && End(s, b) in s.hdrs
    ensures var s', n := Merged(s, b), End(s, b);
            Replaced(s, s', b, End(s, n), {b}) && Size(s', b) == Size(s, b) + TAGS + Size(s, n)
            && Get(s'.mem, End(s, n) - 8) == Size(s', b)
            && IsFree(s', b) == IsFree(s, b) && Next(s', b) == Next(s, b)
  {
    var n := End(s, b);
    BlockWords(s, b);
    BlockWords(s, n);
    Block(s, n);
    assert End(s, n) - 8 == n + HDR + Size(s, n);
    MergedReads(s, b);
    hide Aligned8, Aligned16, Tiles, BlockOk, Only, Size, Next, IsFree;
    forall x | x in s.hdrs && b <= x < End(s, n)
      ensures x == b || x == n
    {
      if x > b { Apart(s, b, x); }
      if x > n { Apart(s, n, x); }
    }
  }

  // Block b is cut in two: 'need' bytes allocated in front, the rest a free block.
  function Split(s: Heap, b: nat, need: nat): Heap
    requires need + TAGS <= Size(s, b)
  {
    var n, rest := b + TAGS + need, Size(s, b) - need - TAGS;
    Heap(s.mem[n := rest][n + 8 := 1][n + 16 := Next(s, b)]
              [b := need][b + 8 := 0][b + HDR + need := need][n + HDR + rest := rest],
         s.va, s.end, s.hdrs + {n})
  }

  lemma SplitReads(s: Heap, b: nat, need: nat)
    requires need + TAGS + 16 <= Size(s, b) && need >= 16
    requires var n := b + TAGS + need; {b, b + 8, b + HDR + need, n, n + 8, n + 16,
                                        n + HDR + (Size(s, b) - need - TAGS)} <= s.mem.Keys
    ensures var s', n := Split(s, b, need), b + TAGS + need;
            Size(s', b) == need && Size(s', n) == Size(s, b) - need - TAGS && !IsFree(s', b) && IsFree(s', n)
            && Next(s', n) == Next(s, b)
            && Get(s'.mem, n - 8) == need && Get(s'.mem, End(s, b) - 8) == Size(s', n)
            && Only(s.mem, s'.mem, b, End(s, b))
  {
  }

  lemma SplitFacts(s: Heap, b: nat, need: nat)
    requires Tiles(s) && b in s.hdrs && need >= 16 && Aligned16(need) && need + TAGS + 16 <= Size(s, b)
    ensures var s', n := Split(s, b, need), b + TAGS + need;
            Replaced(s, s', b, End(s, b), {b, n}) && Size(s', b) == need && Size(s', n) == Size(s, b) - need - TAGS
            && !IsFree(s', b) && IsFree(s', n) && Next(s', n) == Next(s, b)
            && Get(s'.mem, n - 8) == need && Get(s'.mem, End(s, b) - 8) == Size(s', n) && n !in s.hdrs
            && s.mem.Keys == s'.mem.Keys
  {
    var n := b + TAGS + need;
    SplitMapped(s, b, need);
    SplitReads(s, b, need);
    Block(s, b);
    hide Aligned8, Aligned16, Only, BlockOk, Tiles, Size, IsFree, Next;
    forall x | x in s.hdrs && b <= x < End(s, b)
      ensures x == b
    {
      if x > b { Apart(s, b, x); }
    }
  }

  // The words a split writes are mapped.
  lemma SplitMapped(s: Heap, b: nat, need: nat)
    requires Tiles(s) && b in s.hdrs && need >= 16 && Aligned16(need) && need + TAGS + 16 <= Size(s, b)
    ensures var n := b + TAGS + need; {b, b + 8, b + HDR + need, n, n + 8, n + 16,
                                       n + HDR + (Size(s, b) - need - TAGS)} <= s.mem.Keys
  {
    BlockWords(s, b);
    Block(s, b);
    TagsAligned(b, need);
    CutAligned(Size(s, b), need);
    TagsAligned(b + TAGS + need, Size(s, b) - need - TAGS);
    hide Aligned8, Aligned16, BlockOk;
  }

  lemma SplitTiles(s: Heap, b: nat, need: nat)
    requires Tiles(s) && b in s.hdrs && need >= 16 && Aligned16(need) && need + TAGS + 16 <= Size(s, b)
    ensures var s' := Split(s, b, need);
            Tiles(s') && (forall c | c in s.hdrs && c != b :: SameBlock(s, s', c))
  {
    hide Aligned8, Aligned16, SamePayload, Tiles, Split;
    var s', n := Split(s, b, need), b + TAGS + need;
    var hi := End(s, b);
    Block(s, b);
    SplitFacts(s, b, need);
    TagsAligned(b, need);
    CutAligned(Size(s, b), need);
    if hi < s.end { assert n == hi - TAGS - Get(s'.mem, hi - 8); }
    if b != s.va { OutsidePrev(s, s', b, hi, {b, n}, b); }
    assert BlockOk(s', b);
    assert BlockOk(s', n) by { assert b == n - TAGS - Get(s'.mem, n - 8); }
    Retile(s, s', b, hi, {b, n});
    forall c | c in s.hdrs && c != b
      ensures SameBlock(s, s', c)
    {
      if c > b { Apart(s, b, c); }
      OutsideBlock(s, s', b, hi, {b, n}, c);
    }
  }

  // ---------------------------------------------------------------- the free list

  function Write(s: Heap, a: nat, v: nat): Heap
  {
    Heap(s.mem[a := v], s.va, s.end, s.hdrs)
  }

  // Storing through pp: the list head, or the next field of the block before.
  function LinkTo(s: Heap, prev: nat, v: nat): Heap
  {
    if prev == 0 then s else Write(s, prev + 16, v)
  }

  lemma ChainFacts(s: Heap, fl: nat, list: seq<nat>, off: set<nat>, k: nat)
    requires Chain(s, fl, list, off) && k < |list|
    ensures list[k] in s.hdrs && IsFree(s, list[k]) && list[k] != 0 && list[k] !in off
    ensures Next(s, list[k]) == if k + 1 < |list| then list[k + 1] else 0
    ensures forall j | 0 <= j < |list| && j != k :: list[j] != list[k]
  {
  }

  lemma ChainMember(s: Heap, fl: nat, list: seq<nat>, off: set<nat>, b: nat)
    requires Chain(s, fl, list, off) && b in s.hdrs && IsFree(s, b)
    ensures b in list || b in off
  {
  }

  lemma ChainHead(s: Heap, fl: nat, list: seq<nat>, off: set<nat>)
    requires Chain(s, fl, list, off)
    ensures fl == if list == [] then 0 else list[0]
  {
  }

  lemma ChainDistinct(s: Heap, fl: nat, list: seq<nat>, off: set<nat>)
    requires Chain(s, fl, list, off)
    ensures forall i, j | 0 <= i < j < |list| :: list[i] != list[j]
  {
  }

  // What holds of every element of a chain.
  ghost predicate LinkOk(s: Heap, list: seq<nat>, off: set<nat>, i: nat)
    requires i < |list|
  {
    list[i] in s.hdrs && IsFree(s, list[i]) && list[i] != 0 && list[i] !in off
    && Next(s, list[i]) == if i + 1 < |list| then list[i + 1] else 0
  }

  lemma MakeChain(s: Heap, fl: nat, list: seq<nat>, off: set<nat>)
    requires fl == if list == [] then 0 else list[0]
    requires forall i | 0 <= i < |list| :: LinkOk(s, list, off, i)
    requires forall i, j | 0 <= i < j < |list| :: list[i] != list[j]
    requires forall b | b in s.hdrs && IsFree(s, b) :: b in list || b in off
    ensures Chain(s, fl, list, off)
  {
    hide IsFree, Next;
    forall i | 0 <= i < |list|
      ensures Next(s, list[i]) == if i + 1 < |list| then list[i + 1] else 0
      ensures list[i] in s.hdrs && IsFree(s, list[i]) && list[i] !in off && list[i] != 0
    {
      assert LinkOk(s, list, off, i);
    }
  }

  function Drop(list: seq<nat>, k: nat): (r: seq<nat>)
    requires k < |list|
    ensures |r| == |list| - 1
    ensures forall i | 0 <= i < |r| :: r[i] == if i < k then list[i] else list[i + 1]
    ensures forall b | b in list && b != list[k] :: b in r
  {
    list[..k] + list[k + 1..]
  }

  // Taking list[k] off the list.
  lemma UnlinkChain(s: Heap, fl: nat, list: seq<nat>, off: set<nat>, k: nat)
    requires Tiles(s) && Chain(s, fl, list, off) && k < |list|
    ensures var prev, next := if k == 0 then 0 else list[k - 1], Next(s, list[k]);
            var s' := LinkTo(s, prev, next);
            Tiles(s') && Chain(s', if k == 0 then next else fl, Drop(list, k), off + {list[k]})
            && (forall c | c in s.hdrs :: SameShape(s, s', c))
            && (forall c | c in s.hdrs && c != prev :: Next(s', c) == Next(s, c))
  {
    hide Tiles, SameShape, SameBlock, Chain, Next, IsFree;
    var h := list[k];
    var next, prev := Next(s, h), if k == 0 then 0 else list[k - 1];
    ChainFacts(s, fl, list, off, k);
    ChainHead(s, fl, list, off);
    if k > 0 {
      ChainFacts(s, fl, list, off, k - 1);
    }
    LinkToFacts(s, prev, next);
    var s', list' := LinkTo(s, prev, next), Drop(list, k);
    ChainDistinct(s, fl, list, off);
    forall i | 0 <= i < |list'|
      ensures LinkOk(s', list', off + {h}, i)
    {
      ChainFacts(s, fl, list, off, if i < k then i else i + 1);
    }
    forall b | b in s'.hdrs && IsFree(s', b)
      ensures b in list' || b in off + {h}
    {
      ChainMember(s, fl, list, off, b);
    }
    MakeChain(s', if k == 0 then next else fl, list', off + {h});
  }

  // Size, flag, footer and payload as before; the link may differ.
  ghost predicate SameShape(s: Heap, s': Heap, c: nat)
  {
    Size(s', c) == Size(s, c) && IsFree(s', c) == IsFree(s, c) && SamePayload(s, s', c)
  }

  lemma ShapeSelf(s: Heap, c: nat)
    ensures SameShape(s, s, c)
  {
  }

  lemma ShapeTrans(s: Heap, s1: Heap, s2: Heap, c: nat)
    requires SameShape(s, s1, c) && SameShape(s1, s2, c)
    ensures SameShape(s, s2, c)
  {
  }

  lemma BlockShape(s: Heap, s': Heap, c: nat)
    requires SameBlock(s, s', c)
    ensures SameShape(s, s', c)
  {
  }

  lemma LinkWord(s: Heap, b: nat, v: nat)
    requires Tiles(s) && b in s.hdrs
    ensures var s' := Write(s, b + 16, v);
            Tiles(s') && SameShape(s, s', b) && Next(s', b) == v
            && (forall c | c in s.hdrs && c != b :: SameBlock(s, s', c))
  {
    hide Tiles, Aligned8, Aligned16;
    BlockWords(s, b);
    Block(s, b);
    InnerWord(s, b, b + 16, v);
  }

  lemma FlagWord(s: Heap, b: nat, v: nat)
    requires Tiles(s) && b in s.hdrs
    ensures var s' := Write(s, b + 8, v);
            Tiles(s') && Size(s', b) == Size(s, b) && Next(s', b) == Next(s, b) && SamePayload(s, s', b)
            && (IsFree(s', b) <==> v != 0)
            && (forall c | c in s.hdrs && c != b :: SameBlock(s, s', c))
  {
    hide Tiles, Aligned8, Aligned16;
    BlockWords(s, b);
    Block(s, b);
    InnerWord(s, b, b + 8, v);
  }

  lemma LinkToFacts(s: Heap, prev: nat, v: nat)
    requires Tiles(s) && (prev != 0 ==> prev in s.hdrs)
    ensures var s' := LinkTo(s, prev, v);
            Tiles(s') && s'.hdrs == s.hdrs && s'.va == s.va && s'.end == s.end && (prev != 0 ==> Next(s', prev) == v)
            && (forall c | c in s.hdrs ::
                  SameShape(s, s', c) && Size(s', c) == Size(s, c) && IsFree(s', c) == IsFree(s, c))
            && (forall c | c in s.hdrs && (prev == 0 || c != prev) :: Next(s', c) == Next(s, c))
  {
    hide Tiles, SamePayload;
    if prev != 0 { LinkWord(s, prev, v); }
    forall c | c in s.hdrs
      ensures SameShape(s, LinkTo(s, prev, v), c)
    {
      if prev == 0 { ShapeSelf(s, c); }
    }
  }

  // A block taken off the list becomes allocated.
  lemma TakeChain(s: Heap, fl: nat, list: seq<nat>, h: nat)
    requires Tiles(s) && Chain(s, fl, list, {h}) && h in s.hdrs
    ensures Chain(Write(s, h + 8, 0), fl, list, {})
  {
    hide Tiles, SamePayload;
    FlagWord(s, h, 0);
  }

  // A block off the list goes to its front.
  lemma ConsChain(s: Heap, fl: nat, list: seq<nat>, h: nat)
    requires Tiles(s) && Chain(s, fl, list, {h}) && h in s.hdrs && IsFree(s, h)
    ensures Chain(Write(s, h + 16, fl), h, [h] + list, {})
  {
    BlockWords(s, h);
    hide Tiles, SamePayload, Chain, Next, IsFree;
    LinkWord(s, h, fl);
    ChainHead(s, fl, list, {h});
    ChainDistinct(s, fl, list, {h});
    var s', list' := Write(s, h + 16, fl), [h] + list;
    forall i | 0 <= i < |list'|
      ensures LinkOk(s', list', {}, i)
      ensures i > 0 ==> list'[i] != h
    {
      if i > 0 { ChainFacts(s, fl, list, {h}, i - 1); }
    }
    forall b | b in s'.hdrs && IsFree(s', b)
      ensures b in list'
    {
      ChainMember(s, fl, list, {h}, b);
      if b in list { assert list'[1..] == list; }
    }
    MakeChain(s', h, list', {});
  }

  // Merging in a block that is off the list.
  lemma MergeChain(s: Heap, fl: nat, list: seq<nat>, b: nat)
    requires Tiles(s) && b in s.hdrs && End(s, b) in s.hdrs && Chain(s, fl, list, {End(s, b)})
    ensures Chain(Merged(s, b), fl, list, {})
  {
    MergedTiles(s, b);
    hide Tiles, SamePayload;
  }

  // The remainder of a split takes the place of the block on the list.
  lemma SplitChain(s: Heap, fl: nat, list: seq<nat>, k: nat, need: nat, prev: nat)
    requires Tiles(s) && Chain(s, fl, list, {}) && k < |list| && need >= 16 && Aligned16(need)
    requires need + TAGS + 16 <= Size(s, list[k])
    requires prev == if k == 0 then 0 else list[k - 1]
    ensures prev != list[k] && (prev != 0 ==> prev in s.hdrs) && list[k] in s.hdrs
    ensures var n := list[k] + TAGS + need;
            Chain(LinkTo(Split(s, list[k], need), prev, n), if k == 0 then n else fl, list[k := n], {})
  {
    hide Tiles, Chain, SameShape, IsFree, Next, LinkTo, Split, Aligned16, Size;
    ChainFacts(s, fl, list, {}, k);
    if k > 0 { ChainFacts(s, fl, list, {}, k - 1); }
    SplitBlocks(s, list[k], need, prev);
    var n := list[k] + TAGS + need;
    SplitLinks(s, LinkTo(Split(s, list[k], need), prev, n), fl, list, k, list[k], n, prev);
  }

  // The blocks after a split and the store through pp.
  lemma SplitBlocks(s: Heap, b: nat, need: nat, prev: nat)
    requires Tiles(s) && b in s.hdrs && need >= 16 && Aligned16(need) && need + TAGS + 16 <= Size(s, b)
    requires prev != b && (prev != 0 ==> prev in s.hdrs)
    ensures var n := b + TAGS + need;
            var s' := LinkTo(Split(s, b, need), prev, n);
            Tiles(s') && s'.hdrs == s.hdrs + {n} && n !in s.hdrs && n != 0
            && Size(s', b) == need && !IsFree(s', b) && End(s', b) == n && End(s', n) == End(s, b) && IsFree(s', n)
            && Next(s', n) == Next(s, b)
            && (prev != 0 ==> Next(s', prev) == n)
            && (forall c | c in s.hdrs && c != b :: SameShape(s, s', c) && IsFree(s', c) == IsFree(s, c))
            && (forall c | c in s.hdrs && c != b && (prev == 0 || c != prev) :: Next(s', c) == Next(s, c))
  {
    hide Tiles, SameShape, Aligned16, IsFree, Next, LinkTo;
    var n, s1 := b + TAGS + need, Split(s, b, need);
    BlockWords(s, b);
    assert s1.hdrs == s.hdrs + {n};
    hide Split, SameBlock, Replaced;
    SplitTiles(s, b, need);
    SplitFacts(s, b, need);
    assert forall c | c in s.hdrs && c != b :: Next(s1, c) == Next(s, c) && IsFree(s1, c) == IsFree(s, c) by {
      AllSame(s, s1, b);
    }
    LinkToFacts(s1, prev, n);
    forall c | c in s.hdrs && c != b
      ensures SameShape(s, LinkTo(s1, prev, n), c)
    {
      BlockShape(s, s1, c);
      ShapeTrans(s, s1, LinkTo(s1, prev, n), c);
    }
  }

  lemma AllSame(s: Heap, s': Heap, b: nat)
    requires forall c | c in s.hdrs && c != b :: SameBlock(s, s', c)
    ensures forall c | c in s.hdrs && c != b :: Next(s', c) == Next(s, c) && IsFree(s', c) == IsFree(s, c)
  {
    hide SamePayload, Next, IsFree;
  }

  lemma SplitLinks(s: Heap, s': Heap, fl: nat, list: seq<nat>, k: nat, b: nat, n: nat, prev: nat)
    requires Chain(s, fl, list, {}) && k < |list| && b == list[k] && n !in s.hdrs && n != 0 && s'.hdrs == s.hdrs + {n}
    requires !IsFree(s', b) && IsFree(s', n) && Next(s', n) == Next(s, b)
    requires forall c | c in s.hdrs && c != b :: IsFree(s', c) == IsFree(s, c)
    requires if k == 0 then prev == 0 else prev == list[k - 1] && prev != 0 && Next(s', prev) == n
    requires forall c | c in s.hdrs && c != b && (prev == 0 || c != prev) :: Next(s', c) == Next(s, c)
    ensures Chain(s', if k == 0 then n else fl, list[k := n], {})
  {
    hide Chain, Next, IsFree;
    ChainHead(s, fl, list, {});
    ChainDistinct(s, fl, list, {});
    var list' := list[k := n];
    forall i | 0 <= i < |list'|
      ensures LinkOk(s', list', {}, i)
      ensures i != k ==> list'[i] != n
    {
      ChainFacts(s, fl, list, {}, i);
    }
    forall c | c in s'.hdrs && IsFree(s', c)
      ensures c in list'
    {
      assert list'[k] == n;
      if c != n && c != b {
        ChainMember(s, fl, list, {}, c);
        var i :| 0 <= i < |list| && list[i] == c;
        assert list'[i] == c;
      }
    }
    MakeChain(s', if k == 0 then n else fl, list', {});
  }

  // ---------------------------------------------------------------- growing

  // The words of new pages, with whatever they hold.
  function NewWords(page: map<nat, nat>, va: nat, end: nat): (m: map<nat, nat>)
    ensures forall a :: a in m <==> va <= a < end && Aligned8(a)
  {
    map a: nat | va <= a < end && Aligned8(a) :: Get(page, a)
  }

  // The region extended by one free block.
  function WithArena(s: Heap, va: nat, end: nat, page: map<nat, nat>, fl: nat): Heap
    requires va + TAGS <= end
  {
    var size := end - va - TAGS;
    Heap((s.mem + NewWords(page, va, end))[va := size][va + 8 := 1][va + 16 := fl][va + HDR + size := size],
         if s.va == 0 then va else s.va, end, s.hdrs + {va})
  }

  lemma WithArenaReads(s: Heap, va: nat, end: nat, page: map<nat, nat>, fl: nat)
    requires va + TAGS + 16 <= end && Aligned16(va) && Aligned16(end - va - TAGS)
    requires forall a | a in s.mem :: a < va
    ensures var s' := WithArena(s, va, end, page, fl);
            s'.va == (if s.va == 0 then va else s.va) && s'.hdrs == s.hdrs + {va} && s'.end == end
            && Size(s', va) == end - va - TAGS && IsFree(s', va) && Next(s', va) == fl
            && Get(s'.mem, end - 8) == Size(s', va)
            && (forall a: nat | a < va :: Get(s'.mem, a) == Get(s.mem, a))
            && (forall a :: a in s'.mem <==> a in s.mem || (va <= a < end && Aligned8(a)))
  {
    TagsAligned(va, end - va - TAGS);
    hide Aligned8, Aligned16;
  }

  // The block that ends where the region ends.
  lemma LastBlock(s: Heap) returns (b: nat)
    requires Tiles(s) && s.va != 0
    ensures b in s.hdrs && End(s, b) == s.end
  {
    Block(s, s.va);
    b := Covered(s, s.va, s.end - 1);
    Block(s, b);
  }

  lemma WithArenaBlock(s: Heap, s': Heap, va: nat, c: nat)
    requires Tiles(s) && c in s.hdrs && va == s.end <= s'.end && s'.va == s.va && s'.hdrs == s.hdrs + {va}
    requires forall a: nat | a < va :: Get(s'.mem, a) == Get(s.mem, a)
    ensures BlockOk(s', c) && SameBlock(s, s', c)
  {
    hide Aligned8, Aligned16, Tiles, PrevOk, SamePayload;
    Block(s, c);
    assert SamePayload(s, s', c) by { WithArenaPayload(s, s', va, c); }
    if c != s.va { WithArenaPrev(s, s', va, c); }
  }

  lemma WithArenaPayload(s: Heap, s': Heap, va: nat, c: nat)
    requires End(s, c) <= va
    requires forall a: nat | a < va :: Get(s'.mem, a) == Get(s.mem, a)
    ensures SamePayload(s, s', c)
  {
    hide Get;
  }

  lemma WithArenaPrev(s: Heap, s': Heap, va: nat, c: nat)
    requires c < va && PrevOk(s, c) && s.hdrs <= s'.hdrs
    requires forall a: nat | a < va :: Get(s'.mem, a) == Get(s.mem, a)
    ensures PrevOk(s', c)
  {
    hide Get;
    assert Get(s'.mem, c - 8) == Get(s.mem, c - 8);
    var p: nat := c - TAGS - Get(s.mem, c - 8);
    assert Get(s'.mem, p) == Get(s.mem, p);
  }

  // One free block was added at va, and nothing below changed.
  ghost predicate Longer(s: Heap, s': Heap, va: nat)
  {
    va > 0 && PageAligned(va) && (s.va != 0 ==> va == s.end) && s'.va == (if s.va == 0 then va else s.va)
    && s'.hdrs == s.hdrs + {va} && PageAligned(s'.end) && va + TAGS + 16 <= s'.end
    && (forall a :: a in s'.mem <==> a in s.mem || (va <= a < s'.end && Aligned8(a)))
    && (forall a: nat | a < va :: Get(s'.mem, a) == Get(s.mem, a))
    && Size(s', va) == s'.end - va - TAGS && Aligned16(va) && Aligned16(Size(s', va))
    && Get(s'.mem, s'.end - 8) == Size(s', va)
  }

  lemma LongerHead(s: Heap, s': Heap, va: nat)
    requires Tiles(s) && Longer(s, s', va)
    ensures BlockOk(s', va)
  {
    hide Aligned8, Aligned16, PageAligned;
    if s.va != 0 {
      var last := LastBlock(s);
      hide Tiles;
      Block(s, last);
      assert last == va - TAGS - Get(s'.mem, va - 8);
    }
  }

  lemma LongerOld(s: Heap, s': Heap, va: nat, c: nat)
    requires Tiles(s) && Longer(s, s', va) && c in s.hdrs
    ensures SameBlock(s, s', c) && BlockOk(s', c) && c < va && End(s', c) <= va && va !in s.hdrs
  {
    assert s.va != 0;
    if va in s.hdrs { Block(s, va); }
    hide Aligned8, Aligned16, PageAligned, Tiles;
    Block(s, c);
    WithArenaBlock(s, s', va, c);
    SameSize(s, s', c);
  }

  lemma LongerWords(s: Heap, s': Heap, va: nat)
    requires Tiles(s) && Longer(s, s', va)
    ensures forall a :: a in s'.mem <==> s'.va <= a < s'.end && Aligned8(a)
    ensures s'.va % PAGE == 0 && s'.end % PAGE == 0 && s'.va in s'.hdrs && s'.va > 0
  {
    if s.va != 0 { Block(s, s.va); }
    hide BlockOk, Aligned8;
  }

  lemma TilesFrom(s: Heap)
    requires forall a :: a in s.mem <==> s.va <= a < s.end && Aligned8(a)
    requires s.va % PAGE == 0 && s.end % PAGE == 0 && s.va in s.hdrs && s.va > 0
    requires forall b {:trigger BlockOk(s, b)} | b in s.hdrs :: BlockOk(s, b)
    requires forall b, c | b in s.hdrs && c in s.hdrs && b < c :: End(s, b) <= c
    ensures Tiles(s)
  {
    hide BlockOk, Aligned8, End;
  }

  lemma LongerTiles(s: Heap, s': Heap, va: nat)
    requires Tiles(s) && Longer(s, s', va)
    ensures Tiles(s') && va !in s.hdrs && forall c | c in s.hdrs :: SameBlock(s, s', c) && c < va
  {
    assert s'.hdrs == s.hdrs + {va};
    assert va !in s.hdrs by { if va in s.hdrs { Block(s, va); } }
    hide Aligned8, SameBlock, BlockOk, Tiles, Longer;
    forall c {:trigger BlockOk(s', c)} {:trigger SameBlock(s, s', c)} | c in s'.hdrs
      ensures BlockOk(s', c)
      ensures c in s.hdrs ==> SameBlock(s, s', c) && c < va && End(s', c) <= va
    {
      if c in s.hdrs { LongerOld(s, s', va, c); } else { LongerHead(s, s', va); }
    }
    forall b, c | b in s'.hdrs && c in s'.hdrs && b < c
      ensures End(s', b) <= c
    {
      if c in s.hdrs {
        LongerOld(s, s', va, c);
        Apart(s, b, c);
        SameSize(s, s', b);
      } else {
        LongerOld(s, s', va, b);
      }
    }
    LongerWords(s, s', va);
    TilesFrom(s');
  }

  lemma LongerChain(s: Heap, s': Heap, fl: nat, list: seq<nat>, va: nat)
    requires Tiles(s) && Longer(s, s', va) && Chain(s, fl, list, {}) && IsFree(s', va) && Next(s', va) == fl
    ensures Chain(s', va, [va] + list, {})
  {
    LongerTiles(s, s', va);
    assert s'.hdrs == s.hdrs + {va} && va != 0;
    var list' := [va] + list;
    hide Tiles, Chain, Next, IsFree, Longer, SameBlock;
    ChainHead(s, fl, list, {});
    ChainDistinct(s, fl, list, {});
    forall i | 0 <= i < |list'|
      ensures LinkOk(s', list', {}, i)
      ensures i > 0 ==> list'[i] != va
    {
      if i > 0 {
        ChainFacts(s, fl, list, {}, i - 1);
        SameSize(s, s', list'[i]);
      }
    }
    forall b | b in s'.hdrs && IsFree(s', b)
      ensures b in list'
    {
      if b == va {
        assert list'[0] == va;
      } else {
        SameSize(s, s', b);
        ChainMember(s, fl, list, {}, b);
        assert list'[1..] == list;
      }
    }
    MakeChain(s', va, list', {});
  }

  lemma SameSize(s: Heap, s': Heap, c: nat)
    requires SameBlock(s, s', c)
    ensures Size(s', c) == Size(s, c) && IsFree(s', c) == IsFree(s, c) && Next(s', c) == Next(s, c)
  {
  }

  lemma MappedBelow(s: Heap, va: nat)
    requires Tiles(s) && (s.va != 0 ==> va == s.end)
    ensures forall a | a in s.mem :: a < va
  {
    hide Aligned8, BlockOk;
  }

  lemma WithArenaLonger(s: Heap, va: nat, pages: nat, page: map<nat, nat>, fl: nat)
    requires Tiles(s) && pages >= 16 && va > 0 && PageAligned(va) && (s.va != 0 ==> va == s.end)
    ensures var s' := WithArena(s, va, va + pages * PAGE, page, fl);
            Longer(s, s', va) && Size(s', va) == pages * PAGE - TAGS && IsFree(s', va) && Next(s', va) == fl
  {
    hide Aligned8, Aligned16, Tiles, WithArena, Get, Size, IsFree, Next, PageAligned;
    MappedBelow(s, va);
    PagesAligned(va, pages);
    WithArenaReads(s, va, va + pages * PAGE, page, fl);
  }
}
