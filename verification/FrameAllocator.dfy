// The physical frame allocator: a bitmap with one bit per 4 KB frame (set = in use) and a running count.
module FrameAllocator {
  import opened PhysMemory

  const MAX_FRAMES: nat := 524288  // 64 KB of bitmap, eight frames a byte
  const LOW_MEMORY: nat := 0x100000

  // One entry of the boot memory map, and one range the boot hands to pmm_reserve.
  datatype Region = Region(base: nat, length: nat, available: bool)
  datatype Range = Range(base: nat, size: nat)

  function CountSet(b: seq<bool>): nat
  {
    if b == [] then 0 else CountSet(b[..|b| - 1]) + (if b[|b| - 1] then 1 else 0)
  }

  lemma {:induction false} CountUpdate(b: seq<bool>, i: nat, v: bool)
    requires i < |b|
    ensures CountSet(b[i := v]) + (if b[i] then 1 else 0) == CountSet(b) + (if v then 1 else 0)
  {
    var n := |b| - 1;
    if i == n {
      assert b[i := v][..n] == b[..n];
    } else {
      CountUpdate(b[..n], i, v);
      assert b[i := v][..n] == b[..n][i := v];
    }
  }

  lemma {:induction false} CountPositive(b: seq<bool>, i: nat)
    requires i < |b| && b[i]
    ensures CountSet(b) >= 1
  {
    CountUpdate(b, i, false);
  }

  ghost predicate RunFree(b: seq<bool>, i: nat, n: nat)
  {
    i + n <= |b| && forall k | i <= k < i + n :: !b[k]
  }

  ghost predicate LowestRun(b: seq<bool>, i: nat, n: nat)
  {
    RunFree(b, i, n) && forall j: nat | j < i :: !RunFree(b, j, n)
  }

  // Bits i..i+n set to v; positions past the end are ignored, as the allocator ignores them.
  function SetRun(b: seq<bool>, i: nat, n: nat, v: bool): (r: seq<bool>)
    ensures |r| == |b|
  {
    seq(|b|, k requires 0 <= k < |b| => if i <= k < i + n then v else b[k])
  }

  lemma {:induction false} CountSetRun(b: seq<bool>, i: nat, n: nat)
    requires RunFree(b, i, n)
    ensures CountSet(SetRun(b, i, n, true)) == CountSet(b) + n
  {
    if n == 0 {
      assert SetRun(b, i, n, true) == b;
    } else {
      var b' := SetRun(b, i, n - 1, true);
      CountSetRun(b, i, n - 1);
      CountUpdate(b', i + n - 1, true);
      assert SetRun(b, i, n, true) == b'[i + n - 1 := true];
    }
  }

  // Freeing a run that was free before it was allocated gives back the old bitmap.
  lemma FreeUndoesAlloc(b: seq<bool>, i: nat, n: nat)
    requires RunFree(b, i, n)
    ensures SetRun(SetRun(b, i, n, true), i, n, false) == b
  {
  }

  ghost predicate NoRun(b: seq<bool>, n: nat)
  {
    forall i: nat :: !RunFree(b, i, n)
  }

  // ---------------------------------------------------------------- what first fit leaves of a free stretch

  ghost predicate Clear(b: seq<bool>, lo: nat, hi: nat)
  {
    lo <= hi <= |b| && forall k | lo <= k < hi :: !b[k]
  }

  // Frames lo..a are taken, a..hi still free.
  ghost predicate TakenUpTo(b: seq<bool>, lo: nat, a: nat, hi: nat)
  {
    lo <= a <= hi <= |b| && (forall k | lo <= k < a :: b[k]) && forall k | a <= k < hi :: !b[k]
  }

  ghost predicate TakenFromBelow(b: seq<bool>, lo: nat, hi: nat)
  {
    exists a: nat :: TakenUpTo(b, lo, a, hi)
  }

  // Frames were only taken, and from every free stretch from its low end on.
  ghost predicate LowFirst(b: seq<bool>, b': seq<bool>)
  {
    |b'| == |b| && (forall f | 0 <= f < |b| && b[f] :: b'[f])
    && forall lo: nat, hi: nat | Clear(b, lo, hi) :: TakenFromBelow(b', lo, hi)
  }

  lemma LowFirstReflexive(b: seq<bool>)
    ensures LowFirst(b, b)
  {
    forall lo: nat, hi: nat | Clear(b, lo, hi)
      ensures TakenFromBelow(b, lo, hi)
    {
      assert TakenUpTo(b, lo, lo, hi);
    }
  }

  lemma LowFirstTransitive(b: seq<bool>, b': seq<bool>, b'': seq<bool>)
    requires LowFirst(b, b') && LowFirst(b', b'')
    ensures LowFirst(b, b'')
  {
    forall lo: nat, hi: nat | Clear(b, lo, hi)
      ensures TakenFromBelow(b'', lo, hi)
    {
      assert TakenFromBelow(b', lo, hi);
      var a: nat :| TakenUpTo(b', lo, a, hi);
      assert Clear(b', a, hi);
      assert TakenFromBelow(b'', a, hi);
      var c: nat :| TakenUpTo(b'', a, c, hi);
      assert TakenUpTo(b'', lo, c, hi);
    }
  }

  // pmm_alloc takes the lowest run there is.
  lemma LowFirstAlloc(b: seq<bool>, i: nat, n: nat)
    requires LowestRun(b, i, n)
    ensures LowFirst(b, SetRun(b, i, n, true))
  {
    var b' := SetRun(b, i, n, true);
    forall lo: nat, hi: nat | Clear(b, lo, hi)
      ensures TakenFromBelow(b', lo, hi)
    {
      assert lo < i < hi ==> RunFree(b, lo, n);
      var a := if i >= hi || i + n <= lo then lo else if i + n <= hi then i + n else hi;
      assert TakenUpTo(b', lo, a, hi);
    }
  }

  lemma {:induction false} CountRises(b: seq<bool>, b': seq<bool>, lo: nat, a: nat)
    requires |b'| == |b| && (forall f | 0 <= f < |b| && b[f] :: b'[f])
    requires Clear(b, lo, a) && forall k | lo <= k < a :: b'[k]
    ensures CountSet(b') >= CountSet(b) + a - lo
  {
    if b != [] {
      var n := |b| - 1;
      if a > n && lo < a {
        CountRises(b[..n], b'[..n], lo, n);
      } else if a > n {
        CountRises(b[..n], b'[..n], n, n);
      } else {
        CountRises(b[..n], b'[..n], lo, a);
      }
    }
  }

  lemma {:induction false} CountAtMost(b: seq<bool>)
    ensures CountSet(b) <= |b|
  {
    if b != [] { CountAtMost(b[..|b| - 1]); }
  }

  // Of a free stretch, all but its first u frames are free after u frames have been taken anywhere.
  lemma LowFirstLeaves(b: seq<bool>, b': seq<bool>, lo: nat, size: nat, u: nat, n: nat)
    requires LowFirst(b, b') && RunFree(b, lo, size) && CountSet(b') <= CountSet(b) + u && u + n <= size
    ensures RunFree(b', lo + u, n) && !NoRun(b', n)
  {
    var hi := lo + size;
    assert Clear(b, lo, hi);
    assert TakenFromBelow(b', lo, hi);
    var a: nat :| TakenUpTo(b', lo, a, hi);
    CountRises(b, b', lo, a);
  }

  // Taking frames makes no free run.
  lemma LowFirstNoRun(b: seq<bool>, b': seq<bool>, n: nat)
    requires LowFirst(b, b') && NoRun(b, n)
    ensures NoRun(b', n)
  {
    forall i: nat
      ensures !RunFree(b', i, n)
    {
      assert !RunFree(b, i, n);
    }
  }

  // ---------------------------------------------------------------- first fit as a function of the bitmap

  lemma {:induction false} LowestBelow(b: seq<bool>, i: nat, n: nat) returns (j: nat)
    requires RunFree(b, i, n)
    ensures LowestRun(b, j, n)
  {
    if k: nat :| k < i && RunFree(b, k, n) { j := LowestBelow(b, k, n); } else { j := i; }
  }

  lemma LowestExists(b: seq<bool>, n: nat)
    requires !NoRun(b, n)
    ensures exists i: nat :: LowestRun(b, i, n)
  {
    var i: nat :| RunFree(b, i, n);
    var j := LowestBelow(b, i, n);
  }

  // The bitmap after one request for n frames, served or not.
  ghost function TakeRun(b: seq<bool>, n: nat): (r: seq<bool>)
    ensures |r| == |b|
  {
    if n == 0 || NoRun(b, n) then b
    else
      LowestExists(b, n);
      var i: nat :| LowestRun(b, i, n);
      SetRun(b, i, n, true)
  }

  lemma TakeRunIs(b: seq<bool>, i: nat, n: nat)
    requires n > 0 && LowestRun(b, i, n)
    ensures TakeRun(b, n) == SetRun(b, i, n, true)
  {
    assert forall j: nat | LowestRun(b, j, n) :: j == i;
  }

  lemma TakeRunNone(b: seq<bool>, n: nat)
    requires n == 0 || NoRun(b, n)
    ensures TakeRun(b, n) == b
  {
  }

  lemma TakeRunCount(b: seq<bool>, n: nat)
    ensures CountSet(TakeRun(b, n)) == CountSet(b) + if NoRun(b, n) then 0 else n
    ensures LowFirst(b, TakeRun(b, n))
  {
    if n == 0 || NoRun(b, n) {
      LowFirstReflexive(b);
    } else {
      LowestExists(b, n);
      var i: nat :| LowestRun(b, i, n);
      TakeRunIs(b, i, n);
      CountSetRun(b, i, n);
      LowFirstAlloc(b, i, n);
    }
  }

  // The bitmap after n requests for one frame.
  ghost function TakeOnes(b: seq<bool>, n: nat): (r: seq<bool>)
    ensures |r| == |b|
  {
    if n == 0 then b else TakeRun(TakeOnes(b, n - 1), 1)
  }

  lemma {:induction false} TakeOnesMore(b: seq<bool>, m: nat, n: nat)
    ensures TakeOnes(TakeOnes(b, m), n) == TakeOnes(b, m + n)
  {
    if n > 0 { TakeOnesMore(b, m, n - 1); }
  }

  lemma {:induction false} CountFull(b: seq<bool>)
    ensures CountSet(b) <= |b|
    ensures CountSet(b) == |b| <==> NoRun(b, 1)
    ensures NoRun(b, 1) <==> forall f | 0 <= f < |b| :: b[f]
  {
    assert forall f | 0 <= f < |b| :: !b[f] ==> RunFree(b, f, 1);
    assert forall f: nat | RunFree(b, f, 1) :: !b[f];
    CountAtMost(b);
    if f :| 0 <= f < |b| && !b[f] {
      CountUpdate(b, f, true);
      CountAtMost(b[f := true]);
    } else {
      AllCounted(b);
    }
  }

  lemma {:induction false} AllCounted(b: seq<bool>)
    requires forall f | 0 <= f < |b| :: b[f]
    ensures CountSet(b) == |b|
  {
    if b != [] { AllCounted(b[..|b| - 1]); }
  }

  // One frame more each time, until all are taken.
  lemma {:induction false} TakeOnesCount(b: seq<bool>, n: nat)
    ensures CountSet(TakeOnes(b, n)) == if CountSet(b) + n <= |b| then CountSet(b) + n else |b|
    ensures LowFirst(b, TakeOnes(b, n))
  {
    CountAtMost(b);
    if n == 0 {
      LowFirstReflexive(b);
    } else {
      var c := TakeOnes(b, n - 1);
      TakeOnesCount(b, n - 1);
      TakeRunCount(c, 1);
      CountFull(c);
      LowFirstTransitive(b, c, TakeOnes(b, n));
    }
  }

  // Nothing can be taken from a full bitmap.
  lemma {:induction false} FullStays(b: seq<bool>, n: nat)
    requires NoRun(b, 1)
    ensures TakeOnes(b, n) == b
  {
    if n > 0 {
      FullStays(b, n - 1);
      TakeRunNone(b, 1);
    }
  }

  lemma FullNoRun(b: seq<bool>, n: nat)
    requires NoRun(b, 1) && n > 0
    ensures NoRun(b, n)
  {
    forall i: nat
      ensures !RunFree(b, i, n)
    {
      assert !RunFree(b, i, 1);
    }
  }

  // The frames pmm_reserve marks for a byte range.
  predicate Covers(r: Range, frame: nat)
  {
    r.size != 0 && r.base / PAGE <= frame < (r.base + r.size + PAGE - 1) / PAGE
  }

  predicate Offers(r: Region, frame: nat)
  {
    var first := (r.base + PAGE - 1) / PAGE;
    r.available && first <= frame < first + r.length / PAGE
  }

  function MemoryTop(regions: seq<Region>): nat
  {
    if regions == [] then 0
    else
      var t, e := MemoryTop(regions[..|regions| - 1]), regions[|regions| - 1].base + regions[|regions| - 1].length;
      if e > t then e else t
  }

  function FirstAvailable(regions: seq<Region>): nat
  {
    if regions == [] then 0
    else if regions[0].available then regions[0].base
    else FirstAvailable(regions[1..])
  }

  class Pmm {
    const bitmap: array<bool>
    var used: nat

    ghost predicate Valid()
      reads this, bitmap
    {
      bitmap.Length >= 1 && bitmap[0] && used == CountSet(bitmap[..])
    }

    ghost function Bits(): (b: seq<bool>)
      reads this, bitmap
      ensures |b| == bitmap.Length
    {
      bitmap[..]
    }

    // pmm_init: everything in use, then the available regions opened, then the reservations closed again;
    // low memory (below the first available region, at least one page, at most 1 MB) is always reserved.
    constructor (regions: seq<Region>, reserved: seq<Range>)
      ensures Valid() && fresh(bitmap)
      ensures |Bits()| <= MAX_FRAMES
      ensures var top := MemoryTop(regions);
              |Bits()| == var n := (if top == 0 then 0x40000000 else top) / PAGE + 1;
                          if n > MAX_FRAMES then MAX_FRAMES else n
      ensures var low := FirstAvailable(regions);
              var reservedLow := Range(0, if low == 0 || low > LOW_MEMORY then LOW_MEMORY else low);
              forall f | 0 <= f < |Bits()| ::
                !Bits()[f] <==> (exists r | r in regions :: Offers(r, f))
                                && (forall r | r in reserved :: !Covers(r, f)) && !Covers(reservedLow, f)
    {
      var top := 0;
      for i := 0 to |regions|
        invariant top == MemoryTop(regions[..i])
      {
        var end := regions[i].base + regions[i].length;
        assert regions[..i + 1][..i] == regions[..i];
        if end > top { top := end; }
      }
      assert regions[..|regions|] == regions;
      if top == 0 { top := 0x40000000; }
      var total := top / PAGE + 1;
      if total > MAX_FRAMES { total := MAX_FRAMES; }
      bitmap := new bool[total](_ => true);
      used := 0;
      new;
      OpenAll(regions);
      MarkAll(reserved);
      var low := FirstAvailable(regions);
      if low == 0 || low > LOW_MEMORY { low := LOW_MEMORY; }
      Mark(Range(0, low));
      Recount();
    }

    // The available regions of the boot map.
    method OpenAll(regions: seq<Region>)
      requires forall f | 0 <= f < bitmap.Length :: bitmap[f]
      modifies bitmap
      ensures forall f | 0 <= f < bitmap.Length :: !bitmap[f] <==> exists r | r in regions :: Offers(r, f)
    {
      hide Offers;
      for i := 0 to |regions|
        invariant forall f | 0 <= f < bitmap.Length :: !bitmap[f] <==> exists r | r in regions[..i] :: Offers(r, f)
      {
        assert regions[..i + 1] == regions[..i] + [regions[i]];
        Open(regions[i]);
      }
      assert regions[..|regions|] == regions;
    }

    // The kernel image, the framebuffer and the boot structure.
    method MarkAll(reserved: seq<Range>)
      modifies this, bitmap
      ensures forall f | 0 <= f < bitmap.Length ::
                bitmap[f] == (old(bitmap[f]) || exists r | r in reserved :: Covers(r, f))
    {
      hide Covers;
      for i := 0 to |reserved|
        invariant forall f | 0 <= f < bitmap.Length ::
                    bitmap[f] == (old(bitmap[f]) || exists r | r in reserved[..i] :: Covers(r, f))
      {
        assert reserved[..i + 1] == reserved[..i] + [reserved[i]];
        Mark(reserved[i]);
      }
      assert reserved[..|reserved|] == reserved;
    }

    // One boot region: its frames become free.
    method Open(r: Region)
      modifies bitmap
      ensures forall f | 0 <= f < bitmap.Length :: bitmap[f] == (old(bitmap[f]) && !Offers(r, f))
    {
      if r.available {
        var first := (r.base + PAGE - 1) / PAGE;
        var p := 0;
        while p < r.length / PAGE && first + p < bitmap.Length
          invariant p <= r.length / PAGE
          invariant forall f | 0 <= f < bitmap.Length :: bitmap[f] == (old(bitmap[f]) && !(first <= f < first + p))
        {
          bitmap[first + p] := false;
          p := p + 1;
        }
      }
    }

    // pmm_reserve: every frame the range touches is in use.
    method Mark(r: Range)
      modifies this, bitmap
      ensures forall f | 0 <= f < bitmap.Length :: bitmap[f] == (old(bitmap[f]) || Covers(r, f))
      ensures old(used == CountSet(bitmap[..])) ==> used == CountSet(bitmap[..])
    {
      if r.size == 0 { return; }
      var f := r.base / PAGE;
      var end := (r.base + r.size + PAGE - 1) / PAGE;
      while f < end
        invariant r.base / PAGE <= f
        invariant forall g | 0 <= g < bitmap.Length ::
                    bitmap[g] == (old(bitmap[g]) || r.base / PAGE <= g < (if f < end then f else end))
        invariant old(used == CountSet(bitmap[..])) ==> used == CountSet(bitmap[..])
      {
        if f < bitmap.Length && !bitmap[f] {
          CountUpdate(bitmap[..], f, true);
          ghost var before := bitmap[..];
          bitmap[f] := true;
          assert bitmap[..] == before[f := true];
          used := used + 1;
        }
        f := f + 1;
      }
    }

    method Recount()
      modifies this
      ensures used == CountSet(bitmap[..])
    {
      used := 0;
      for i := 0 to bitmap.Length
        invariant used == CountSet(bitmap[..i])
      {
        assert bitmap[..i + 1][..i] == bitmap[..i];
        if bitmap[i] { used := used + 1; }
      }
      assert bitmap[..bitmap.Length] == bitmap[..];
    }

    // pmm_alloc: the lowest run of 'pages' free frames, or 0.
    method Alloc(pages: nat) returns (addr: nat)
      requires Valid()
      modifies this, bitmap
      ensures Valid()
      ensures addr == 0 <==> pages == 0 || NoRun(old(Bits()), pages)
      ensures addr == 0 ==> Bits() == old(Bits())
      ensures addr != 0 ==> addr % PAGE == 0 && LowestRun(old(Bits()), addr / PAGE, pages)
      ensures addr != 0 ==> Bits() == SetRun(old(Bits()), addr / PAGE, pages, true)
      ensures LowFirst(old(Bits()), Bits()) && Bits() == TakeRun(old(Bits()), pages)
    {
      LowFirstReflexive(bitmap[..]);
      if pages == 0 { return 0; }
      for i := 0 to bitmap.Length
        invariant forall j: nat | j < i :: !RunFree(bitmap[..], j, pages)
        invariant bitmap[..] == old(bitmap[..]) && used == old(used)
      {
        var free := true;
        var b := 0;
        while b < pages
          invariant b <= pages
          invariant free ==> RunFree(bitmap[..], i, b)
          invariant !free ==> !RunFree(bitmap[..], i, pages)
        {
          var idx := i + b;
          if idx >= bitmap.Length || bitmap[idx] {
            free := false;
            break;
          }
          b := b + 1;
        }
        if free {
          CountSetRun(bitmap[..], i, pages);
          LowFirstAlloc(bitmap[..], i, pages);
          TakeRunIs(bitmap[..], i, pages);
          Fill(i, pages);
          used := used + pages;
          return i * PAGE;
        }
      }
      return 0;
    }

    method Fill(i: nat, pages: nat)
      requires RunFree(Bits(), i, pages)
      modifies bitmap
      ensures Bits() == SetRun(old(Bits()), i, pages, true)
    {
      for b := 0 to pages
        invariant Bits() == SetRun(old(Bits()), i, b, true)
      {
        bitmap[i + b] := true;
      }
    }

    // pmm_free: clears the bits of the run; address 0 and frames past the end are ignored. An address inside
    // frame 0 frees that frame.
    method Free(addr: nat, pages: nat)
      requires Valid()
      modifies this, bitmap
      ensures used == CountSet(Bits())
      ensures Valid() <==> addr == 0 || addr >= PAGE || pages == 0
      ensures Bits() == if addr == 0 then old(Bits()) else SetRun(old(Bits()), addr / PAGE, pages, false)
    {
      if addr == 0 || pages == 0 {
        assert SetRun(Bits(), addr / PAGE, 0, false) == Bits();
        return;
      }
      var base := addr / PAGE;
      var freed := 0;
      for b := 0 to pages
        invariant Bits() == SetRun(old(Bits()), base, b, false)
        invariant freed + CountSet(bitmap[..]) == used == old(used)
      {
        var idx := base + b;
        if idx < bitmap.Length {
          CountUpdate(bitmap[..], idx, false);
          ghost var before := bitmap[..];
          if bitmap[idx] { freed := freed + 1; }
          bitmap[idx] := false;
          assert bitmap[..] == before[idx := false];
        }
      }
      if freed > used {
        assert false;  // the clamp to zero is never taken: the count is exact
      } else {
        used := used - freed;
      }
    }
  }

  // ---------------------------------------------------------------- a memory with one free stretch

  // n frames, free from lo up to the last.
  function FreeRange(n: nat, lo: nat): (b: seq<bool>)
    ensures |b| == n
  {
    seq(n, f requires 0 <= f < n => f < lo || f == n - 1)
  }

  // Boot with one region of 'frames' frames at 1 MB.
  method BootMemory(frames: nat) returns (pmm: Pmm)
    requires 0 < frames <= 4096
    ensures fresh(pmm) && fresh(pmm.bitmap) && pmm.Valid() && pmm.Bits() == FreeRange(257 + frames, 256)
  {
    var r := Region(LOW_MEMORY, frames * PAGE, true);
    assert [r][..0] == [];
    assert MemoryTop([r]) == LOW_MEMORY + frames * PAGE;
    pmm := new Pmm([r], []);
    forall f | 0 <= f < |pmm.Bits()|
      ensures !pmm.Bits()[f] <==> 256 <= f < 256 + frames
    {
      assert r in [r];
    }
  }

  // Where everything below 'lo' is taken and the next n frames are free, first fit takes those.
  lemma LowestAt(b: seq<bool>, lo: nat, n: nat, i: nat)
    requires n > 0 && (forall f | 0 <= f < |b| && f < lo :: b[f]) && RunFree(b, lo, n) && LowestRun(b, i, n)
    ensures i == lo
  {
    assert RunFree(b, i, n) && !b[i];
  }

  lemma TakeRange(n: nat, lo: nat, k: nat)
    requires lo + k < n
    ensures TakeRun(FreeRange(n, lo), k) == FreeRange(n, lo + k) && !NoRun(FreeRange(n, lo), k)
  {
    var b := FreeRange(n, lo);
    assert RunFree(b, lo, k);
    if k > 0 {
      LowestExists(b, k);
      var i: nat :| LowestRun(b, i, k);
      LowestAt(b, lo, k, i);
      TakeRunIs(b, lo, k);
      assert SetRun(b, lo, k, true) == FreeRange(n, lo + k);
    }
  }

  lemma {:induction false} TakeRangeOnes(n: nat, lo: nat, k: nat)
    requires lo + k < n
    ensures TakeOnes(FreeRange(n, lo), k) == FreeRange(n, lo + k)
  {
    if k > 0 {
      TakeRangeOnes(n, lo, k - 1);
      TakeRange(n, lo + (k - 1), 1);
    }
  }

  lemma RangeCount(n: nat, lo: nat)
    requires lo < n
    ensures CountSet(FreeRange(n, lo)) == lo + 1
  {
    var b := FreeRange(n, lo);
    CountSetRun(b, lo, n - 1 - lo);
    AllCounted(SetRun(b, lo, n - 1 - lo, true));
  }
}
