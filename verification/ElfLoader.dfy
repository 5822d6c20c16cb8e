// exec_elf_core: decoding an ELF64 image, collecting its PT_LOAD segments, and running them.
module ElfLoader {
  import opened PhysMemory
  import opened FrameAllocator
  import opened PageTables
  import opened UserRights
  import opened Teardown
  import opened AddressSpaces
  import opened ProcessMemory
  import opened UserMemory
  import opened Argv
  import opened ProcessCreation

  const PT_LOAD: nat := 1
  const EM_X86_64: nat := 0x3E
  const PHDR_SIZE: nat := 56
  const KERNEL_HALF: nat := 0xffff_8000_0000_0000

  type ElfImage = seq<Byte>

  // The little-endian value of the n bytes at off.
  function Le(img: ElfImage, off: nat, n: nat): nat
    requires off + n <= |img|
    decreases n
  {
    if n == 0 then 0 else img[off] as nat + 256 * Le(img, off + 1, n - 1)
  }

  function Power256(n: nat): (p: nat)
    ensures p >= 1
  {
    if n == 0 then 1 else 256 * Power256(n - 1)
  }

  lemma {:induction false} LeLast(img: ElfImage, off: nat, n: nat)
    requires off + n + 1 <= |img|
    ensures Le(img, off, n + 1) == Le(img, off, n) + Power256(n) * img[off + n] as nat
    decreases n
  {
    if n > 0 {
      LeLast(img, off + 1, n - 1);
      var p, b := Power256(n - 1), img[off + n] as nat;
      assert 256 * (p * b) == 256 * p * b;
    }
  }

  // u16, u32 and u64: one loop over n bytes.
  method Decode(img: ElfImage, off: nat, n: nat) returns (v: nat)
    requires off + n <= |img|
    ensures v == Le(img, off, n)
  {
    v := 0;
    var unit := 1;
    for i := 0 to n
      invariant v == Le(img, off, i) && unit == Power256(i)
    {
      LeLast(img, off, i);
      v := v + unit * img[off + i] as nat;
      unit := 256 * unit;
    }
  }

  // ---------------------------------------------------------------- sums that wrap

  // a + b wraps at 2^64 to something not above n: the loader's comparison lets the range through, although it ends
  // outside the file.
  predicate Wraps(a: nat, b: nat, n: nat) { a + b >= U64 && a + b - U64 <= n }

  lemma WrapsExactly(a: nat, b: nat, n: nat)
    requires a < U64 && b < U64 && n < U64
    ensures (a + b) % U64 <= n <==> a + b <= n || Wraps(a, b, n)
    ensures Wraps(a, b, n) ==> a + b > n
  {
  }

  // ---------------------------------------------------------------- what the header says

  function PhOff(img: ElfImage): nat requires |img| >= 64 { Le(img, 32, 8) }
  function PhEntSize(img: ElfImage): nat requires |img| >= 64 { Le(img, 54, 2) }
  function PhNum(img: ElfImage): nat requires |img| >= 64 { Le(img, 56, 2) }

  predicate GoodHeader(img: ElfImage)
  {
    |img| >= 64 && img[0] == 0x7F && img[1] == 0x45 && img[2] == 0x4C && img[3] == 0x46 && img[4] == 2 && img[5] == 1
    && Le(img, 18, 2) == EM_X86_64 && PhNum(img) != 0 && PhEntSize(img) >= PHDR_SIZE
    && PhOff(img) + Times(PhNum(img), PhEntSize(img)) <= |img|
  }

  function HeaderAt(img: ElfImage, i: nat): nat
    requires |img| >= 64
  {
    PhOff(img) + Times(i, PhEntSize(img))
  }

  function Times(i: nat, size: nat): nat { i * size }

  lemma HeaderFits(img: ElfImage, i: nat)
    requires GoodHeader(img) && i < PhNum(img)
    ensures HeaderAt(img, i) + PHDR_SIZE <= |img|
  {
    var n, e := PhNum(img), PhEntSize(img);
    assert i * e + e == (i + 1) * e <= n * e;
  }

  predicate IsLoad(img: ElfImage, i: nat)
    requires |img| >= 64 && HeaderAt(img, i) + PHDR_SIZE <= |img|
  {
    Le(img, HeaderAt(img, i), 4) == PT_LOAD
  }

  function FileOff(img: ElfImage, i: nat): nat
    requires |img| >= 64 && HeaderAt(img, i) + PHDR_SIZE <= |img|
  {
    Le(img, HeaderAt(img, i) + 8, 8)
  }

  function FileSize(img: ElfImage, i: nat): nat
    requires |img| >= 64 && HeaderAt(img, i) + PHDR_SIZE <= |img|
  {
    Le(img, HeaderAt(img, i) + 32, 8)
  }

  // A PT_LOAD entry the loader accepts.
  predicate GoodLoad(img: ElfImage, i: nat)
    requires |img| >= 64 && HeaderAt(img, i) + PHDR_SIZE <= |img|
  {
    FileOff(img, i) + FileSize(img, i) <= |img| && Le(img, HeaderAt(img, i) + 16, 8) < KERNEL_HALF
  }

  function SegmentOf(img: ElfImage, i: nat): Segment
    requires |img| >= 64 && HeaderAt(img, i) + PHDR_SIZE <= |img| && GoodLoad(img, i)
  {
    var h := HeaderAt(img, i);
    Segment(Le(img, h + 16, 8), img[FileOff(img, i)..FileOff(img, i) + FileSize(img, i)], Le(img, h + 40, 8),
            Le(img, h + 4, 4))
  }

  predicate LoadEntry(img: ElfImage, i: nat)
    requires GoodHeader(img) && i < PhNum(img)
  {
    HeaderFits(img, i);
    IsLoad(img, i)
  }

  predicate AcceptedEntry(img: ElfImage, i: nat)
    requires GoodHeader(img)
  {
    i < PhNum(img) && LoadEntry(img, i) && (HeaderFits(img, i); GoodLoad(img, i))
  }

  function SegmentAt(img: ElfImage, i: nat): Segment
    requires GoodHeader(img) && AcceptedEntry(img, i)
  {
    HeaderFits(img, i);
    SegmentOf(img, i)
  }

  // The PT_LOAD entries among the first n, in order.
  function Loads(img: ElfImage, n: nat): (idx: seq<nat>)
    requires GoodHeader(img) && n <= PhNum(img)
    ensures forall k | 0 <= k < |idx| :: idx[k] < n
  {
    if n == 0 then [] else Loads(img, n - 1) + if LoadEntry(img, n - 1) then [n - 1] else []
  }

  lemma {:induction false} LoadsAre(img: ElfImage, n: nat)
    requires GoodHeader(img) && n <= PhNum(img)
    ensures forall i: nat :: i in Loads(img, n) <==> i < n && LoadEntry(img, i)
    ensures forall j, k | 0 <= j < k < |Loads(img, n)| :: Loads(img, n)[j] < Loads(img, n)[k]
  {
    hide LoadEntry, GoodHeader, PhNum;
    if n > 0 { LoadsAre(img, n - 1); }
  }

  lemma {:induction false} LoadsPrefix(img: ElfImage, i: nat, n: nat)
    requires GoodHeader(img) && i <= n <= PhNum(img)
    ensures Loads(img, i) <= Loads(img, n)
  {
    hide LoadEntry, GoodHeader, PhNum;
    if i < n { LoadsPrefix(img, i, n - 1); }
  }

  // The entries the loader looks at: it stops at the seventh.
  function Examined(img: ElfImage): (idx: seq<nat>)
    requires GoodHeader(img)
    ensures |idx| <= MAX_SEGMENTS && forall k | 0 <= k < |idx| :: idx[k] < PhNum(img)
  {
    var all := Loads(img, PhNum(img));
    if |all| > MAX_SEGMENTS then all[..MAX_SEGMENTS] else all
  }

  predicate Acceptable(img: ElfImage)
  {
    GoodHeader(img) && Examined(img) != []
    && forall k | 0 <= k < |Examined(img)| :: AcceptedEntry(img, Examined(img)[k])
  }

  function Segments(img: ElfImage): (segs: seq<Segment>)
    requires Acceptable(img)
    ensures 0 < |segs| == |Examined(img)| <= MAX_SEGMENTS
  {
    SegmentsOf(img, Examined(img))
  }

  function SegmentsOf(img: ElfImage, idx: seq<nat>): (segs: seq<Segment>)
    requires GoodHeader(img) && forall k | 0 <= k < |idx| :: AcceptedEntry(img, idx[k])
    ensures |segs| == |idx| && forall k | 0 <= k < |idx| :: segs[k] == SegmentAt(img, idx[k])
  {
    seq(|idx|, k requires 0 <= k < |idx| => SegmentAt(img, idx[k]))
  }

  // A PT_LOAD entry is looked at exactly when fewer than seven others come before it.
  lemma ExaminedAt(img: ElfImage, i: nat)
    requires GoodHeader(img) && i < PhNum(img) && LoadEntry(img, i)
    ensures i in Examined(img) <==> |Loads(img, i)| < MAX_SEGMENTS
  {
    var n := PhNum(img);
    hide LoadEntry, GoodHeader, PhNum;
    var all, k := Loads(img, n), |Loads(img, i)|;
    LoadsAre(img, n);
    LoadsPrefix(img, i + 1, n);
    assert Loads(img, i + 1) == Loads(img, i) + [i];
    assert all[k] == i;
    hide Loads;
    assert forall j | 0 <= j < |all| && j != k :: all[j] != i;
  }

  lemma ExaminedOnly(img: ElfImage)
    requires GoodHeader(img)
    ensures forall k | 0 <= k < |Examined(img)| :: LoadEntry(img, Examined(img)[k])
    ensures forall i | 0 <= i < PhNum(img) && LoadEntry(img, i) :: Examined(img) != []
  {
    var n := PhNum(img);
    hide LoadEntry, GoodHeader, PhNum;
    var all := Loads(img, n);
    LoadsAre(img, n);
    hide Loads;
    forall k | 0 <= k < |Examined(img)|
      ensures LoadEntry(img, Examined(img)[k])
    {
      assert all[k] in all;
    }
  }

  // An image is accepted exactly when the header is good, there is a PT_LOAD entry, and every PT_LOAD entry with
  // fewer than seven others before it is acceptable; the rest of the table is never looked at.
  lemma AcceptableMeans(img: ElfImage)
    ensures Acceptable(img) <==>
              GoodHeader(img) && (exists i | 0 <= i < PhNum(img) :: LoadEntry(img, i))
              && forall i | 0 <= i < PhNum(img) && LoadEntry(img, i) && |Loads(img, i)| < MAX_SEGMENTS ::
                AcceptedEntry(img, i)
  {
    if GoodHeader(img) {
      forall i | 0 <= i < PhNum(img) && LoadEntry(img, i)
        ensures i in Examined(img) <==> |Loads(img, i)| < MAX_SEGMENTS
      {
        ExaminedAt(img, i);
      }
      ExaminedOnly(img);
      hide LoadEntry, GoodHeader, PhNum, Examined, Loads;
      assert forall k | 0 <= k < |Examined(img)| :: Examined(img)[k] in Examined(img);
    }
  }

  // The comparisons as the loader makes them, in 64 bits. They differ from the ones meant exactly where a sum wraps.
  predicate EntryTests(img: ElfImage, i: nat)
    requires GoodHeader(img) && i < PhNum(img)
  {
    HeaderFits(img, i);
    (FileOff(img, i) + FileSize(img, i)) % U64 <= |img| && Le(img, HeaderAt(img, i) + 16, 8) < KERNEL_HALF
  }

  lemma EntryTestsExact(img: ElfImage, i: nat)
    requires GoodHeader(img) && |img| < U64 && i < PhNum(img) && LoadEntry(img, i)
    ensures EntryTests(img, i)
            <==> AcceptedEntry(img, i)
                 || (EntryWraps(img, i) && (HeaderFits(img, i); Le(img, HeaderAt(img, i) + 16, 8) < KERNEL_HALF))
    ensures EntryWraps(img, i) ==> !AcceptedEntry(img, i)
  {
    HeaderFits(img, i);
    FieldSizes(img, i);
    hide Le, PhNum, PhOff, PhEntSize;
    WrapsExactly(FileOff(img, i), FileSize(img, i), |img|);
  }

  // An image of 120 bytes with one PT_LOAD entry whose 16 bytes start 8 bytes below 2^64: the comparison sees 8 and
  // lets it through, although no byte of the file is there and the image is not one to be accepted.
  function WrappedImage(): (img: ElfImage)
    ensures |img| == 120 && forall k | 0 <= k < 120 :: img[k] == WrappedByte(k)
  {
    seq(120, k requires 0 <= k < 120 => WrappedByte(k))
  }

  function WrappedByte(k: nat): Byte
  {
    match k
    case 0 => 0x7F  // the magic number, class and byte order
    case 1 => 0x45
    case 2 => 0x4C
    case 3 => 0x46
    case 4 => 2
    case 5 => 1
    case 18 => 0x3E  // the machine
    case 32 => 64  // the program header table: offset, entry size, number
    case 54 => 56
    case 56 => 1
    case 64 => 1  // the entry: type, flags, offset, address, size in the file and in memory
    case 68 => 5
    case 72 => 0xF8
    case 85 => 0x20
    case 96 => 16
    case 104 => 16
    case _ => if 72 < k < 80 then 0xFF else 0
  }

  lemma LeTwo(img: ElfImage, off: nat)
    requires off + 2 <= |img|
    ensures Le(img, off, 2) == img[off] as nat + 256 * img[off + 1] as nat
  {
    assert Le(img, off + 2, 0) == 0;
    assert Le(img, off + 1, 1) == img[off + 1] as nat;
  }

  lemma LeDouble(img: ElfImage, off: nat, n: nat)
    requires off + n + 2 <= |img|
    ensures Le(img, off, n + 2) == img[off] as nat + 256 * img[off + 1] as nat + 0x1_0000 * Le(img, off + 2, n)
  {
    assert Le(img, off + 1, n + 1) == img[off + 1] as nat + 256 * Le(img, off + 2, n);
  }

  lemma LeFour(img: ElfImage, off: nat)
    requires off + 4 <= |img|
    ensures Le(img, off, 4)
            == img[off] as nat + 256 * img[off + 1] as nat
               + 0x1_0000 * (img[off + 2] as nat + 256 * img[off + 3] as nat)
  {
    LeDouble(img, off, 2);
    LeTwo(img, off + 2);
  }

  lemma LeEight(img: ElfImage, off: nat)
    requires off + 8 <= |img|
    ensures Le(img, off, 8) == Le(img, off, 4) + 0x1_0000_0000 * Le(img, off + 4, 4)
  {
    LeDouble(img, off, 6);
    LeDouble(img, off + 2, 4);
    LeDouble(img, off, 2);
    LeTwo(img, off + 2);
  }

  lemma WrappedWord(off: nat, n: nat)
    requires n in {2, 4, 8} && off + n <= 120
    ensures var img, b := WrappedImage(), k => if 0 <= k < 120 then WrappedByte(k) as nat else 0;
            Le(img, off, n)
            == if n == 2 then b(off) + 0x100 * b(off + 1)
               else if n == 4 then b(off) + 0x100 * b(off + 1) + 0x1_0000 * (b(off + 2) + 0x100 * b(off + 3))
               else b(off) + 0x100 * b(off + 1) + 0x1_0000 * (b(off + 2) + 0x100 * b(off + 3))
                    + 0x1_0000_0000 * (b(off + 4) + 0x100 * b(off + 5) + 0x1_0000 * (b(off + 6) + 0x100 * b(off + 7)))
  {
    hide WrappedByte, WrappedImage;
    if n == 2 {
      LeTwo(WrappedImage(), off);
    } else if n == 4 {
      LeFour(WrappedImage(), off);
    } else {
      LeFour(WrappedImage(), off);
      LeFour(WrappedImage(), off + 4);
      LeEight(WrappedImage(), off);
    }
  }

  // The fields one by one.
  lemma WrappedFields()
    ensures Le(WrappedImage(), 18, 2) == EM_X86_64 && Le(WrappedImage(), 54, 2) == 56 && Le(WrappedImage(), 56, 2) == 1
    ensures Le(WrappedImage(), 64, 4) == PT_LOAD
  {
    WrappedWord(18, 2);
    WrappedWord(54, 2);
    WrappedWord(56, 2);
    WrappedWord(64, 4);
    hide Le;
  }

  lemma WrappedBytes()
    ensures WrappedByte(72) == 0xF8 && forall k | 72 < k < 80 :: WrappedByte(k) == 0xFF
    ensures WrappedByte(85) == 0x20 && forall k | 80 <= k < 88 && k != 85 :: WrappedByte(k) == 0
    ensures WrappedByte(32) == 64 && forall k | 32 < k < 40 :: WrappedByte(k) == 0
    ensures WrappedByte(96) == 16 && forall k | 96 < k < 104 :: WrappedByte(k) == 0
  {
  }

  lemma WrappedLong(off: nat)
    requires off in {32, 72, 80, 96}
    ensures Le(WrappedImage(), off, 8) == if off == 32 then 64 else if off == 72 then U64 - 8
            else if off == 80 then USER_BASE else 16
  {
    hide Le, WrappedImage, WrappedByte;
    WrappedBytes();
    WrappedWord(off, 8);
  }

  lemma WrappedHeader()
    ensures var img := WrappedImage(); GoodHeader(img) && PhOff(img) == 64 && PhEntSize(img) == 56 && PhNum(img) == 1
  {
    WrappedFields();
    WrappedLong(32);
    hide Le;
    assert Times(1, 56) == 56;
  }

  lemma WrappedEntry()
    ensures var img := WrappedImage();
            Le(img, 64, 4) == PT_LOAD && Le(img, 72, 8) == U64 - 8 && Le(img, 80, 8) == USER_BASE
            && Le(img, 96, 8) == 16
  {
    WrappedFields();
    WrappedLong(72);
    WrappedLong(80);
    WrappedLong(96);
  }

  lemma WrappedThrough()
    ensures var img := WrappedImage();
            GoodHeader(img) && PhNum(img) == 1 && LoadEntry(img, 0) && EntryWraps(img, 0) && EntryTests(img, 0)
            && !Acceptable(img)
  {
    var img := WrappedImage();
    WrappedHeader();
    WrappedEntry();
    assert HeaderAt(img, 0) == 64 by { assert Times(0, 56) == 0; }
    assert LoadEntry(img, 0);
    EntryTestsExact(img, 0);
    assert Loads(img, 0) == [];
    AcceptableMeans(img);
  }

  // Entry i is looked at: fewer than seven PT_LOAD entries come before it, and all of these are accepted.
  predicate Reached(img: ElfImage, i: nat)
    requires GoodHeader(img)
  {
    i < PhNum(img) && LoadEntry(img, i) && |Loads(img, i)| < MAX_SEGMENTS
    && forall j | 0 <= j < i && LoadEntry(img, j) :: AcceptedEntry(img, j)
  }

  predicate EntryWraps(img: ElfImage, i: nat)
    requires GoodHeader(img) && i < PhNum(img)
  {
    HeaderFits(img, i);
    Wraps(FileOff(img, i), FileSize(img, i), |img|)
  }

  predicate TableWraps(img: ElfImage)
  {
    |img| >= 64 && Wraps(PhOff(img), Times(PhNum(img), PhEntSize(img)), |img|)
  }

  // No comparison the loader makes on the way is of a sum that wraps into the file.
  predicate NoneWraps(img: ElfImage)
  {
    |img| < U64 && !TableWraps(img)
    && (GoodHeader(img) ==> forall i | 0 <= i < PhNum(img) && Reached(img, i) :: !EntryWraps(img, i))
  }

  // The validation and collection half of exec_elf_core.
  method Parse(img: ElfImage) returns (r: Option<seq<Segment>>)
    requires NoneWraps(img)
    ensures r == if Acceptable(img) then Some(Segments(img)) else None
  {
    hide Le, LoadEntry, AcceptedEntry, SegmentAt;
    r := None;
    if |img| < 64 { return; }
    if img[0] != 0x7F || img[1] != 0x45 || img[2] != 0x4C || img[3] != 0x46 { return; }
    if img[4] != 2 { return; }
    if img[5] != 1 { return; }
    var machine := Decode(img, 18, 2);
    var phoff := Decode(img, 32, 8);
    var phentsz := Decode(img, 54, 2);
    var phnum := Decode(img, 56, 2);
    if machine != EM_X86_64 { return; }
    if phnum == 0 { return; }
    if phentsz < PHDR_SIZE { return; }
    TableSize(img);
    WrapsExactly(phoff, Times(phnum, phentsz), |img|);
    if (phoff + phnum * phentsz) % U64 > |img| { return; }
    assert GoodHeader(img);
    r := ParseTable(img, phoff, phentsz, phnum);
  }

  lemma {:induction false} LeBound(img: ElfImage, off: nat, n: nat)
    requires off + n <= |img|
    ensures Le(img, off, n) < Power256(n)
    decreases n
  {
    if n > 0 { LeBound(img, off + 1, n - 1); }
  }

  lemma Powers()
    ensures Power256(2) == 0x1_0000 && Power256(8) == U64
  {
    assert Power256(4) == 0x1_0000_0000;
    assert Power256(6) == 0x1_0000_0000_0000;
  }

  // The size of the table does not wrap by itself.
  lemma TableSize(img: ElfImage)
    requires |img| >= 64
    ensures PhOff(img) < U64 && Times(PhNum(img), PhEntSize(img)) < 0x1_0000_0000
  {
    Powers();
    LeBound(img, 32, 8);
    LeBound(img, 54, 2);
    LeBound(img, 56, 2);
    hide Le, Power256;
    SmallProduct(PhNum(img), PhEntSize(img), 0xFFFF);
  }

  lemma SmallProduct(n: nat, s: nat, max: nat)
    requires n <= max && s <= max
    ensures Times(n, s) <= max * max
  {
    assert n * s <= max * s <= max * max;
  }

  lemma FieldSizes(img: ElfImage, i: nat)
    requires |img| >= 64 && HeaderAt(img, i) + PHDR_SIZE <= |img|
    ensures FileOff(img, i) < U64 && FileSize(img, i) < U64
  {
    Powers();
    LeBound(img, HeaderAt(img, i) + 8, 8);
    LeBound(img, HeaderAt(img, i) + 32, 8);
  }

  // The segments kept so far are those of the entries in idx, all acceptable.
  ghost predicate Kept(img: ElfImage, idx: seq<nat>, regs: seq<Segment>)
    requires GoodHeader(img)
  {
    (forall k | 0 <= k < |idx| :: AcceptedEntry(img, idx[k])) && regs == SegmentsOf(img, idx)
  }

  lemma KeptMore(img: ElfImage, idx: seq<nat>, regs: seq<Segment>, i: nat)
    requires GoodHeader(img) && i < PhNum(img) && Kept(img, idx, regs) && AcceptedEntry(img, i)
    ensures Kept(img, idx + [i], regs + [SegmentAt(img, i)])
  {
    hide GoodHeader, AcceptedEntry, SegmentAt, PhNum;
  }

  // So the next entry, if it is to be loaded, is one the loader looks at.
  lemma KeptAll(img: ElfImage, i: nat, regs: seq<Segment>)
    requires GoodHeader(img) && i < PhNum(img) && NoneWraps(img) && |Loads(img, i)| < MAX_SEGMENTS
    requires Kept(img, Loads(img, i), regs)
    ensures |img| < U64 && (LoadEntry(img, i) ==> !EntryWraps(img, i))
  {
    hide GoodHeader, AcceptedEntry, SegmentAt, PhNum, LoadEntry, EntryWraps, TableWraps;
    LoadsAre(img, i);
    hide Loads;
    if LoadEntry(img, i) {
      forall j | 0 <= j < i && LoadEntry(img, j)
        ensures AcceptedEntry(img, j)
      {
        assert j in Loads(img, i);
      }
      assert Reached(img, i);
    }
  }

  // A bad entry with fewer than seven before it makes the image unacceptable.
  lemma Rejected(img: ElfImage, i: nat)
    requires GoodHeader(img) && i < PhNum(img) && LoadEntry(img, i) && |Loads(img, i)| < MAX_SEGMENTS
    requires !AcceptedEntry(img, i)
    ensures !Acceptable(img)
  {
    ExaminedAt(img, i);
    hide Examined, Loads, LoadEntry, AcceptedEntry, GoodHeader, PhNum;
  }

  // Seven entries, or all there are, are the ones the loader looks at.
  lemma Complete(img: ElfImage, n: nat)
    requires GoodHeader(img) && n <= PhNum(img) && |Loads(img, n)| <= MAX_SEGMENTS
    requires (n == PhNum(img) || |Loads(img, n)| == MAX_SEGMENTS)
    ensures Examined(img) == Loads(img, n)
  {
    LoadsPrefix(img, n, PhNum(img));
    hide Loads, LoadEntry, GoodHeader, PhNum;
  }

  lemma Concluding(img: ElfImage, idx: seq<nat>, regs: seq<Segment>)
    requires GoodHeader(img) && idx == Examined(img) && Kept(img, idx, regs)
    ensures |regs| == 0 ==> !Acceptable(img)
    ensures |regs| != 0 ==> Acceptable(img) && regs == Segments(img)
  {
    hide Examined, Loads, LoadEntry, AcceptedEntry, GoodHeader, PhNum, SegmentAt;
  }

  // The program-header loop.
  method ParseTable(img: ElfImage, phoff: nat, phentsz: nat, phnum: nat) returns (r: Option<seq<Segment>>)
    requires GoodHeader(img) && phoff == PhOff(img) && phentsz == PhEntSize(img) && phnum == PhNum(img)
    requires NoneWraps(img)
    ensures r == if Acceptable(img) then Some(Segments(img)) else None
  {
    hide Le, GoodHeader, LoadEntry, AcceptedEntry, SegmentAt, PhNum, PhOff, PhEntSize, Examined, Acceptable, Segments;
    hide SegmentsOf, NoneWraps, Reached;
    r := None;
    var regs: seq<Segment> := [];
    ghost var idx: seq<nat> := [];
    var i := 0;
    assert Kept(img, idx, regs);
    while i < phnum
      invariant 0 <= i <= phnum && idx == Loads(img, i) && |regs| == |idx| < MAX_SEGMENTS && Kept(img, idx, regs)
    {
      KeptAll(img, i, regs);
      var load, seg := ReadEntry(img, i, phoff + Times(i, phentsz));
      if !load { i := i + 1; continue; }
      if seg.None? {
        Rejected(img, i);
        return;
      }
      KeptMore(img, idx, regs, i);
      regs := regs + [seg.value];
      idx := idx + [i];
      if |regs| >= MAX_SEGMENTS { break; }
      i := i + 1;
    }
    Complete(img, if i < phnum then i + 1 else phnum);
    Concluding(img, idx, regs);
    if |regs| == 0 { return; }
    r := Some(regs);
  }

  // One turn of the program-header loop.
  method ReadEntry(img: ElfImage, i: nat, ph: nat) returns (load: bool, seg: Option<Segment>)
    requires GoodHeader(img) && i < PhNum(img) && ph == HeaderAt(img, i) && |img| < U64
    requires (LoadEntry(img, i) ==> !EntryWraps(img, i))
    ensures load == LoadEntry(img, i)
    ensures load ==> (seg.Some? <==> AcceptedEntry(img, i)) && (seg.Some? ==> seg.value == SegmentAt(img, i))
  {
    hide Le;
    HeaderFits(img, i);
    seg := None;
    var kind := Decode(img, ph, 4);
    load := kind == PT_LOAD;
    if !load { return; }
    var poff := Decode(img, ph + 8, 8);
    var pvaddr := Decode(img, ph + 16, 8);
    var pfilesz := Decode(img, ph + 32, 8);
    var pmemsz := Decode(img, ph + 40, 8);
    FieldSizes(img, i);
    WrapsExactly(poff, pfilesz, |img|);
    if (poff + pfilesz) % U64 > |img| { return; }
    if pvaddr >= KERNEL_HALF { return; }
    var flags := Decode(img, ph + 4, 4);
    seg := Some(Segment(pvaddr, img[poff..poff + pfilesz], pmemsz, flags));
  }

  // exec_elf_core. It succeeds exactly when the image is accepted and creation succeeds; every failure is -1.
  // After success every collected segment reads back byte for byte through the new page tables, ring 3 may do with it
  // what its p_flags say, the stack is memory for data, and the program starts at the file's entry with its arguments.
  method Exec(vm: AddressSpaceTable, p: Process?, kstack: bool, img: ElfImage, argv: seq<Option<seq<Byte>>>,
          junk: seq<Word>)
    returns (code: int, start: Start, ghost g: Progress)
    requires vm.Valid() && UserSlotsFree(vm.S()) && |junk| == ARG_MAX && NoneWraps(img) && (p != null ==> p.SlotOk())
    requires forall i | 0 <= i < |argv| && argv[i].Some? :: CString(argv[i].value)
    requires Acceptable(img) ==> Loadable(Segments(img))
    modifies p, vm, vm.pmm, vm.pmm.bitmap
    ensures vm.Valid() && code in {0, -1}
    ensures (p != null ==> p.devioBase == old(p.devioBase) && p.devioUsed == old(p.devioUsed))
    ensures !Acceptable(img) ==> code == -1 && vm.S() == old(vm.S())
    ensures Acceptable(img) ==> Outcome(code, p != null, kstack, Segments(img), old(vm.S()), vm.S(), g)
    ensures code == 0 ==> Acceptable(img) && p != null && start == StartOf(Le(img, 24, 8), Segments(img), argv)
    ensures code == 0 && Enough(old(vm.S()), Segments(img)) ==>
              p.Valid(vm)
              && (forall k | 0 <= k < |Segments(img)| :: ReadsBack(vm.mem, p.cr3 / PAGE, Segments(img)[k]))
              && (forall k | 0 <= k < |Segments(img)| :: Protected(vm.mem, p.cr3 / PAGE, Segments(img)[k]))
              && var base := StackBase(Segments(img)); DataMemory(vm.mem, p.cr3 / PAGE, base, base + STACK_PAGES * PAGE)
    ensures code == 0 && Enough(old(vm.S()), Segments(img)) && AdmittedArgv(argv) ==>
              FindsArgv(vm.mem, p.cr3 / PAGE, start.argc, start.argv, argv)
  {
    hide Acceptable, Segments, SegmentsOf, Examined, Le, Loadable, Inv, NoneWraps, KernelSlot, ReadsBack, StartOf;
    hide Outcome, FindsArgv, Protected, DataMemory, StackBase;
    hide CountSet, AdmittedArgv, CString, Enough, Layout;
    code, start := -1, Start(0, 0, 0, 0);
    g := Progress(vm.S(), 0, vm.S(), 0);
    var r := Parse(img);
    if r.None? { return; }
    EntryField(img);
    var entry := Decode(img, 24, 8);
    code, start, g := RunSegments(vm, p, kstack, r.value, entry, argv, junk);
  }

  // The second half: the process of these segments.
  method RunSegments(vm: AddressSpaceTable, p: Process?, kstack: bool, segs: seq<Segment>, entry: nat,
        argv: seq<Option<seq<Byte>>>, junk: seq<Word>)
    returns (code: int, start: Start, ghost g: Progress)
    requires vm.Valid() && UserSlotsFree(vm.S()) && |junk| == ARG_MAX && Loadable(segs) && (p != null ==> p.SlotOk())
    requires forall i | 0 <= i < |argv| && argv[i].Some? :: CString(argv[i].value)
    modifies p, vm, vm.pmm, vm.pmm.bitmap
    ensures vm.Valid() && code in {0, -1}
    ensures (p != null ==> p.devioBase == old(p.devioBase) && p.devioUsed == old(p.devioUsed))
    ensures Outcome(code, p != null, kstack, segs, old(vm.S()), vm.S(), g)
    ensures code == 0 ==> p != null && start == StartOf(entry, segs, argv)
    ensures code == 0 && Enough(old(vm.S()), segs) ==>
              p.Valid(vm)
              && (forall k | 0 <= k < |segs| :: ReadsBack(vm.mem, p.cr3 / PAGE, segs[k]))
              && (forall k | 0 <= k < |segs| :: Protected(vm.mem, p.cr3 / PAGE, segs[k]))
              && DataMemory(vm.mem, p.cr3 / PAGE, StackBase(segs), StackBase(segs) + STACK_PAGES * PAGE)
    ensures code == 0 && Enough(old(vm.S()), segs) && AdmittedArgv(argv) ==>
              FindsArgv(vm.mem, p.cr3 / PAGE, start.argc, start.argv, argv)
  {
    hide Loadable, Layout, ArgvReads, Extended, Cloned, Inv, Image, KernelSlot, ReadsBack, Progressed, CreationCode;
    hide StartOf, StackBase;
    hide Protected, DataMemory, UserBases, Outcome, FindsArgv, CutArgs, NoRun, CountSet, AdmittedArgv;
    hide CreationNeed, SegmentsNeed, CreatedBits;
    hide HasTables, Guards, CString;
    hide TornDown, IsSpaceIn, UserRegions, UserSlotsFree;
    code := -1;
    ghost var s := vm.S();
    ghost var m, lost;
    var made;
    made, start, g, m, lost := CreateRegions(vm, p, kstack, entry, segs, argv, junk);
    if made in {-10, -11} { GuardedClone(s, segs, g); }
    Concluded(made, p != null, kstack, segs, s, vm.S(), g, m, lost);
    if made != 0 { return; }
    code := 0;
    if Enough(s, segs) {
      assert lost == {};
      AllReadBack(vm.mem, g.root, segs);
      AllProtected(vm.S(), g.root, segs);
      ZoneOfStack(vm.mem, g.root, segs);
      if AdmittedArgv(argv) { Found(vm.mem, g.root, entry, segs, argv); }
    }
  }

  // Enough frames for the process's pages and tables.
  ghost predicate Enough(s: State, segs: seq<Segment>)
  {
    CountSet(s.bits) + CreationNeed(segs) <= |s.bits|
  }

  // What an accepted image comes to: the result is decided by the bitmap; a failure loses frames exactly when it is
  // that of the stack's allocation, or that of a segment when there were too few frames for the tables asked for.
  ghost predicate Outcome(code: int, slot: bool, kstack: bool, segs: seq<Segment>, s: State, s': State, g: Progress)
  {
    var b, n, made := s.bits, TotalPages(segs), CreationCode(slot, kstack, s.bits, segs);
    (Guards(slot, kstack, segs, b) ==> Progressed(s, segs, g)) && code == (if made == 0 then 0 else -1)
    && (code != 0 ==>
          (s'.bits == b <==> made != -5 && (made in {-10, -11} ==> CountSet(b) + 1 + SegmentsNeed(segs, g.k) <= |b|)))
    && (Guards(slot, kstack, segs, b) && UserBases(segs) ==>
          (!NoRun(b, 1 + 4 * (n + STACK_PAGES)) ==> code == 0 && Enough(s, segs))
          && (!NoRun(b, 1 + 4 * n) && NoRun(b, STACK_PAGES) ==> code != 0 && s'.bits != b))
  }

  lemma Concluded(made: int, slot: bool, kstack: bool, segs: seq<Segment>, s: State, s': State, g: Progress,
          m: map<nat, Word>, lost: set<nat>)
    requires made == CreationCode(slot, kstack, s.bits, segs)
    requires Guards(slot, kstack, segs, s.bits) ==> made in {0, -5, -10, -11} && Progressed(s, segs, g)
    requires made in {0, -5, -10, -11} ==> Guards(slot, kstack, segs, s.bits)
    requires !Guards(slot, kstack, segs, s.bits) ==> s' == s
    requires made in {0, -5} ==> Extended(g.clone, s', g.root, m, lost)
    requires made in {-10, -11} ==>
               Extended(g.clone, g.at, g.root, m, lost) && |s'.bits| == |s.bits| && g.k <= |segs|
               && (forall f | 0 <= f < |s'.bits| :: s'.bits[f] == (s.bits[f] || f in lost))
               && (lost == {} <==> CountSet(s.bits) + 1 + SegmentsNeed(segs, g.k) <= |s.bits|)
    ensures Outcome(if made == 0 then 0 else -1, slot, kstack, segs, s, s', g)
  {
    hide Guards, Progressed, CreationCode, Cloned, Extended, UserBases, NoRun, TotalPages, Enough, CountSet;
    hide SegmentsNeed;
    if Guards(slot, kstack, segs, s.bits) {
      GuardedClone(s, segs, g);
      if made == -5 { Abandoned(s, g.clone, s', g.root, m, lost); }
      if made in {-10, -11} { LostFrames(s, g.clone, g.at, s', g.root, m, lost); }
      if UserBases(segs) {
        ForSure(slot, kstack, s.bits, segs);
        if !NoRun(s.bits, 1 + 4 * (TotalPages(segs) + STACK_PAGES)) { RunIsEnough(s, segs); }
      }
    }
  }

  lemma GuardedClone(s: State, segs: seq<Segment>, g: Progress)
    requires Progressed(s, segs, g)
    ensures Cloned(s, g.clone, g.root) && g.k <= |segs|
  {
    hide Cloned, LowestRun, Loaded, SegmentCode, SegmentBits, SegmentsPassed, TakeOnes;
  }

  lemma RunIsEnough(s: State, segs: seq<Segment>)
    requires UserBases(segs) && !NoRun(s.bits, 1 + 4 * (TotalPages(segs) + STACK_PAGES))
    ensures Enough(s, segs)
  {
    hide CountSet, TotalPages, NoRun, CreationNeed, UserBases;
    RoomSuffices(s.bits, segs);
  }

  lemma EntryField(img: ElfImage)
    requires Acceptable(img)
    ensures |img| >= 64
  {
  }

  lemma Found(mem: Memory, root: nat, entry: nat, segs: seq<Segment>, argv: seq<Option<seq<Byte>>>)
    requires AdmittedArgv(argv)
    requires (argv != [] ==> ArgvReads(mem, root, StackBase(segs) + (STACK_PAGES - 1) * PAGE, CutArgs(argv)))
    requires var zone := StackBase(segs) + (STACK_PAGES - 1) * PAGE; DataMemory(mem, root, zone, zone + PAGE)
    ensures FindsArgv(mem, root, StartOf(entry, segs, argv).argc, StartOf(entry, segs, argv).argv, argv)
  {
    hide ArgvReads, FindsArgv, StackBase, StartOf, DataMemory;
    StartOfArgs(entry, segs, argv);
    AdmittedFound(mem, root, StackBase(segs) + (STACK_PAGES - 1) * PAGE, argv);
  }

  lemma ZoneOfStack(mem: Memory, root: nat, segs: seq<Segment>)
    requires DataMemory(mem, root, StackBase(segs), StackBase(segs) + STACK_PAGES * PAGE)
    ensures var zone := StackBase(segs) + (STACK_PAGES - 1) * PAGE; DataMemory(mem, root, zone, zone + PAGE)
  {
    hide StackBase, Ring3Reads, Ring3Writes, Ring3Fetches;
  }

  lemma AllProtected(s: State, root: nat, segs: seq<Segment>)
    requires Inv(s) && Layout(s, root, UserRegions(segs), -1) && Loadable(segs)
    requires forall k | 0 <= k < |segs| :: Image(s.mem, root, segs[k])
    ensures forall k | 0 <= k < |segs| :: Protected(s.mem, root, segs[k])
  {
    hide Inv, Image, Protected, Translate, AddressOk, StackBase, SegBase, SegPages, KernelSlot, Loadable;
    forall k | 0 <= k < |segs|
      ensures Protected(s.mem, root, segs[k])
    {
      SpansBounds(segs, k);
      assert UserRegions(segs)[k] == SegSpan(segs[k]);
      ImageProtected(s, root, segs[k]);
    }
  }

  // System V gABI, Program Loading: the first bytes of the segment are the file's, the rest are zero, and a
  // page that can be written cannot be executed.
  ghost predicate ReadsBack(mem: Memory, root: nat, seg: Segment)
  {
    forall a | seg.vaddr <= a < seg.vaddr + seg.memSz ::
      UserByte(mem, root, a) == Some(if a - seg.vaddr < |seg.data| then seg.data[a - seg.vaddr] else 0)
      && Translate(mem, root, a).Some? && WriteXorExecute(Translate(mem, root, a).value)
  }

  lemma AllReadBack(mem: Memory, root: nat, segs: seq<Segment>)
    requires forall k | 0 <= k < |segs| :: Image(mem, root, segs[k])
    ensures forall k | 0 <= k < |segs| :: ReadsBack(mem, root, segs[k])
  {
    hide Image, ReadsBack;
    forall k | 0 <= k < |segs|
      ensures ReadsBack(mem, root, segs[k])
    {
      ImageReadsBack(mem, root, segs[k]);
    }
  }

  lemma ImageReadsBack(mem: Memory, root: nat, seg: Segment)
    requires Image(mem, root, seg)
    ensures ReadsBack(mem, root, seg)
  {
    hide Translate, Entry, WriteXorExecute, LeafFlags, Mmio, Frame, OwnLeaf, SegFlags;
    forall a | seg.vaddr <= a < seg.vaddr + seg.memSz
      ensures UserByte(mem, root, a) == Some(if a - seg.vaddr < |seg.data| then seg.data[a - seg.vaddr] else 0)
      ensures Translate(mem, root, a).Some? && WriteXorExecute(Translate(mem, root, a).value)
    {
      assert UserByte(mem, root, a) == Some(SegByte(seg, a)) && LeafIs(mem, root, a, SegFlags(seg));
      SegFlagsOk(seg);
      LeafEntry(Frame(Translate(mem, root, a).value), SegFlags(seg));
    }
  }
}
