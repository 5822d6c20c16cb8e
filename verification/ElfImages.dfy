// ELF64 images as the System V gABI lays them out, field after field: what is written this way is what the loader of
// ElfLoader reads.
module ElfImages {
  import opened PhysMemory
  import opened UserMemory
  import opened ProcessCreation
  import opened ElfLoader

  // A number in n bytes, the least significant first.
  function Field(v: nat, n: nat): (b: seq<Byte>)
    ensures |b| == n
  {
    if n == 0 then [] else [v % 256] + Field(v / 256, n - 1)
  }

  // e_ident: magic number, 64-bit class, least significant byte first, version, padding.
  function Ident(): (b: seq<Byte>)
    ensures |b| == 16
  {
    [0x7F, 0x45, 0x4C, 0x46, 2, 1, 1, 0] + Field(0, 8)
  }

  // The header: e_ident, e_type, e_machine, e_version, e_entry, e_phoff, e_shoff, e_flags, e_ehsize, e_phentsize,
  // e_phnum, e_shentsize, e_shnum, e_shstrndx.
  function Header(entry: nat, n: nat): (b: seq<Byte>)
    ensures |b| == 64
  {
    Ident() + Field(2, 2) + Field(0x3E, 2) + Field(1, 4) + Field(entry, 8) + Field(64, 8) + Field(0, 8) + Field(0, 4)
    + Field(64, 2) + Field(56, 2) + Field(n, 2) + Field(64, 2) + Field(0, 2) + Field(0, 2)
  }

  // A program header: p_type, p_flags, p_offset, p_vaddr, p_paddr, p_filesz, p_memsz, p_align.
  function ProgramHeader(seg: Segment, off: nat): (b: seq<Byte>)
    ensures |b| == 56
  {
    Field(1, 4) + Field(seg.flags, 4) + Field(off, 8) + Field(seg.vaddr, 8) + Field(seg.vaddr, 8)
    + Field(|seg.data|, 8) + Field(seg.memSz, 8) + Field(0x1000, 8)
  }

  // The contents of the first k segments, one after the other.
  function Contents(segs: seq<Segment>, k: nat): seq<Byte>
    requires k <= |segs|
  {
    if k == 0 then [] else Contents(segs, k - 1) + segs[k - 1].data
  }

  // They start behind the table.
  function Offset(segs: seq<Segment>, k: nat): nat
    requires k <= |segs|
  {
    64 + 56 * |segs| + |Contents(segs, k)|
  }

  function Table(segs: seq<Segment>, k: nat): (b: seq<Byte>)
    requires k <= |segs|
    ensures |b| == 56 * k
  {
    if k == 0 then [] else Table(segs, k - 1) + ProgramHeader(segs[k - 1], Offset(segs, k - 1))
  }

  function Image(entry: nat, segs: seq<Segment>): ElfImage
  {
    Header(entry, |segs|) + Table(segs, |segs|) + Contents(segs, |segs|)
  }

  // Everything fits its field, and the addresses are below the kernel's half.
  predicate Writable(entry: nat, segs: seq<Segment>)
  {
    0 < |segs| <= MAX_SEGMENTS && entry < U64 && |Image(entry, segs)| < U64
    && forall k | 0 <= k < |segs| :: segs[k].vaddr < KERNEL_HALF && segs[k].memSz < U64 && segs[k].flags < 0x1_0000_0000
  }

  // ---------------------------------------------------------------- reading a field

  lemma {:induction false} ReadField(img: ElfImage, off: nat, v: nat, n: nat)
    requires off + n <= |img| && img[off..off + n] == Field(v, n) && v < Power256(n)
    ensures Le(img, off, n) == v
    decreases n
  {
    if n > 0 {
      assert img[off] == img[off..off + n][0] == v % 256;
      assert img[off + 1..off + n] == img[off..off + n][1..];
      assert v / 256 < Power256(n - 1);
      ReadField(img, off + 1, v / 256, n - 1);
    }
  }

  lemma Powers()
    ensures Power256(2) == 0x1_0000 && Power256(4) == 0x1_0000_0000 && Power256(8) == U64
  {
    assert Power256(2) == 256 * Power256(1);
    assert Power256(4) == 256 * (256 * Power256(2));
    assert Power256(6) == 256 * (256 * Power256(4));
    assert Power256(8) == 256 * (256 * Power256(6));
  }

  // A field behind 'before'.
  lemma ReadAfter(img: ElfImage, before: seq<Byte>, v: nat, n: nat, rest: seq<Byte>)
    requires img == before + Field(v, n) + rest && v < Power256(n)
    ensures Le(img, |before|, n) == v
  {
    hide Field, Le, Power256;
    assert img[|before|..|before| + n] == Field(v, n);
    ReadField(img, |before|, v, n);
  }

  // The fields the loader reads.
  lemma HeaderReads(entry: nat, n: nat, rest: seq<Byte>)
    requires entry < U64 && n < 0x1_0000
    ensures var img := Header(entry, n) + rest;
            && img[0] == 0x7F && img[1] == 0x45 && img[2] == 0x4C && img[3] == 0x46 && img[4] == 2 && img[5] == 1
            && Le(img, 18, 2) == EM_X86_64 && Le(img, 24, 8) == entry && Le(img, 32, 8) == 64 && Le(img, 54, 2) == 56
            && Le(img, 56, 2) == n
  {
    Powers();
    hide Field, Le, Power256;
    var img := Header(entry, n) + rest;
    var h0 := Ident() + Field(2, 2);
    var h1 := h0 + Field(0x3E, 2) + Field(1, 4);
    var h2 := h1 + Field(entry, 8);
    var h3 := h2 + Field(64, 8) + Field(0, 8) + Field(0, 4) + Field(64, 2);
    var h4 := h3 + Field(56, 2);
    var r4 := Field(64, 2) + Field(0, 2) + Field(0, 2) + rest;
    var r3 := Field(n, 2) + r4;
    var r2 := Field(0, 8) + Field(0, 4) + Field(64, 2) + (Field(56, 2) + r3);
    assert Header(entry, n) == h4 + Field(n, 2) + Field(64, 2) + Field(0, 2) + Field(0, 2);
    assert img == h4 + Field(n, 2) + r4;
    ReadAfter(img, h4, n, 2, r4);
    assert img == h3 + Field(56, 2) + r3;
    ReadAfter(img, h3, 56, 2, r3);
    assert img == h2 + Field(64, 8) + r2;
    ReadAfter(img, h2, 64, 8, r2);
    assert img == h1 + Field(entry, 8) + (Field(64, 8) + r2);
    ReadAfter(img, h1, entry, 8, Field(64, 8) + r2);
    assert img == h0 + Field(0x3E, 2) + (Field(1, 4) + (Field(entry, 8) + (Field(64, 8) + r2)));
    ReadAfter(img, h0, 0x3E, 2, Field(1, 4) + (Field(entry, 8) + (Field(64, 8) + r2)));
    assert forall i | 0 <= i < 16 :: img[i] == Ident()[i];
  }

  lemma EntryReads(before: seq<Byte>, seg: Segment, off: nat, rest: seq<Byte>)
    requires seg.vaddr < U64 && seg.memSz < U64 && seg.flags < 0x1_0000_0000 && off < U64 && |seg.data| < U64
    ensures var img, h := before + ProgramHeader(seg, off) + rest, |before|;
            && Le(img, h, 4) == PT_LOAD && Le(img, h + 4, 4) == seg.flags && Le(img, h + 8, 8) == off
            && Le(img, h + 16, 8) == seg.vaddr && Le(img, h + 32, 8) == |seg.data| && Le(img, h + 40, 8) == seg.memSz
  {
    Powers();
    hide Field, Le, Power256;
    var img := before + ProgramHeader(seg, off) + rest;
    var h1 := before + Field(1, 4);
    var h2 := h1 + Field(seg.flags, 4);
    var h3 := h2 + Field(off, 8);
    var h5 := h3 + Field(seg.vaddr, 8) + Field(seg.vaddr, 8);
    var h6 := h5 + Field(|seg.data|, 8);
    var r6 := Field(0x1000, 8) + rest;
    var r5 := Field(seg.memSz, 8) + r6;
    var r3 := Field(seg.vaddr, 8) + (Field(|seg.data|, 8) + r5);
    var r2 := Field(seg.vaddr, 8) + r3;
    assert img == h6 + Field(seg.memSz, 8) + r6;
    ReadAfter(img, h6, seg.memSz, 8, r6);
    assert img == h5 + Field(|seg.data|, 8) + r5;
    ReadAfter(img, h5, |seg.data|, 8, r5);
    assert img == h3 + Field(seg.vaddr, 8) + r3;
    ReadAfter(img, h3, seg.vaddr, 8, r3);
    assert img == h2 + Field(off, 8) + r2;
    ReadAfter(img, h2, off, 8, r2);
    assert img == h1 + Field(seg.flags, 4) + (Field(off, 8) + r2);
    ReadAfter(img, h1, seg.flags, 4, Field(off, 8) + r2);
    assert img == before + Field(1, 4) + (Field(seg.flags, 4) + (Field(off, 8) + r2));
    ReadAfter(img, before, 1, 4, Field(seg.flags, 4) + (Field(off, 8) + r2));
  }

  // ---------------------------------------------------------------- the whole image

  lemma {:induction false} TableSplit(segs: seq<Segment>, k: nat, n: nat) returns (rest: seq<Byte>)
    requires k < n <= |segs|
    ensures Table(segs, n) == Table(segs, k) + ProgramHeader(segs[k], Offset(segs, k)) + rest
  {
    hide ProgramHeader, Offset;
    if n == k + 1 {
      rest := [];
      assert Table(segs, n) == Table(segs, k) + ProgramHeader(segs[k], Offset(segs, k)) + [];
    } else {
      var r := TableSplit(segs, k, n - 1);
      var last := ProgramHeader(segs[n - 1], Offset(segs, n - 1));
      rest := r + last;
      assert Table(segs, k) + ProgramHeader(segs[k], Offset(segs, k)) + r + last
             == Table(segs, k) + ProgramHeader(segs[k], Offset(segs, k)) + (r + last);
    }
  }

  lemma {:induction false} ContentsSplit(segs: seq<Segment>, k: nat, n: nat)
    requires k < n <= |segs|
    ensures |Contents(segs, k)| + |segs[k].data| <= |Contents(segs, n)|
    ensures Contents(segs, n)[|Contents(segs, k)|..|Contents(segs, k)| + |segs[k].data|] == segs[k].data
    decreases n
  {
    if n > k + 1 { ContentsSplit(segs, k, n - 1); }
  }

  lemma ImageHeader(entry: nat, segs: seq<Segment>)
    requires Writable(entry, segs)
    ensures var img := Image(entry, segs);
            GoodHeader(img) && PhOff(img) == 64 && PhEntSize(img) == 56 && PhNum(img) == |segs|
            && Le(img, 24, 8) == entry
  {
    hide Le, Header, Table, Contents;
    var rest := Table(segs, |segs|) + Contents(segs, |segs|);
    assert Image(entry, segs) == Header(entry, |segs|) + rest;
    HeaderReads(entry, |segs|, rest);
  }

  lemma ImageEntry(entry: nat, segs: seq<Segment>, k: nat)
    requires Writable(entry, segs) && k < |segs|
    ensures var img, h := Image(entry, segs), 64 + 56 * k;
            && h + 56 <= |img| && Le(img, h, 4) == PT_LOAD && Le(img, h + 4, 4) == segs[k].flags
            && Le(img, h + 8, 8) == Offset(segs, k) && Le(img, h + 16, 8) == segs[k].vaddr
            && Le(img, h + 32, 8) == |segs[k].data| && Le(img, h + 40, 8) == segs[k].memSz
    ensures var off := Offset(segs, k);
            off + |segs[k].data| <= |Image(entry, segs)|
            && Image(entry, segs)[off..off + |segs[k].data|] == segs[k].data
  {
    hide Le, Header, Table, Contents, ProgramHeader;
    var n, img := |segs|, Image(entry, segs);
    ContentsSplit(segs, k, n);
    var r := TableSplit(segs, k, n);
    var before, rest := Header(entry, n) + Table(segs, k), r + Contents(segs, n);
    assert img == before + ProgramHeader(segs[k], Offset(segs, k)) + rest;
    EntryReads(before, segs[k], Offset(segs, k), rest);
    ImageData(Header(entry, n) + Table(segs, n), Contents(segs, n), |Contents(segs, k)|, |segs[k].data|);
  }

  lemma ImageData(head: seq<Byte>, body: seq<Byte>, at: nat, n: nat)
    requires at + n <= |body|
    ensures (head + body)[|head| + at..|head| + at + n] == body[at..at + n]
  {
  }

  lemma EntryIs(entry: nat, segs: seq<Segment>, k: nat)
    requires Writable(entry, segs) && k < |segs|
    ensures var img := Image(entry, segs);
            GoodHeader(img) && PhNum(img) == |segs| && LoadEntry(img, k) && AcceptedEntry(img, k)
            && SegmentAt(img, k) == segs[k]
  {
    hide Le, Image, Offset, GoodHeader, PhNum, PhOff, PhEntSize;
    ImageHeader(entry, segs);
    ImageEntry(entry, segs, k);
    assert HeaderAt(Image(entry, segs), k) == 64 + 56 * k;
  }

  lemma {:induction false} AllLoad(img: ElfImage, n: nat)
    requires GoodHeader(img) && n <= PhNum(img) && forall k | 0 <= k < n :: LoadEntry(img, k)
    ensures |Loads(img, n)| == n && forall k | 0 <= k < n :: Loads(img, n)[k] == k
  {
    hide LoadEntry, GoodHeader, PhNum;
    if n > 0 { AllLoad(img, n - 1); }
  }

  // The round trip: the loader accepts what was written and gets back exactly the segments and the entry.
  lemma WrittenIsRead(entry: nat, segs: seq<Segment>)
    requires Writable(entry, segs)
    ensures var img := Image(entry, segs); Acceptable(img) && Segments(img) == segs && Le(img, 24, 8) == entry
  {
    hide Le, Image, LoadEntry, AcceptedEntry, SegmentAt, GoodHeader, PhNum;
    var img := Image(entry, segs);
    ImageHeader(entry, segs);
    forall k | 0 <= k < |segs|
      ensures LoadEntry(img, k) && AcceptedEntry(img, k) && SegmentAt(img, k) == segs[k]
    {
      EntryIs(entry, segs, k);
    }
    AllLoad(img, |segs|);
  }
}
