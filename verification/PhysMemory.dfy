// Physical memory as the kernel sees it: 4 KB frames of bytes, read and written either byte by byte
// (memcpy, memset) or as little-endian 64-bit words (page-table entries, argv pointers).
module PhysMemory {
  type Byte = b: nat | b < 256
  type Word = w: nat | w < 0x1_0000_0000_0000_0000

  const PAGE: nat := 4096
  const SLOTS: nat := 512

  type Page = p: seq<Byte> | |p| == PAGE witness seq(PAGE, _ => 0)

  // The frames of RAM, indexed by frame number (physical address / 4096).
  type Memory = seq<Page>

  function FromBytes(b: seq<Byte>): (w: Word)
    requires |b| == 8
  {
    var u: seq<nat> := b;
    u[0] + 0x100 * u[1] + 0x1_0000 * u[2] + 0x100_0000 * u[3]
    + 0x1_0000_0000 * u[4] + 0x100_0000_0000 * u[5] + 0x1_0000_0000_0000 * u[6] + 0x100_0000_0000_0000 * u[7]
  }

  function ToBytes(w: Word): (b: seq<Byte>)
    ensures |b| == 8
  {
    HalfBytes(w % 0x1_0000_0000) + HalfBytes(w / 0x1_0000_0000)
  }

  function HalfBytes(h: nat): (b: seq<Byte>)
    requires h < 0x1_0000_0000
    ensures |b| == 4
  {
    assert h / 0x100_0000 < 0x100;
    [h % 0x100, h / 0x100 % 0x100, h / 0x1_0000 % 0x100, h / 0x100_0000]
  }

  lemma HalfRoundTrip(h: nat)
    requires h < 0x1_0000_0000
    ensures h % 0x100 + 0x100 * (h / 0x100 % 0x100) + 0x1_0000 * (h / 0x1_0000 % 0x100)
            + 0x100_0000 * (h / 0x100_0000) == h
  {
    assert h / 0x1_0000 == h / 0x100 / 0x100;
    assert h / 0x100_0000 == h / 0x1_0000 / 0x100;
  }

  lemma WordRoundTrip(w: Word)
    ensures FromBytes(ToBytes(w)) == w
  {
    HalfRoundTrip(w % 0x1_0000_0000);
    HalfRoundTrip(w / 0x1_0000_0000);
  }

  // The i-th 64-bit word of a frame.
  function WordAt(p: Page, i: nat): Word
    requires i < SLOTS
  {
    FromBytes(p[8 * i..8 * i + 8])
  }

  function PutWord(p: Page, i: nat, w: Word): (p': Page)
    requires i < SLOTS
  {
    p[..8 * i] + ToBytes(w) + p[8 * i + 8..]
  }

  lemma PutWordReads(p: Page, i: nat, w: Word)
    requires i < SLOTS
    ensures forall j | 0 <= j < SLOTS :: WordAt(PutWord(p, i, w), j) == if j == i then w else WordAt(p, j)
    ensures forall k | 0 <= k < PAGE && !(8 * i <= k < 8 * i + 8) :: PutWord(p, i, w)[k] == p[k]
  {
    WordRoundTrip(w);
    var p' := PutWord(p, i, w);
    forall j | 0 <= j < SLOTS
      ensures WordAt(p', j) == if j == i then w else WordAt(p, j)
    {
      if j == i {
        assert p'[8 * j..8 * j + 8] == ToBytes(w);
      } else {
        assert p'[8 * j..8 * j + 8] == p[8 * j..8 * j + 8];
      }
    }
  }

  function ZeroPage(): (p: Page)
    ensures forall k | 0 <= k < PAGE :: p[k] == 0
  {
    seq(PAGE, _ => 0)
  }

  lemma ZeroPageReads()
    ensures forall j | 0 <= j < SLOTS :: WordAt(ZeroPage(), j) == 0
  {
  }
}
