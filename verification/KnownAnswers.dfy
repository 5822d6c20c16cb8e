// Answers published for SHA-256 and for PBKDF2 with HMAC-SHA-256, proved of the specification functions. They fix what
// the definitions alone leave open: the rotations, the choice and majority functions, the byte order, the padding, the
// two pads of HMAC and the order of its arguments, and how the block number enters.
module KnownAnswers {
  import opened PhysMemory
  import opened ByteBits
  import opened Sha256Spec
  import opened Sha256Stream
  import opened Pbkdf2
  import opened HashTraces
  import opened AnswerTraces

  // ---------------------------------------------------------------- blocks

  // The last block of a message of n bytes, r of which do not fill a block.
  function Tail(r: seq<Byte>, n: nat): (b: seq<Byte>)
    requires |r| <= 55 && 8 * n < 0x1_0000_0000_0000_0000
    ensures |b| == 64
  {
    r + [0x80] + Zeros(55 - |r|) + LengthBytes(8 * n)
  }

  lemma PaddedIsTail(b: seq<Byte>, r: seq<Byte>)
    requires |b| % 64 == 0 && |r| <= 55 && 8 * (|b| + |r|) < 0x1_0000_0000_0000_0000
    ensures Padded(b + r) == b + Tail(r, |b| + |r|)
  {
    hide LengthBytes;
    assert ZerosFor(|b + r|) == 55 - |r|;
  }

  lemma TailBytes(r: seq<Byte>, n: nat, i: nat)
    requires |r| <= 55 && 8 * n < 0x1_0000 && i < 64
    ensures Tail(r, n)[i] == if i < |r| then r[i] else if i == |r| then 0x80 else if i < 62 then 0
                             else if i == 62 then 8 * n / 256 else 8 * n % 256
  {
    LengthIs(8 * n);
    hide LengthBytes;
  }

  lemma LengthIs(bits: nat)
    requires bits < 0x1_0000
    ensures LengthBytes(bits) == [0, 0, 0, 0, 0, 0, bits / 256, bits % 256]
  {
  }

  // Four bytes of a block are a word of its schedule.
  lemma FirstWord(block: seq<Byte>, j: nat, b0: Byte, b1: Byte, b2: Byte, b3: Byte, w: bv32)
    requires |block| == 64 && j < 16 && BeWord(b0, b1, b2, b3) == w
    requires block[4 * j] == b0 && block[4 * j + 1] == b1 && block[4 * j + 2] == b2 && block[4 * j + 3] == b3
    ensures Schedule(block, j) == w
  {
    hide BeWord;
  }

  lemma HashOneBlock(r: seq<Byte>)
    requires |r| <= 55
    ensures Sha256(r) == Digest(Compress(H0(), Tail(r, |r|)))
  {
    hide Compress, Digest, Tail, H0;
    PaddedIsTail([], r);
    assert [] + r == r && [] + Tail(r, |r|) == Tail(r, |r|);
    HashedOne(Tail(r, |r|));
  }

  lemma HashedOne(b: seq<Byte>)
    requires |b| == 64
    ensures Hashed(H0(), b) == Compress(H0(), b)
  {
    hide Compress, H0;
    HashedAppend([], b);
    assert [] + b == b;
  }

  lemma HashTwoBlocks(b: seq<Byte>, r: seq<Byte>)
    requires |b| == 64 && |r| <= 55
    ensures Sha256(b + r) == Digest(Compress(Compress(H0(), b), Tail(r, 64 + |r|)))
  {
    hide Compress, Digest, Tail, H0;
    PaddedIsTail(b, r);
    HashedOne(b);
    HashedAppend(b, Tail(r, 64 + |r|));
  }

  // ---------------------------------------------------------------- the answers

  // What follows the data in the last block.
  lemma BlankWord(r: seq<Byte>, n: nat, j: nat)
    requires |r| <= 55 && 8 * n < 0x1_0000 && |r| < 4 * j && j < 15
    ensures Schedule(Tail(r, n), j) == 0
  {
    TailBytes(r, n, 4 * j);
    TailBytes(r, n, 4 * j + 1);
    TailBytes(r, n, 4 * j + 2);
    TailBytes(r, n, 4 * j + 3);
    hide Tail;
    FirstWord(Tail(r, n), j, 0, 0, 0, 0, 0);
  }

  lemma MarkWord(r: seq<Byte>, n: nat, j: nat)
    requires |r| <= 55 && 8 * n < 0x1_0000 && |r| == 4 * j
    ensures Schedule(Tail(r, n), j) == 0x8000_0000
  {
    TailBytes(r, n, 4 * j);
    TailBytes(r, n, 4 * j + 1);
    TailBytes(r, n, 4 * j + 2);
    TailBytes(r, n, 4 * j + 3);
    hide Tail;
    FirstWord(Tail(r, n), j, 0x80, 0, 0, 0, 0x8000_0000);
  }

  lemma LengthWord(r: seq<Byte>, n: nat, w: bv32)
    requires |r| <= 55 && 8 * n < 0x1_0000 && BeWord(0, 0, 8 * n / 256, 8 * n % 256) == w
    ensures Schedule(Tail(r, n), 15) == w
  {
    TailBytes(r, n, 60);
    TailBytes(r, n, 61);
    TailBytes(r, n, 62);
    TailBytes(r, n, 63);
    hide Tail, BeWord;
    FirstWord(Tail(r, n), 15, 0, 0, 8 * n / 256, 8 * n % 256, w);
  }

  lemma DataWord(r: seq<Byte>, n: nat, j: nat)
    requires |r| <= 55 && 8 * n < 0x1_0000 && 4 * j + 4 <= |r|
    ensures Schedule(Tail(r, n), j) == FromBe(r[4 * j..4 * j + 4])
  {
    TailBytes(r, n, 4 * j);
    TailBytes(r, n, 4 * j + 1);
    TailBytes(r, n, 4 * j + 2);
    TailBytes(r, n, 4 * j + 3);
    hide Tail, BeWord;
  }

  lemma AllBlank(r: seq<Byte>, n: nat, from: nat)
    requires |r| <= 55 && 8 * n < 0x1_0000 && |r| < 4 * from
    ensures forall j | from <= j < 15 :: Schedule(Tail(r, n), j) == 0
  {
    hide Tail, Schedule;
    forall j | from <= j < 15
      ensures Schedule(Tail(r, n), j) == 0
    {
      BlankWord(r, n, j);
    }
  }

  lemma BytesOf(w: bv32, b0: Byte, b1: Byte, b2: Byte, b3: Byte)
    requires BytesAre(w as nat, b0, b1, b2, b3)
    ensures WordBytes(w) == [b0, b1, b2, b3]
  {
    hide BytesAre;
    BeBytes(w as nat, b0, b1, b2, b3);
  }

  predicate BytesAre(n: nat, b0: nat, b1: nat, b2: nat, b3: nat)
  {
    n == 0x100_0000 * b0 + 0x1_0000 * b1 + 0x100 * b2 + b3
  }

  lemma BeBytes(n: Word32, b0: Byte, b1: Byte, b2: Byte, b3: Byte)
    requires BytesAre(n, b0, b1, b2, b3)
    ensures Be32(n) == [b0, b1, b2, b3]
  {
    var q2 := 0x100 * b0 + b1;
    var q3 := 0x100 * q2 + b2;
    LastByte(n, q3, b3);
    LastByte(q3, q2, b2);
    LastByte(q2, b0, b1);
    assert n / 0x1_0000 == n / 0x100 / 0x100 && n / 0x100_0000 == n / 0x100 / 0x100 / 0x100;
  }

  lemma LastByte(n: nat, q: nat, b: Byte)
    requires n == 0x100 * q + b
    ensures n / 0x100 == q && n % 0x100 == b
  {
  }

  lemma DigestBytes(v: Eight)
    ensures Digest(Words(v)) == WordBytes(v.a) + WordBytes(v.b) + WordBytes(v.c) + WordBytes(v.d) + WordBytes(v.e)
                                + WordBytes(v.f) + WordBytes(v.g) + WordBytes(v.h)
  {
    hide WordBytes;
  }

  // "abc".
  function AbcText(): (t: seq<Byte>)
    ensures |t| == 3
  {
    [0x61, 0x62, 0x63]
  }

  // Its hash value.
  const ABC_HASH :=
    Eight(0xba7816bf, 0x8f01cfea, 0x414140de, 0x5dae2223, 0xb00361a3, 0x96177a9c, 0xb410ff61, 0xf20015ad)

  lemma AbcStarts()
    ensures Starts(Tail(AbcText(), 3), ABC)
  {
    var r := AbcText();
    TailBytes(r, 3, 0);
    TailBytes(r, 3, 1);
    TailBytes(r, 3, 2);
    TailBytes(r, 3, 3);
    AllBlank(r, 3, 1);
    LengthWord(r, 3, 0x18);
    FirstWord(Tail(r, 3), 0, 0x61, 0x62, 0x63, 0x80, 0x6162_6380);
    hide Tail, Schedule;
  }

  lemma AbcAfter()
    ensures After(ABC) == ABC_HASH && Words(ABC.v0) == H0()
  {
  }

  // The example of FIPS 180-2, appendix B.1.
  lemma Sha256OfAbc()
    ensures Sha256(AbcText())
            == [0xba, 0x78, 0x16, 0xbf] + [0x8f, 0x01, 0xcf, 0xea] + [0x41, 0x41, 0x40, 0xde] + [0x5d, 0xae, 0x22, 0x23]
            + [0xb0, 0x03, 0x61, 0xa3] + [0x96, 0x17, 0x7a, 0x9c] + [0xb4, 0x10, 0xff, 0x61] + [0xf2, 0x00, 0x15, 0xad]
  {
    hide Sha256, Compress, Tail, Starts, Checked, After, Digest, Words, H0, AbcText;
    HashOneBlock(AbcText());
    AbcStarts();
    AbcChecked();
    Traced(Tail(AbcText(), 3), ABC);
    AbcAfter();
    AbcBytes();
  }

  lemma AbcBytes()
    ensures Digest(Words(ABC_HASH))
            == [0xba, 0x78, 0x16, 0xbf] + [0x8f, 0x01, 0xcf, 0xea] + [0x41, 0x41, 0x40, 0xde] + [0x5d, 0xae, 0x22, 0x23]
            + [0xb0, 0x03, 0x61, 0xa3] + [0x96, 0x17, 0x7a, 0x9c] + [0xb4, 0x10, 0xff, 0x61] + [0xf2, 0x00, 0x15, 0xad]
  {
    hide Digest, Words, WordBytes;
    BytesOf(0xba7816bf, 0xba, 0x78, 0x16, 0xbf);
    BytesOf(0x8f01cfea, 0x8f, 0x01, 0xcf, 0xea);
    BytesOf(0x414140de, 0x41, 0x41, 0x40, 0xde);
    BytesOf(0x5dae2223, 0x5d, 0xae, 0x22, 0x23);
    BytesOf(0xb00361a3, 0xb0, 0x03, 0x61, 0xa3);
    BytesOf(0x96177a9c, 0x96, 0x17, 0x7a, 0x9c);
    BytesOf(0xb410ff61, 0xb4, 0x10, 0xff, 0x61);
    BytesOf(0xf20015ad, 0xf2, 0x00, 0x15, 0xad);
    DigestBytes(ABC_HASH);
  }

  // ---------------------------------------------------------------- PBKDF2

  // The hash values of the two blocks, inner and outer.
  const INNER_HASH_1 :=
    Eight(0x9bf62013, 0xafb70203, 0x7fe692f3, 0x4d381189, 0x3a60d7b9, 0xaf86950f, 0x58770fe0, 0x8b4b9510)
  const OUTER_HASH_1 :=
    Eight(0x55ac046e, 0x56e3089f, 0xec1691c2, 0x2544b605, 0xf9418521, 0x6dde0465, 0xe68b9d57, 0xc20dacbc)
  const INNER_HASH_2 :=
    Eight(0x891ea9c0, 0x3b59523b, 0x4f8ebd21, 0xc6d586a2, 0x1d1739f5, 0x8f976e39, 0x00bacaf0, 0x9a5229f9)
  const OUTER_HASH_2 :=
    Eight(0x49ca9ccc, 0xf179b645, 0x991664b3, 0x9d77ef31, 0x7c71b845, 0xb1e30bd5, 0x09112041, 0xd3a19783)

  // "passwd" and "salt".
  function Password(): (p: seq<Byte>)
    ensures |p| == 6
  {
    [0x70, 0x61, 0x73, 0x73, 0x77, 0x64]
  }

  function Salt(): (s: seq<Byte>)
    ensures |s| == 4
  {
    [0x73, 0x61, 0x6c, 0x74]
  }

  // The key block under a pad.
  function PaddedKey(pad: Byte): (b: seq<Byte>)
    ensures |b| == 64
    ensures forall i | 0 <= i < 64 :: b[i] == XorByte(if i < 6 then Password()[i] else 0, pad)
  {
    hide Password, XorByte;
    XorPad(KeyBlock(Password()), pad)
  }

  lemma KeyWords(pad: Byte, b0: Byte, b1: Byte, b2: Byte, b3: Byte, b4: Byte, b5: Byte, w0: bv32, w1: bv32, w: bv32)
    requires XorByte(0x70, pad) == b0 && XorByte(0x61, pad) == b1 && XorByte(0x73, pad) == b2
    requires XorByte(0x73, pad) == b3 && XorByte(0x77, pad) == b4 && XorByte(0x64, pad) == b5 && XorByte(0, pad) == pad
    requires BeWord(b0, b1, b2, b3) == w0 && BeWord(b4, b5, pad, pad) == w1 && BeWord(pad, pad, pad, pad) == w
    ensures Schedule(PaddedKey(pad), 0) == w0 && Schedule(PaddedKey(pad), 1) == w1
    ensures forall j | 2 <= j < 16 :: Schedule(PaddedKey(pad), j) == w
  {
    hide XorByte, BeWord, Schedule;
    assert Password() == [0x70, 0x61, 0x73, 0x73, 0x77, 0x64];
    FirstWord(PaddedKey(pad), 0, b0, b1, b2, b3, w0);
    FirstWord(PaddedKey(pad), 1, b4, b5, pad, pad, w1);
    forall j | 2 <= j < 16
      ensures Schedule(PaddedKey(pad), j) == w
    {
      FirstWord(PaddedKey(pad), j, pad, pad, pad, pad, w);
    }
  }

  lemma InnerKeyStarts()
    ensures Starts(PaddedKey(0x36), INNER_KEY)
  {
    hide PaddedKey, Schedule;
    KeyWords(0x36, 0x46, 0x57, 0x45, 0x45, 0x41, 0x52, 0x4657_4545, 0x4152_3636, 0x3636_3636);
  }

  lemma OuterKeyStarts()
    ensures Starts(PaddedKey(0x5c), OUTER_KEY)
  {
    hide PaddedKey, Schedule;
    KeyWords(0x5c, 0x2c, 0x3d, 0x2f, 0x2f, 0x2b, 0x38, 0x2c3d_2f2f, 0x2b38_5c5c, 0x5c5c_5c5c);
  }

  // The salt and the block number, as the inner hash gets them.
  function Text(i: Word32): (t: seq<Byte>)
    ensures |t| == 8
  {
    Salt() + Be32(i)
  }

  lemma TextStarts(i: Word32, w: bv32, t: Trace)
    requires i < 0x100 && BeWord(0, 0, 0, i) == w
    requires t.w0 == Quad(0x7361_6c74, w, 0x8000_0000, 0) && t.w1 == t.w2 == Quad(0, 0, 0, 0)
    requires t.w3 == Quad(0, 0, 0, 0x240)
    ensures Starts(Tail(Text(i), 72), t)
  {
    hide Tail, Schedule, Text, BeWord;
    TextLiterals();
    TextBytes(i);
    TailFirst(Text(i), 72);
    FirstWord(Tail(Text(i), 72), 0, 0x73, 0x61, 0x6c, 0x74, 0x7361_6c74);
    FirstWord(Tail(Text(i), 72), 1, 0, 0, 0, i, w);
    MarkWord(Text(i), 72, 2);
    AllBlank(Text(i), 72, 3);
    LengthWord(Text(i), 72, 0x240);
  }

  lemma TextLiterals()
    ensures BeWord(0x73, 0x61, 0x6c, 0x74) == 0x7361_6c74 && BeWord(0, 0, 2, 0x40) == 0x240
  {
  }

  lemma TextBytes(i: Word32)
    requires i < 0x100
    ensures Text(i) == [0x73, 0x61, 0x6c, 0x74, 0, 0, 0, i]
  {
    BeBytes(i, 0, 0, 0, i);
    hide Be32;
  }

  lemma TailFirst(r: seq<Byte>, n: nat)
    requires |r| <= 55 && 8 * n < 0x1_0000
    ensures forall i | 0 <= i < |r| :: Tail(r, n)[i] == r[i]
  {
    hide Tail;
    forall i | 0 <= i < |r|
      ensures Tail(r, n)[i] == r[i]
    {
      TailBytes(r, n, i);
    }
  }

  // A word survives being written out and read back.
  ghost predicate Survives(w: bv32) { FromBe(WordBytes(w)) == w }

  lemma SurvivesBy(w: bv32, b0: Byte, b1: Byte, b2: Byte, b3: Byte)
    requires BytesAre(w as nat, b0, b1, b2, b3) && BeWord(b0, b1, b2, b3) == w
    ensures Survives(w)
  {
    hide BytesAre, BeWord, WordBytes;
    BytesOf(w, b0, b1, b2, b3);
  }

  // The outer hash of a digest.
  lemma DigestStarts(v: Eight, t: Trace)
    requires Survives(v.a) && Survives(v.b) && Survives(v.c) && Survives(v.d)
    requires Survives(v.e) && Survives(v.f) && Survives(v.g) && Survives(v.h)
    requires t.w0 == Quad(v.a, v.b, v.c, v.d) && t.w1 == Quad(v.e, v.f, v.g, v.h)
    requires t.w2 == Quad(0x8000_0000, 0, 0, 0) && t.w3 == Quad(0, 0, 0, 0x300)
    ensures Starts(Tail(Digest(Words(v)), 96), t)
  {
    hide Tail, Schedule, Digest, WordBytes, FromBe, BeWord, Survives, Words;
    var r := Digest(Words(v));
    DigestLiteral();
    DigestWords(v);
    DigestFirst(r, 0, v.a);
    DigestFirst(r, 1, v.b);
    DigestFirst(r, 2, v.c);
    DigestFirst(r, 3, v.d);
    DigestFirst(r, 4, v.e);
    DigestFirst(r, 5, v.f);
    DigestFirst(r, 6, v.g);
    DigestFirst(r, 7, v.h);
    MarkWord(r, 96, 8);
    AllBlank(r, 96, 9);
    LengthWord(r, 96, 0x300);
  }

  lemma DigestFirst(r: seq<Byte>, j: nat, w: bv32)
    requires |r| == 32 && j < 8 && r[4 * j..4 * j + 4] == WordBytes(w) && Survives(w)
    ensures Schedule(Tail(r, 96), j) == w
  {
    hide Tail, Schedule, WordBytes, FromBe;
    DataWord(r, 96, j);
  }

  lemma DigestLiteral()
    ensures BeWord(0, 0, 3, 0) == 0x300
  {
  }

  // A digest is cut where it was put together.
  lemma DigestWords(v: Eight)
    ensures var d := Digest(Words(v));
            && d[0..4] == WordBytes(v.a) && d[4..8] == WordBytes(v.b) && d[8..12] == WordBytes(v.c)
            && d[12..16] == WordBytes(v.d) && d[16..20] == WordBytes(v.e) && d[20..24] == WordBytes(v.f)
            && d[24..28] == WordBytes(v.g) && d[28..32] == WordBytes(v.h)
  {
    hide Digest, WordBytes, Words;
    DigestBytes(v);
    var d, e := FourBytes(v.a, v.b, v.c, v.d), FourBytes(v.e, v.f, v.g, v.h);
    assert Digest(Words(v)) == d + e by { DigestHalves(v); }
    hide FourBytes;
    CutFour(v.a, v.b, v.c, v.d);
    CutFour(v.e, v.f, v.g, v.h);
    CutHalves(d, e, 0);
    CutHalves(d, e, 4);
    CutHalves(d, e, 8);
    CutHalves(d, e, 12);
  }

  function FourBytes(a: bv32, b: bv32, c: bv32, d: bv32): (s: seq<Byte>)
    ensures |s| == 16
  {
    WordBytes(a) + WordBytes(b) + WordBytes(c) + WordBytes(d)
  }

  lemma DigestHalves(v: Eight)
    ensures Digest(Words(v)) == FourBytes(v.a, v.b, v.c, v.d) + FourBytes(v.e, v.f, v.g, v.h)
  {
    hide Digest, WordBytes, Words;
    DigestBytes(v);
  }

  lemma CutFour(a: bv32, b: bv32, c: bv32, d: bv32)
    ensures var s := FourBytes(a, b, c, d);
            s[0..4] == WordBytes(a) && s[4..8] == WordBytes(b) && s[8..12] == WordBytes(c) && s[12..16] == WordBytes(d)
  {
    hide WordBytes;
  }

  lemma CutHalves(d: seq<Byte>, e: seq<Byte>, k: nat)
    requires |d| == |e| == 16 && k <= 12
    ensures (d + e)[k..k + 4] == d[k..k + 4] && (d + e)[16 + k..20 + k] == e[k..k + 4]
  {
  }

  lemma AfterKeys()
    ensures Words(INNER_KEY.v0) == Words(OUTER_KEY.v0) == H0()
    ensures After(INNER_KEY) == INNER_1.v0 == INNER_2.v0 && After(OUTER_KEY) == OUTER_1.v0 == OUTER_2.v0
  {
  }

  // The inner and the outer hash of block i.
  lemma InnerHash(i: Word32, t: Trace)
    requires Starts(Tail(Text(i), 72), t) && Checked(t) && t.v0 == INNER_1.v0
    ensures Sha256(PaddedKey(0x36) + Text(i)) == Digest(Words(After(t)))
  {
    hide PaddedKey, Text, Tail, Starts, Checked, Compress, Digest, After, Words, Sha256, H0;
    AfterKeys();
    InnerKeyStarts();
    InnerKeyChecked();
    Traced(PaddedKey(0x36), INNER_KEY);
    Traced(Tail(Text(i), 72), t);
    HashTwoBlocks(PaddedKey(0x36), Text(i));
  }

  lemma OuterHash(d: seq<Byte>, t: Trace)
    requires |d| == 32 && Starts(Tail(d, 96), t) && Checked(t) && t.v0 == OUTER_1.v0
    ensures Sha256(PaddedKey(0x5c) + d) == Digest(Words(After(t)))
  {
    hide PaddedKey, Tail, Starts, Checked, Compress, Digest, After, Words, Sha256, H0;
    AfterKeys();
    OuterKeyStarts();
    OuterKeyChecked();
    Traced(PaddedKey(0x5c), OUTER_KEY);
    Traced(Tail(d, 96), t);
    HashTwoBlocks(PaddedKey(0x5c), d);
  }

  lemma HmacIs(i: Word32, d: seq<Byte>)
    requires Sha256(PaddedKey(0x36) + Text(i)) == d
    ensures U(Password(), Salt(), i, 1) == Sha256(PaddedKey(0x5c) + d)
  {
    hide Sha256, XorPad, KeyBlock, Password, Salt, Be32;
  }

  lemma FirstInner()
    ensures Sha256(PaddedKey(0x36) + Text(1)) == Digest(Words(INNER_HASH_1))
  {
    hide PaddedKey, Text, Tail, Starts, Checked, Digest, Words, Sha256;
    TextStarts(1, 1, INNER_1);
    Inner1Checked();
    AfterKeys();
    InnerHash(1, INNER_1);
  }

  lemma FirstOuter()
    ensures Starts(Tail(Digest(Words(INNER_HASH_1)), 96), OUTER_1)
  {
    hide Tail, Starts, Digest, Words, Survives;
    SurvivesBy(0x9bf62013, 0x9b, 0xf6, 0x20, 0x13);
    SurvivesBy(0xafb70203, 0xaf, 0xb7, 0x02, 0x03);
    SurvivesBy(0x7fe692f3, 0x7f, 0xe6, 0x92, 0xf3);
    SurvivesBy(0x4d381189, 0x4d, 0x38, 0x11, 0x89);
    SurvivesBy(0x3a60d7b9, 0x3a, 0x60, 0xd7, 0xb9);
    SurvivesBy(0xaf86950f, 0xaf, 0x86, 0x95, 0x0f);
    SurvivesBy(0x58770fe0, 0x58, 0x77, 0x0f, 0xe0);
    SurvivesBy(0x8b4b9510, 0x8b, 0x4b, 0x95, 0x10);
    DigestStarts(INNER_HASH_1, OUTER_1);
  }

  lemma FirstBlock()
    ensures U(Password(), Salt(), 1, 1) == Digest(Words(After(OUTER_1)))
  {
    hide PaddedKey, Text, Tail, Starts, Checked, Digest, Words, After, U, Sha256;
    FirstInner();
    FirstOuter();
    Outer1Checked();
    AfterKeys();
    OuterHash(Digest(Words(INNER_HASH_1)), OUTER_1);
    HmacIs(1, Digest(Words(INNER_HASH_1)));
  }

  lemma SecondInner()
    ensures Sha256(PaddedKey(0x36) + Text(2)) == Digest(Words(INNER_HASH_2))
  {
    hide PaddedKey, Text, Tail, Starts, Checked, Digest, Words, Sha256;
    TextStarts(2, 2, INNER_2);
    Inner2Checked();
    AfterKeys();
    InnerHash(2, INNER_2);
  }

  lemma SecondOuter()
    ensures Starts(Tail(Digest(Words(INNER_HASH_2)), 96), OUTER_2)
  {
    hide Tail, Starts, Digest, Words, Survives;
    SurvivesBy(0x891ea9c0, 0x89, 0x1e, 0xa9, 0xc0);
    SurvivesBy(0x3b59523b, 0x3b, 0x59, 0x52, 0x3b);
    SurvivesBy(0x4f8ebd21, 0x4f, 0x8e, 0xbd, 0x21);
    SurvivesBy(0xc6d586a2, 0xc6, 0xd5, 0x86, 0xa2);
    SurvivesBy(0x1d1739f5, 0x1d, 0x17, 0x39, 0xf5);
    SurvivesBy(0x8f976e39, 0x8f, 0x97, 0x6e, 0x39);
    SurvivesBy(0x00bacaf0, 0x00, 0xba, 0xca, 0xf0);
    SurvivesBy(0x9a5229f9, 0x9a, 0x52, 0x29, 0xf9);
    DigestStarts(INNER_HASH_2, OUTER_2);
  }

  lemma SecondBlock()
    ensures U(Password(), Salt(), 2, 1) == Digest(Words(After(OUTER_2)))
  {
    hide PaddedKey, Text, Tail, Starts, Checked, Digest, Words, After, U, Sha256;
    SecondInner();
    SecondOuter();
    Outer2Checked();
    AfterKeys();
    OuterHash(Digest(Words(INNER_HASH_2)), OUTER_2);
    HmacIs(2, Digest(Words(INNER_HASH_2)));
  }

  lemma FirstBytes()
    ensures Digest(Words(After(OUTER_1)))
            == [0x55, 0xac, 0x04, 0x6e] + [0x56, 0xe3, 0x08, 0x9f] + [0xec, 0x16, 0x91, 0xc2] + [0x25, 0x44, 0xb6, 0x05]
            + [0xf9, 0x41, 0x85, 0x21] + [0x6d, 0xde, 0x04, 0x65] + [0xe6, 0x8b, 0x9d, 0x57] + [0xc2, 0x0d, 0xac, 0xbc]
  {
    hide Digest, Words, WordBytes;
    assert After(OUTER_1) == OUTER_HASH_1;
    BytesOf(0x55ac046e, 0x55, 0xac, 0x04, 0x6e);
    BytesOf(0x56e3089f, 0x56, 0xe3, 0x08, 0x9f);
    BytesOf(0xec1691c2, 0xec, 0x16, 0x91, 0xc2);
    BytesOf(0x2544b605, 0x25, 0x44, 0xb6, 0x05);
    BytesOf(0xf9418521, 0xf9, 0x41, 0x85, 0x21);
    BytesOf(0x6dde0465, 0x6d, 0xde, 0x04, 0x65);
    BytesOf(0xe68b9d57, 0xe6, 0x8b, 0x9d, 0x57);
    BytesOf(0xc20dacbc, 0xc2, 0x0d, 0xac, 0xbc);
    DigestBytes(After(OUTER_1));
  }

  lemma SecondBytes()
    ensures Digest(Words(After(OUTER_2)))
            == [0x49, 0xca, 0x9c, 0xcc] + [0xf1, 0x79, 0xb6, 0x45] + [0x99, 0x16, 0x64, 0xb3] + [0x9d, 0x77, 0xef, 0x31]
            + [0x7c, 0x71, 0xb8, 0x45] + [0xb1, 0xe3, 0x0b, 0xd5] + [0x09, 0x11, 0x20, 0x41] + [0xd3, 0xa1, 0x97, 0x83]
  {
    hide Digest, Words, WordBytes;
    assert After(OUTER_2) == OUTER_HASH_2;
    BytesOf(0x49ca9ccc, 0x49, 0xca, 0x9c, 0xcc);
    BytesOf(0xf179b645, 0xf1, 0x79, 0xb6, 0x45);
    BytesOf(0x991664b3, 0x99, 0x16, 0x64, 0xb3);
    BytesOf(0x9d77ef31, 0x9d, 0x77, 0xef, 0x31);
    BytesOf(0x7c71b845, 0x7c, 0x71, 0xb8, 0x45);
    BytesOf(0xb1e30bd5, 0xb1, 0xe3, 0x0b, 0xd5);
    BytesOf(0x09112041, 0x09, 0x11, 0x20, 0x41);
    BytesOf(0xd3a19783, 0xd3, 0xa1, 0x97, 0x83);
    DigestBytes(After(OUTER_2));
  }

  lemma TwoBlocks(pw: seq<Byte>, salt: seq<Byte>)
    requires |pw| == 6 && |salt| == 4
    ensures Derived(pw, salt, 1, 64) == U(pw, salt, 1, 1) + U(pw, salt, 2, 1)
  {
    hide U;
    var t := Blocks(pw, salt, 1, 2);
    NextBlock(pw, salt, 1, 2);
    NextBlock(pw, salt, 1, 1);
    assert t == [] + U(pw, salt, 1, 1) + U(pw, salt, 2, 1);
  }

  // The first test vector of section 11 of RFC 7914: one iteration, two blocks.
  lemma DerivedFromPasswd()
    ensures Derived(Password(), Salt(), 1, 64)
            == [0x55, 0xac, 0x04, 0x6e] + [0x56, 0xe3, 0x08, 0x9f] + [0xec, 0x16, 0x91, 0xc2] + [0x25, 0x44, 0xb6, 0x05]
            + [0xf9, 0x41, 0x85, 0x21] + [0x6d, 0xde, 0x04, 0x65] + [0xe6, 0x8b, 0x9d, 0x57] + [0xc2, 0x0d, 0xac, 0xbc]
            + [0x49, 0xca, 0x9c, 0xcc] + [0xf1, 0x79, 0xb6, 0x45] + [0x99, 0x16, 0x64, 0xb3] + [0x9d, 0x77, 0xef, 0x31]
            + [0x7c, 0x71, 0xb8, 0x45] + [0xb1, 0xe3, 0x0b, 0xd5] + [0x09, 0x11, 0x20, 0x41] + [0xd3, 0xa1, 0x97, 0x83]
  {
    hide Derived, U, Digest, Words, After, Password, Salt;
    TwoBlocks(Password(), Salt());
    FirstBlock();
    SecondBlock();
    FirstBytes();
    SecondBytes();
  }
}
