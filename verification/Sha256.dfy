// SHA-256 as section 6.2 of FIPS 180-4 defines it, over bytes and 32-bit words.
module Sha256Spec {
  import opened PhysMemory

  const M32: nat := 0x1_0000_0000
  type Word32 = w: nat | w < M32

  function Add(a: bv32, b: bv32): bv32 { a + b }

  // The constants of section 4.2.2.
  function K(): (k: seq<bv32>)
    ensures |k| == 64
  {
    K0() + K16() + K32() + K48()
  }

  function K0(): (k: seq<bv32>)
    ensures |k| == 16
  {
    [0x428a2f98, 0x71374491, 0xb5c0fbcf, 0xe9b5dba5, 0x3956c25b, 0x59f111f1, 0x923f82a4, 0xab1c5ed5,
     0xd807aa98, 0x12835b01, 0x243185be, 0x550c7dc3, 0x72be5d74, 0x80deb1fe, 0x9bdc06a7, 0xc19bf174]
  }

  function K16(): (k: seq<bv32>)
    ensures |k| == 16
  {
    [0xe49b69c1, 0xefbe4786, 0x0fc19dc6, 0x240ca1cc, 0x2de92c6f, 0x4a7484aa, 0x5cb0a9dc, 0x76f988da,
     0x983e5152, 0xa831c66d, 0xb00327c8, 0xbf597fc7, 0xc6e00bf3, 0xd5a79147, 0x06ca6351, 0x14292967]
  }

  function K32(): (k: seq<bv32>)
    ensures |k| == 16
  {
    [0x27b70a85, 0x2e1b2138, 0x4d2c6dfc, 0x53380d13, 0x650a7354, 0x766a0abb, 0x81c2c92e, 0x92722c85,
     0xa2bfe8a1, 0xa81a664b, 0xc24b8b70, 0xc76c51a3, 0xd192e819, 0xd6990624, 0xf40e3585, 0x106aa070]
  }

  function K48(): (k: seq<bv32>)
    ensures |k| == 16
  {
    [0x19a4c116, 0x1e376c08, 0x2748774c, 0x34b0bcb5, 0x391c0cb3, 0x4ed8aa4a, 0x5b9cca4f, 0x682e6ff3,
     0x748f82ee, 0x78a5636f, 0x84c87814, 0x8cc70208, 0x90befffa, 0xa4506ceb, 0xbef9a3f7, 0xc67178f2]
  }

  // The initial hash value, section 5.3.3.
  function H0(): (h: seq<bv32>)
    ensures |h| == 8
  {
    [0x6a09e667, 0xbb67ae85, 0x3c6ef372, 0xa54ff53a, 0x510e527f, 0x9b05688c, 0x1f83d9ab, 0x5be0cd19]
  }

  // A word, most significant byte first.
  function FromBe(b: seq<Byte>): bv32
    requires |b| == 4
  {
    BeWord(b[0], b[1], b[2], b[3])
  }

  function BeWord(b0: Byte, b1: Byte, b2: Byte, b3: Byte): bv32
  {
    ((b0 as bv32) << 24) | ((b1 as bv32) << 16) | ((b2 as bv32) << 8) | (b3 as bv32)
  }

  function Be32(w: Word32): (b: seq<Byte>)
    ensures |b| == 4
  {
    assert w / 0x100_0000 < 0x100;
    [w / 0x100_0000, w / 0x1_0000 % 0x100, w / 0x100 % 0x100, w % 0x100]
  }

  function WordBytes(w: bv32): (b: seq<Byte>)
    ensures |b| == 4
  {
    Be32(w as nat)
  }

  // The message schedule, step 1 of section 6.2.2; the two bracketed terms are sigma_1 and sigma_0 of section 4.1.2.
  function NextWord(w2: bv32, w7: bv32, w15: bv32, w16: bv32): bv32
  {
    (w2.RotateRight(17) ^ w2.RotateRight(19) ^ (w2 >> 10)) + w7
    + (w15.RotateRight(7) ^ w15.RotateRight(18) ^ (w15 >> 3)) + w16
  }

  function Schedule(block: seq<Byte>, t: nat): bv32
    requires |block| == 64 && t < 64
  {
    if t < 16 then FromBe(block[4 * t..4 * t + 4])
    else NextWord(Schedule(block, t - 2), Schedule(block, t - 7), Schedule(block, t - 15), Schedule(block, t - 16))
  }

  // One round, step 3. T_1 adds Sigma_1 and Ch, T_2 is Sigma_0 and Maj.
  function Temp1(e: bv32, f: bv32, g: bv32, h: bv32, k: bv32, w: bv32): bv32
  {
    h + (e.RotateRight(6) ^ e.RotateRight(11) ^ e.RotateRight(25)) + ((e & f) ^ (!e & g)) + k + w
  }

  function Temp2(a: bv32, b: bv32, c: bv32): bv32
  {
    (a.RotateRight(2) ^ a.RotateRight(13) ^ a.RotateRight(22)) + ((a & b) ^ (a & c) ^ (b & c))
  }

  // v holds the working variables a..h.
  function Round(v: seq<bv32>, k: bv32, w: bv32): (r: seq<bv32>)
    requires |v| == 8
    ensures |r| == 8
  {
    var t1, t2 := Temp1(v[4], v[5], v[6], v[7], k, w), Temp2(v[0], v[1], v[2]);
    [Add(t1, t2), v[0], v[1], v[2], Add(v[3], t1), v[4], v[5], v[6]]
  }

  function Rounds(v: seq<bv32>, block: seq<Byte>, t: nat): (r: seq<bv32>)
    requires |v| == 8 && |block| == 64 && t <= 64
    ensures |r| == 8
  {
    if t == 0 then v else Round(Rounds(v, block, t - 1), K()[t - 1], Schedule(block, t - 1))
  }

  // Steps 2 to 4.
  function Compress(h: seq<bv32>, block: seq<Byte>): (r: seq<bv32>)
    requires |h| == 8 && |block| == 64
    ensures |r| == 8
  {
    var v := Rounds(h, block, 64);
    seq(8, i requires 0 <= i < 8 => Add(h[i], v[i]))
  }

  predicate Whole(m: seq<Byte>) { |m| % 64 == 0 }

  // The hash value after the blocks of m.
  function Hashed(h: seq<bv32>, m: seq<Byte>): (r: seq<bv32>)
    requires |h| == 8 && Whole(m)
    ensures |r| == 8
  {
    if m == [] then h else Compress(Hashed(h, m[..|m| - 64]), m[|m| - 64..])
  }

  function Zeros(n: nat): (z: seq<Byte>)
    ensures |z| == n
  {
    seq(n, _ => 0)
  }

  // The length in bits as a 64-bit number.
  function LengthBytes(bits: nat): (b: seq<Byte>)
    requires bits < 0x1_0000_0000_0000_0000
    ensures |b| == 8
  {
    assert bits / M32 < M32;
    Be32(bits / M32) + Be32(bits % M32)
  }

  // The padding of section 5.1.1: a one bit, the fewest zeros that leave 8 bytes in the last block, the length.
  function ZerosFor(n: nat): (z: nat)
    ensures (n + 1 + z + 8) % 64 == 0 && z < 64
  {
    (119 - n % 64) % 64
  }

  function Padded(m: seq<Byte>): (p: seq<Byte>)
    requires 8 * |m| < 0x1_0000_0000_0000_0000
    ensures Whole(p)
  {
    m + [0x80] + Zeros(ZerosFor(|m|)) + LengthBytes(8 * |m|)
  }

  function Digest(h: seq<bv32>): (d: seq<Byte>)
    requires |h| == 8
    ensures |d| == 32
  {
    WordBytes(h[0]) + WordBytes(h[1]) + WordBytes(h[2]) + WordBytes(h[3]) + WordBytes(h[4]) + WordBytes(h[5])
    + WordBytes(h[6]) + WordBytes(h[7])
  }

  function Sha256(m: seq<Byte>): (d: seq<Byte>)
    requires 8 * |m| < 0x1_0000_0000_0000_0000
    ensures |d| == 32
  {
    Digest(Hashed(H0(), Padded(m)))
  }
}

// The hash of crypto.c: a context fed piece by piece, with one block of buffer.
module Sha256Stream {
  import opened PhysMemory
  import opened Sha256Spec

  // The expansion as the loop adds it up.
  function Expanded(w16: bv32, w15: bv32, w7: bv32, w2: bv32): bv32
  {
    w16 + (w15.RotateRight(7) ^ w15.RotateRight(18) ^ (w15 >> 3)) + w7
    + (w2.RotateRight(17) ^ w2.RotateRight(19) ^ (w2 >> 10))
  }

  // The order in which the schedule's terms are added does not matter.
  lemma AddOrder(w16: bv32, w15: bv32, w7: bv32, w2: bv32)
    ensures Expanded(w16, w15, w7, w2) == NextWord(w2, w7, w15, w16)
  {
  }

  // The hash value, the message length, and the bytes not yet compressed.
  class Context {
    var h: seq<bv32>
    var len: nat
    const buf: array<Byte>
    var buflen: nat
    ghost var blocks: seq<Byte>  // the whole blocks fed so far

    // Whole blocks are compressed, the rest is in the buffer.
    ghost predicate Fed()
      reads this, buf
    {
      |h| == 8 && buf.Length == 64 && buflen < 64 && Whole(blocks) && h == Hashed(H0(), blocks)
    }

    // Everything fed so far.
    ghost function Msg(): seq<Byte>
      requires Fed()
      reads this, buf
    {
      blocks + buf[..buflen]
    }

    ghost predicate Valid()
      reads this, buf
    {
      Fed() && len == |Msg()| % 0x1_0000_0000_0000_0000
    }

    constructor ()
      ensures Valid() && Msg() == [] && fresh(buf)
    {
      h, len, buflen, blocks := H0(), 0, 0, [];
      buf := new Byte[64](_ => 0);
    }

    // sha256_init.
    method Init()
      requires buf.Length == 64
      modifies this
      ensures Valid() && Msg() == []
    {
      h, len, buflen, blocks := H0(), 0, 0, [];
    }

    // sha256_compress on the buffer.
    method CompressBuf()
      requires |h| == 8 && buf.Length == 64
      modifies this`h
      ensures h == Compress(old(h), buf[..])
    {
      hide Rounds, Schedule, Compress, Add;
      var w := ExpandBuf();
      var a, b, c, d, e, f, g, hh := WorkOn(w);
      CompressIs(h, buf[..], [a, b, c, d, e, f, g, hh]);
      h := [Add(h[0], a), Add(h[1], b), Add(h[2], c), Add(h[3], d), Add(h[4], e), Add(h[5], f), Add(h[6], g),
            Add(h[7], hh)];
    }

    // Its rounds.
    method WorkOn(w: seq<bv32>)
      returns (a: bv32, b: bv32, c: bv32, d: bv32, e: bv32, f: bv32, g: bv32, hh: bv32)
      requires |h| == 8 && buf.Length == 64 && |w| == 64 && forall t | 0 <= t < 64 :: w[t] == Schedule(buf[..], t)
      ensures [a, b, c, d, e, f, g, hh] == Rounds(h, buf[..], 64)
    {
      hide Round, Schedule, K, Add, Temp1, Temp2;
      a, b, c, d, e, f, g, hh := h[0], h[1], h[2], h[3], h[4], h[5], h[6], h[7];
      var i := 0;
      while i < 64
        invariant i <= 64 && [a, b, c, d, e, f, g, hh] == Rounds(h, buf[..], i)
      {
        var t1, t2 := Temp1(e, f, g, hh, K()[i], w[i]), Temp2(a, b, c);
        RoundIs(a, b, c, d, e, f, g, hh, K()[i], w[i]);
        hh, g, f, e, d, c, b, a := g, f, e, Add(d, t1), c, b, a, Add(t1, t2);
        i := i + 1;
      }
    }

    // The message schedule of the block in the buffer.
    method ExpandBuf() returns (w: seq<bv32>)
      requires buf.Length == 64
      ensures |w| == 64 && forall t | 0 <= t < 64 :: w[t] == Schedule(buf[..], t)
    {
      hide NextWord, FromBe;
      var a := new bv32[64](_ => 0);
      var i := 0;
      while i < 16
        invariant i <= 16 && a.Length == 64 && fresh(a)
        invariant forall t | 0 <= t < i :: a[t] == Schedule(buf[..], t)
      {
        a[i] := FromBe(buf[4 * i..4 * i + 4]);
        assert buf[..][4 * i..4 * i + 4] == buf[4 * i..4 * i + 4];
        i := i + 1;
      }
      ExpandRest(a, buf[..]);
      w := a[..];
    }

    // Words 16 to 63.
    static method ExpandRest(a: array<bv32>, ghost block: seq<Byte>)
      requires a.Length == |block| == 64 && forall t | 0 <= t < 16 :: a[t] == Schedule(block, t)
      modifies a
      ensures forall t | 0 <= t < 64 :: a[t] == Schedule(block, t)
    {
      hide Schedule, Expanded, NextWord;
      var i := 16;
      while i < 64
        invariant 16 <= i <= 64 && forall t | 0 <= t < i :: a[t] == Schedule(block, t)
      {
        ScheduleMore(block, i);
        AddOrder(a[i - 16], a[i - 15], a[i - 7], a[i - 2]);
        a[i] := Expanded(a[i - 16], a[i - 15], a[i - 7], a[i - 2]);
        i := i + 1;
      }
    }

    // sha256_update with the first n bytes of d.
    method Update(d: array<Byte>, n: nat)
      requires Valid() && d != buf && n <= d.Length
      modifies this, buf
      ensures Valid() && Msg() == old(Msg()) + d[..n]
    {
      hide Hashed, H0, Whole;
      ghost var m := Msg();
      len := (len + n) % 0x1_0000_0000_0000_0000;
      var off := 0;
      assert d[..0] == [];
      while off < n
        invariant off <= n && Fed() && Msg() == m + d[..off] && len == (|m| + n) % 0x1_0000_0000_0000_0000
      {
        ghost var last := off;
        off := Absorb(d, off, n - off);
        assert d[..off] == d[..last] + d[last..off];
      }
    }

    // One round of its loop: as much of d, from off, as the buffer takes; a full buffer is compressed.
    method Absorb(d: array<Byte>, off: nat, left: nat) returns (next: nat)
      requires Fed() && d != buf && 0 < left && off + left <= d.Length
      modifies this`h, this`buflen, this`blocks, buf
      ensures Fed() && off < next <= off + left && Msg() == old(Msg()) + d[off..next]
    {
      hide Hashed, H0, Whole, Compress;
      var take := 64 - buflen;
      if take > left { take := left; }
      CopyIn(d, off, take);
      next := off + take;
      buflen := buflen + take;
      if buflen == 64 {
        assert buf[..64] == buf[..];
        CompressBuf();
        HashedAppend(blocks, buf[..]);
        blocks := blocks + buf[..];
        buflen := 0;
      }
    }

    method CopyIn(d: array<Byte>, off: nat, take: nat)
      requires d != buf && buf.Length == 64 && buflen + take <= 64 && off + take <= d.Length
      modifies buf
      ensures buf[..buflen + take] == old(buf[..buflen]) + d[off..off + take]
    {
      var i := 0;
      while i < take
        invariant i <= take && buf[..buflen + i] == old(buf[..buflen]) + d[off..off + i]
      {
        buf[buflen + i] := d[off + i];
        assert d[off..off + i + 1] == d[off..off + i] + [d[off + i]];
        assert buf[..buflen + i + 1] == buf[..buflen + i] + [d[off + i]];
        i := i + 1;
      }
    }

    // sha256_final: the digest of everything fed, into the first 32 bytes of out.
    method Final(out: array<Byte>)
      requires Valid() && out != buf && out.Length >= 32 && 8 * |Msg()| < 0x1_0000_0000_0000_0000
      modifies this, buf, out
      ensures out[..32] == Sha256(old(Msg())) && out[32..] == old(out[32..])
    {
      hide Hashed, LengthBytes, Digest, ZerosFor, H0, Whole, Compress, Padded, Zeros;
      ghost var tail := buf[..buflen];
      ghost var done, msg := blocks, Msg();
      var bits := len * 8 % 0x1_0000_0000_0000_0000;
      assert bits == 8 * |msg|;
      buf[buflen] := 0x80;
      buflen := buflen + 1;
      assert buf[..buflen] == tail + [0x80];
      if buflen > 56 { done := Spill(done); }
      ghost var head := buf[..buflen];
      FillZeros(56);
      PutLength(bits);
      assert buf[..] == buf[..56] + buf[56..];
      CompressBuf();
      HashedAppend(done, buf[..]);
      PaddedIs(blocks, tail, done + buf[..], head, done);
      PutDigest(out);
    }

    // No room for the length: the block is filled up and compressed.
    method Spill(ghost done: seq<Byte>) returns (ghost done': seq<Byte>)
      requires |h| == 8 && buf.Length == 64 && buflen <= 64 && Whole(done) && h == Hashed(H0(), done)
      modifies this`h, this`buflen, buf
      ensures |h| == 8 && buflen == 0 && Whole(done') && h == Hashed(H0(), done')
      ensures done' == done + (old(buf[..buflen]) + Zeros(64 - old(buflen)))
    {
      hide Hashed, H0, Whole, Compress, Zeros;
      FillZeros(64);
      assert buf[..64] == buf[..];
      CompressBuf();
      HashedAppend(done, buf[..]);
      done' := done + buf[..];
      buflen := 0;
    }

    // Zeros from buflen up to 'to'.
    method FillZeros(to: nat)
      requires buf.Length == 64 && buflen <= to <= 64
      modifies this`buflen, buf
      ensures buflen == to && buf[..to] == old(buf[..buflen]) + Zeros(to - old(buflen))
    {
      ghost var b := buflen;
      while buflen < to
        invariant b <= buflen <= to && buf[..buflen] == old(buf[..buflen]) + Zeros(buflen - b)
      {
        buf[buflen] := 0;
        buflen := buflen + 1;
        assert buf[..buflen] == buf[..buflen - 1] + [0];
      }
    }

    // The length in the last 8 bytes.
    method PutLength(bits: nat)
      requires buf.Length == 64 && bits < 0x1_0000_0000_0000_0000
      modifies buf
      ensures buf[..56] == old(buf[..56]) && buf[56..] == LengthBytes(bits)
    {
      var bitlen := Be32(bits / M32) + Be32(bits % M32);
      var i := 0;
      while i < 8
        invariant i <= 8 && buf[..56] == old(buf[..56]) && buf[56..56 + i] == bitlen[..i]
      {
        buf[56 + i] := bitlen[i];
        i := i + 1;
      }
      assert bitlen[..8] == bitlen;
    }

    method PutDigest(out: array<Byte>)
      requires |h| == 8 && out.Length >= 32
      modifies out
      ensures out[..32] == Digest(h) && out[32..] == old(out[32..])
    {
      hide Be32, Digest;
      var i := 0;
      while i < 8
        invariant i <= 8 && out[32..] == old(out[32..]) && out[..4 * i] == Concat(h[..i])
      {
        PutBe32(out, 4 * i, h[i] as nat);
        assert out[..4 * (i + 1)] == out[..4 * i] + out[4 * i..4 * i + 4];
        assert h[..i + 1][..i] == h[..i];
        i := i + 1;
      }
      assert h[..8] == h;
      ConcatIs(h);
    }

    static method PutBe32(p: array<Byte>, at: nat, v: Word32)
      requires at + 4 <= p.Length
      modifies p
      ensures p[at..at + 4] == Be32(v) && p[..at] == old(p[..at]) && p[at + 4..] == old(p[at + 4..])
    {
      p[at], p[at + 1], p[at + 2], p[at + 3] := Be32(v)[0], Be32(v)[1], Be32(v)[2], Be32(v)[3];
    }
  }

  lemma HashedAppend(m: seq<Byte>, block: seq<Byte>)
    requires Whole(m) && |block| == 64
    ensures Whole(m + block) && Hashed(H0(), m + block) == Compress(Hashed(H0(), m), block)
  {
    hide Compress, H0;
    var p := m + block;
    assert p[..|p| - 64] == m && p[|p| - 64..] == block;
  }

  // Both ways of filling the last blocks give the padding.
  lemma PaddedIs(m: seq<Byte>, tail: seq<Byte>, p: seq<Byte>, head: seq<Byte>, done: seq<Byte>)
    requires Whole(m) && |tail| < 64 && 8 * |m + tail| < 0x1_0000_0000_0000_0000
    requires if |tail| > 55 then head == [] && done == m + (tail + [0x80] + Zeros(63 - |tail|))
             else head == tail + [0x80] && done == m
    requires p == done + (head + Zeros(56 - |head|) + LengthBytes(8 * |m + tail|))
    ensures p == Padded(m + tail)
  {
    hide LengthBytes;
    var b := |tail|;
    assert |m + tail| % 64 == b;
    if b > 55 { assert Zeros(63 - b) + Zeros(56) == Zeros(119 - b); }
  }

  // The bytes of words, one after the other.
  function Concat(h: seq<bv32>): (b: seq<Byte>)
    ensures |b| == 4 * |h|
  {
    if h == [] then [] else Concat(h[..|h| - 1]) + WordBytes(h[|h| - 1])
  }

  lemma ConcatIs(h: seq<bv32>)
    requires |h| == 8
    ensures Concat(h) == Digest(h)
  {
    hide WordBytes, Concat;
    forall k: nat | 0 < k <= 8
      ensures Concat(h[..k]) == Concat(h[..k - 1]) + WordBytes(h[k - 1])
    {
      ConcatMore(h, k);
    }
    assert Concat(h[..1]) == WordBytes(h[0]);
    assert Concat(h[..2]) == WordBytes(h[0]) + WordBytes(h[1]);
    assert Concat(h[..4]) == WordBytes(h[0]) + WordBytes(h[1]) + WordBytes(h[2]) + WordBytes(h[3]) by {
      assert Concat(h[..3]) == WordBytes(h[0]) + WordBytes(h[1]) + WordBytes(h[2]);
    }
    ghost var w4 := Concat(h[..4]);
    assert Concat(h[..6]) == w4 + WordBytes(h[4]) + WordBytes(h[5]) by {
      assert Concat(h[..5]) == w4 + WordBytes(h[4]);
    }
    assert Concat(h[..8]) == Concat(h[..6]) + WordBytes(h[6]) + WordBytes(h[7]) by {
      assert Concat(h[..7]) == Concat(h[..6]) + WordBytes(h[6]);
    }
    assert h[..8] == h;
  }

  lemma ConcatMore(h: seq<bv32>, k: nat)
    requires 0 < k <= |h|
    ensures Concat(h[..k]) == Concat(h[..k - 1]) + WordBytes(h[k - 1])
  {
    assert h[..k][..k - 1] == h[..k - 1];
  }

  lemma ScheduleMore(block: seq<Byte>, t: nat)
    requires |block| == 64 && 16 <= t < 64
    ensures Schedule(block, t)
            == NextWord(Schedule(block, t - 2), Schedule(block, t - 7),
                        Schedule(block, t - 15), Schedule(block, t - 16))
  {
    hide NextWord;
  }

  lemma RoundIs(a: bv32, b: bv32, c: bv32, d: bv32, e: bv32, f: bv32, g: bv32, h: bv32, k: bv32, w: bv32)
    ensures var t1, t2 := Temp1(e, f, g, h, k, w), Temp2(a, b, c);
            Round([a, b, c, d, e, f, g, h], k, w) == [Add(t1, t2), a, b, c, Add(d, t1), e, f, g]
  {
    hide Add, Temp1, Temp2;
  }

  lemma CompressIs(h: seq<bv32>, block: seq<Byte>, v: seq<bv32>)
    requires |h| == 8 && |block| == 64 && v == Rounds(h, block, 64)
    ensures Compress(h, block) ==
            [Add(h[0], v[0]), Add(h[1], v[1]), Add(h[2], v[2]), Add(h[3], v[3]), Add(h[4], v[4]), Add(h[5], v[5]),
             Add(h[6], v[6]), Add(h[7], v[7])]
  {
    hide Add, Rounds;
  }

  function Joined(pieces: seq<array<Byte>>): seq<Byte>
    reads pieces
  {
    if pieces == [] then [] else Joined(pieces[..|pieces| - 1]) + pieces[|pieces| - 1][..]
  }

  lemma JoinedNone(pieces: seq<array<Byte>>)
    ensures Joined(pieces[..0]) == []
  {
  }

  lemma JoinedMore(pieces: seq<array<Byte>>, i: nat)
    requires i < |pieces|
    ensures Joined(pieces[..i + 1]) == Joined(pieces[..i]) + pieces[i][..pieces[i].Length]
  {
    assert pieces[..i + 1][..i] == pieces[..i];
  }

  // However a message is cut into calls of sha256_update, the digest is that of the whole.
  method HashPieces(pieces: seq<array<Byte>>, out: array<Byte>)
    requires out.Length >= 32 && 8 * |Joined(pieces)| < 0x1_0000_0000_0000_0000
    modifies out
    ensures out[..32] == Sha256(old(Joined(pieces)))
  {
    hide Sha256, Joined;
    var c := new Context();
    assert Joined(pieces[..0]) == [] by { JoinedNone(pieces); }
    var i := 0;
    while i < |pieces|
      invariant i <= |pieces| && c.Valid() && c.Msg() == Joined(pieces[..i]) && fresh(c) && fresh(c.buf)
      modifies c, c.buf
    {
      c.Update(pieces[i], pieces[i].Length);
      JoinedMore(pieces, i);
      i := i + 1;
    }
    assert pieces[..i] == pieces;
    c.Final(out);
  }
}
