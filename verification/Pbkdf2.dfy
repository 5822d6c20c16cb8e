// HMAC-SHA-256 (section 2 of RFC 2104) and PBKDF2 (section 5.2 of RFC 8018) as crypto.c computes them in place.
module Pbkdf2 {
  import opened PhysMemory
  import opened ByteBits
  import opened Sha256Spec
  import opened Sha256Stream

  // Shorter than 2^61 bytes.
  predicate Hashable(n: nat) { 8 * n < 0x1_0000_0000_0000_0000 }

  // ---------------------------------------------------------------- HMAC

  // The key as one block: hashed when longer than a block, then filled up with zeros.
  function KeyBlock(key: seq<Byte>): (k: seq<Byte>)
    requires Hashable(|key|)
    ensures |k| == 64
  {
    var k := if |key| > 64 then Sha256(key) else key;
    k + Zeros(64 - |k|)
  }

  function XorPad(k: seq<Byte>, pad: Byte): (r: seq<Byte>)
    ensures |r| == |k| && forall i | 0 <= i < |k| :: r[i] == XorByte(k[i], pad)
  {
    seq(|k|, i requires 0 <= i < |k| => XorByte(k[i], pad))
  }

  function Hmac(key: seq<Byte>, text: seq<Byte>): (d: seq<Byte>)
    requires Hashable(|key|) && Hashable(64 + |text|)
    ensures |d| == 32
  {
    var k := KeyBlock(key);
    Sha256(XorPad(k, 0x5c) + Sha256(XorPad(k, 0x36) + text))
  }

  // The key block in place.
  method PutKey(key: array<Byte>, klen: nat) returns (k: array<Byte>)
    requires klen <= key.Length && Hashable(klen)
    ensures fresh(k) && k[..] == KeyBlock(key[..klen])
  {
    hide Sha256;
    k := new Byte[64](_ => 0);
    if klen > 64 {
      var t := new Context();
      t.Update(key, klen);
      assert [] + key[..klen] == key[..klen];
      t.Final(k);
      assert k[32..] == Zeros(32);
      assert k[..] == k[..32] + k[32..];
    } else {
      var i := 0;
      while i < klen
        invariant i <= klen && fresh(k) && k.Length == 64 && k[..i] == key[..i] && forall j | i <= j < 64 :: k[j] == 0
      {
        k[i] := key[i];
        i := i + 1;
      }
      assert k[..] == key[..klen] + Zeros(64 - klen);
    }
  }

  method PutPad(k: array<Byte>, pad: Byte) returns (p: array<Byte>)
    requires k.Length == 64
    ensures fresh(p) && p[..] == XorPad(k[..], pad)
  {
    hide XorByte;
    p := new Byte[64](_ => 0);
    var i := 0;
    while i < 64
      invariant i <= 64 && fresh(p) && p.Length == 64 && forall j | 0 <= j < i :: p[j] == XorByte(k[j], pad)
    {
      p[i] := XorByte(k[i], pad);
      i := i + 1;
    }
  }

  // hmac_sha256: the result is right also when data or key is the output array itself.
  method HmacSha256(key: array<Byte>, klen: nat, data: array<Byte>, dlen: nat, out: array<Byte>)
    requires klen <= key.Length && dlen <= data.Length && out.Length >= 32 && Hashable(klen) && Hashable(64 + dlen)
    modifies out
    ensures out[..32] == Hmac(old(key[..klen]), old(data[..dlen])) && out[32..] == old(out[32..])
  {
    hide Sha256, XorPad, KeyBlock;
    var k := PutKey(key, klen);
    var ipad := PutPad(k, 0x36);
    var opad := PutPad(k, 0x5c);
    assert data[..dlen] == old(data[..dlen]);
    var c := new Context();
    HashTwo(c, ipad, data, dlen, out);
    assert opad[..] == XorPad(KeyBlock(old(key[..klen])), 0x5c);
    c.Init();
    HashTwo(c, opad, out, 32, out);
  }

  // The digest of a block and n bytes of d, into out, which may be d.
  method HashTwo(c: Context, block: array<Byte>, d: array<Byte>, n: nat, out: array<Byte>)
    requires c.Valid() && c.Msg() == [] && block.Length == 64 && n <= d.Length && out.Length >= 32 && Hashable(64 + n)
    requires c.buf != block && c.buf != d && c.buf != out && block != out
    modifies c, c.buf, out
    ensures out[..32] == Sha256(block[..] + old(d[..n])) && out[32..] == old(out[32..]) && c.buf.Length == 64
  {
    hide Sha256;
    c.Update(block, 64);
    assert [] + block[..64] == block[..];
    c.Update(d, n);
    c.Final(out);
  }

  // ---------------------------------------------------------------- PBKDF2

  function XorSeq(a: seq<Byte>, b: seq<Byte>): (r: seq<Byte>)
    requires |a| == |b|
    ensures |r| == |a| && forall i | 0 <= i < |a| :: r[i] == XorByte(a[i], b[i])
  {
    seq(|a|, i requires 0 <= i < |a| => XorByte(a[i], b[i]))
  }

  // U_j of block i.
  function U(pw: seq<Byte>, salt: seq<Byte>, i: Word32, j: nat): (u: seq<Byte>)
    requires Hashable(|pw|) && Hashable(64 + |salt| + 4) && j >= 1
    ensures |u| == 32
  {
    if j == 1 then Hmac(pw, salt + Be32(i)) else Hmac(pw, U(pw, salt, i, j - 1))
  }

  // F: the exclusive or of the first c of them.
  function F(pw: seq<Byte>, salt: seq<Byte>, c: nat, i: Word32): (t: seq<Byte>)
    requires Hashable(|pw|) && Hashable(64 + |salt| + 4) && c >= 1
    ensures |t| == 32
  {
    if c == 1 then U(pw, salt, i, 1) else XorSeq(F(pw, salt, c - 1, i), U(pw, salt, i, c))
  }

  // T_1 || ... || T_l.
  function Blocks(pw: seq<Byte>, salt: seq<Byte>, c: nat, l: nat): (t: seq<Byte>)
    requires Hashable(|pw|) && Hashable(64 + |salt| + 4) && c >= 1 && l < M32
    ensures |t| == 32 * l
  {
    if l == 0 then [] else Blocks(pw, salt, c, l - 1) + F(pw, salt, c, l)
  }

  function Derived(pw: seq<Byte>, salt: seq<Byte>, c: nat, n: nat): (dk: seq<Byte>)
    requires Hashable(|pw|) && Hashable(64 + |salt| + 4) && c >= 1 && n <= 32 * (M32 - 1)
    ensures |dk| == n
  {
    Blocks(pw, salt, c, (n + 31) / 32)[..n]
  }

  // What the implementation makes of its inputs: at most 128 bytes of salt, at least one iteration.
  function Used(salt: seq<Byte>): seq<Byte> { if |salt| > 128 then salt[..128] else salt }
  function Rounds(iters: nat): nat { if iters == 0 then 1 else iters }

  method FirstU(pw: array<Byte>, pwlen: nat, salt: array<Byte>, saltlen: nat, i: Word32, u: array<Byte>)
    requires pwlen <= pw.Length && saltlen <= salt.Length && u.Length == 32 && Hashable(pwlen) && u != pw && u != salt
    modifies u
    ensures u[..] == U(pw[..pwlen], Used(salt[..saltlen]), i, 1)
  {
    hide Hmac, Be32, Used;
    var concat, n := SaltAndNumber(salt, saltlen, i);
    HmacSha256(pw, pwlen, concat, n, u);
    assert u[..32] == u[..];
  }

  // The salt, cut to 128 bytes, and the block number.
  method SaltAndNumber(salt: array<Byte>, saltlen: nat, i: Word32) returns (concat: array<Byte>, n: nat)
    requires saltlen <= salt.Length
    ensures fresh(concat) && n <= concat.Length && n <= 132 && concat[..n] == Used(salt[..saltlen]) + Be32(i)
  {
    hide Be32;
    var pre := if saltlen > 128 then 128 else saltlen;
    concat := new Byte[132](_ => 0);
    var k := 0;
    while k < pre
      invariant k <= pre && fresh(concat) && concat.Length == 132 && concat[..k] == salt[..k]
    {
      concat[k] := salt[k];
      assert concat[..k + 1] == concat[..k] + [salt[k]];
      k := k + 1;
    }
    var si := Be32(i);
    concat[pre], concat[pre + 1], concat[pre + 2], concat[pre + 3] := si[0], si[1], si[2], si[3];
    n := pre + 4;
    assert salt[..pre] == Used(salt[..saltlen]);
    assert concat[..n] == concat[..pre] + si;
  }

  // t ^= u.
  method XorInto(t: array<Byte>, u: array<Byte>)
    requires t.Length == u.Length == 32 && t != u
    modifies t
    ensures t[..] == XorSeq(old(t[..]), u[..])
  {
    hide XorByte;
    var j := 0;
    while j < 32
      invariant j <= 32 && forall k | 0 <= k < 32 :: t[k] == if k < j then XorByte(old(t[k]), u[k]) else old(t[k])
    {
      t[j] := XorByte(t[j], u[j]);
      j := j + 1;
    }
  }

  // One block T_i into t.
  method BlockOf(pw: array<Byte>, pwlen: nat, salt: array<Byte>, saltlen: nat, iters: nat, i: Word32, u: array<Byte>,
          t: array<Byte>)
    requires pwlen <= pw.Length && saltlen <= salt.Length && Hashable(pwlen) && iters < M32 - 1
    requires u.Length == t.Length == 32 && u != t && {u, t} !! {pw, salt}
    modifies u, t
    ensures t[..] == F(pw[..pwlen], Used(salt[..saltlen]), Rounds(iters), i)
  {
    hide Hmac, U, F, XorSeq;
    ghost var p, s := pw[..pwlen], Used(salt[..saltlen]);
    FirstU(pw, pwlen, salt, saltlen, i, u);
    CopyAll(t, u);
    FirstF(p, s, i);
    var r := 2;
    while r <= iters
      invariant 2 <= r && r <= Rounds(iters) + 1
      invariant u[..] == U(p, s, i, r - 1) && t[..] == F(p, s, r - 1, i)
      decreases iters - r
    {
      assert u[..32] == u[..];
      HmacSha256(pw, pwlen, u, 32, u);
      assert u[..32] == u[..];
      NextF(p, s, r, i);
      XorInto(t, u);
      r := (r + 1) % M32;
    }
  }

  lemma FirstF(pw: seq<Byte>, salt: seq<Byte>, i: Word32)
    requires Hashable(|pw|) && Hashable(64 + |salt| + 4)
    ensures F(pw, salt, 1, i) == U(pw, salt, i, 1)
  {
  }

  lemma NextF(pw: seq<Byte>, salt: seq<Byte>, c: nat, i: Word32)
    requires Hashable(|pw|) && Hashable(64 + |salt| + 4) && c >= 2
    ensures U(pw, salt, i, c) == Hmac(pw, U(pw, salt, i, c - 1))
    ensures F(pw, salt, c, i) == XorSeq(F(pw, salt, c - 1, i), U(pw, salt, i, c))
  {
  }

  // Every iterate is in the block: taking the last one out again leaves the block of one iteration less.
  lemma LastOut(pw: seq<Byte>, salt: seq<Byte>, c: nat, i: Word32)
    requires Hashable(|pw|) && Hashable(64 + |salt| + 4) && c >= 2
    ensures XorSeq(F(pw, salt, c, i), U(pw, salt, i, c)) == F(pw, salt, c - 1, i)
  {
    hide F, U, XorByte;
    NextF(pw, salt, c, i);
    var f, u := F(pw, salt, c - 1, i), U(pw, salt, i, c);
    forall k | 0 <= k < 32
      ensures XorSeq(XorSeq(f, u), u)[k] == f[k]
    {
      XorTwice(f[k], u[k]);
    }
  }

  method CopyAll(t: array<Byte>, u: array<Byte>)
    requires t.Length == u.Length == 32 && t != u
    modifies t
    ensures t[..] == u[..]
  {
    var j := 0;
    while j < 32
      invariant j <= 32 && t[..j] == u[..j]
    {
      t[j] := u[j];
      j := j + 1;
    }
  }

  // pbkdf2_hmac_sha256: PBKDF2 of the password and the salt cut to 128 bytes, of any length RFC 8018 allows. (With
  // iters == 2^32 - 1 its 32-bit counter would wrap and never pass the bound.)
  method DeriveKey(pw: array<Byte>, pwlen: nat, salt: array<Byte>, saltlen: nat, iters: nat, out: array<Byte>,
          outlen: nat)
    requires pwlen <= pw.Length && saltlen <= salt.Length && Hashable(pwlen) && iters < M32 - 1
    requires outlen <= out.Length && outlen <= 32 * (M32 - 1) && out != pw && out != salt
    modifies out
    ensures out[..outlen] == Derived(pw[..pwlen], Used(salt[..saltlen]), Rounds(iters), outlen)
    ensures out[outlen..] == old(out[outlen..])
  {
    hide F, U, Blocks;
    var u, t := new Byte[32](_ => 0), new Byte[32](_ => 0);
    ghost var p, s, c := pw[..pwlen], Used(salt[..saltlen]), Rounds(iters);
    var pos, blockI := 0, 1;
    ghost var b := 0;
    while pos < outlen
      invariant b < M32 && blockI == (b + 1) % M32 && pos == (if 32 * b < outlen then 32 * b else outlen)
      invariant out[..pos] == Blocks(p, s, c, b)[..pos] && out[outlen..] == old(out[outlen..])
      invariant b == 0 || 32 * (b - 1) < outlen
      invariant pw[..pwlen] == p && salt[..saltlen] == old(salt[..saltlen])
      invariant fresh(u) && fresh(t) && u != t && u.Length == t.Length == 32
      decreases outlen - pos
    {
      BlockOf(pw, pwlen, salt, saltlen, iters, blockI, u, t);
      NextBlock(p, s, c, b + 1);
      BlocksPrefix(Blocks(p, s, c, b), t[..], pos, if pos + 32 < outlen then 32 else outlen - pos);
      pos := CopyOut(t, out, pos, outlen);
      b := b + 1;
      blockI := (blockI + 1) % M32;
    }
    assert (outlen + 31) / 32 == b;
  }

  lemma NextBlock(pw: seq<Byte>, salt: seq<Byte>, c: nat, l: nat)
    requires Hashable(|pw|) && Hashable(64 + |salt| + 4) && c >= 1 && 0 < l < M32
    ensures Blocks(pw, salt, c, l) == Blocks(pw, salt, c, l - 1) + F(pw, salt, c, l)
  {
  }

  lemma BlocksPrefix(a: seq<Byte>, b: seq<Byte>, pos: nat, n: nat)
    requires pos == |a| && n <= |b|
    ensures a[..pos] + b[..n] == (a + b)[..pos + n]
  {
  }

  // As much of t as out takes, from pos.
  method CopyOut(t: array<Byte>, out: array<Byte>, pos: nat, outlen: nat) returns (next: nat)
    requires t.Length == 32 && t != out && pos <= outlen <= out.Length
    modifies out
    ensures next == (if pos + 32 < outlen then pos + 32 else outlen)
    ensures out[..next] == old(out[..pos]) + t[..next - pos] && out[outlen..] == old(out[outlen..])
  {
    var j := 0;
    next := pos;
    while j < 32 && next < outlen
      invariant j <= 32 && next == pos + j <= outlen && out[..next] == old(out[..pos]) + t[..j]
      invariant out[outlen..] == old(out[outlen..])
    {
      out[next] := t[j];
      assert out[..next + 1] == out[..next] + [t[j]];
      j, next := j + 1, next + 1;
    }
  }
}
