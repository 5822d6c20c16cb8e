// Where the constants of SHA-256 come from (sections 4.2.2 and 5.3.3 of FIPS 180-4): the first 32 bits of the
// fractional parts of the cube roots of the first 64 primes, and of the square roots of the first eight.
module Sha256Constants {
  import opened Sha256Spec

  const TWO_64: nat := 0x1_0000_0000_0000_0000
  const TWO_96: nat := 0x1_0000_0000_0000_0000_0000_0000

  ghost predicate IsPrime(p: nat)
  {
    p >= 2 && forall d | 2 <= d < p :: p % d != 0
  }

  // The primes up to n, in order.
  ghost function PrimesUpTo(n: nat): seq<nat>
  {
    if n < 2 then [] else if IsPrime(n) then PrimesUpTo(n - 1) + [n] else PrimesUpTo(n - 1)
  }

  // The cube root of p is n and a fraction that starts with the bits w.
  predicate CubeRoot(n: nat, w: bv32, p: nat)
  {
    var x := n * M32 + w as nat;
    x * x * x <= p * TWO_96 < (x + 1) * (x + 1) * (x + 1)
  }

  predicate SquareRoot(n: nat, w: bv32, p: nat)
  {
    var x := n * M32 + w as nat;
    x * x <= p * TWO_64 < (x + 1) * (x + 1)
  }

  ghost predicate CubeRootBits(w: bv32, p: nat) { exists n: nat :: CubeRoot(n, w, p) }
  ghost predicate SquareRootBits(w: bv32, p: nat) { exists n: nat :: SquareRoot(n, w, p) }

  // The primes up to p are i many, and the first i constants belong to them.
  ghost predicate Founded(i: nat, p: nat)
    requires i <= 64
  {
    var ps := PrimesUpTo(p);
    |ps| == i && (forall j | 0 <= j < i :: CubeRootBits(K()[j], ps[j]))
    && forall j | 0 <= j < i && j < 8 :: SquareRootBits(H0()[j], ps[j])
  }

  predicate Over(m: nat, f: nat)
    requires f > 0
  {
    m > f && m % f == 0
  }

  // Divisible by a prime below 19, and larger.
  predicate Sieved(m: nat)
  {
    Over(m, 2) || Over(m, 3) || Over(m, 5) || Over(m, 7) || Over(m, 11) || Over(m, 13) || Over(m, 17)
  }

  // Below 19 * 19 that decides.
  lemma SieveDecides(m: nat)
    requires 2 <= m < 361
    ensures IsPrime(m) <==> !Sieved(m)
  {
    forall f: nat | 2 <= f && Over(m, f)
      ensures !IsPrime(m)
    {
    }
    hide Sieved, Over, IsPrime;
    if Sieved(m) { SievedBy(m); }
    if !IsPrime(m) {
      var d := Divisor(m);
      SomeSmallFactor(m, d, m / d);
    }
  }

  lemma SievedBy(m: nat)
    requires Sieved(m)
    ensures exists f: nat :: 2 <= f && Over(m, f)
  {
    hide Over;
  }

  lemma Divisor(m: nat) returns (d: nat)
    requires m >= 2 && !IsPrime(m)
    ensures 2 <= d < m && m == d * (m / d)
  {
    d :| 2 <= d < m && m % d == 0;
  }

  lemma SomeSmallFactor(m: nat, d: nat, e: nat)
    requires m == d * e && 2 <= d < m < 361
    ensures Sieved(m)
  {
    hide Sieved;
    if d <= 18 {
      SmallFactor(m, d, e);
    } else {
      if e >= 19 { AtLeast(d, e); }
      SmallFactor(m, e, d);
    }
  }

  lemma AtLeast(d: nat, e: nat)
    requires d >= 19 && e >= 19
    ensures d * e >= 361
  {
    assert d * e == (d - 19) * e + 19 * e;
  }

  lemma SmallFactor(m: nat, d: nat, e: nat)
    requires m == d * e && 2 <= d <= 18 && e >= 2
    ensures Sieved(m)
  {
    hide Over;
    Multiples(m, e);
    if d % 2 == 0 {
      Factored(2, d / 2, e);
      Multiples(m, d / 2 * e);
    } else if d % 3 == 0 {
      Factored(3, d / 3, e);
      Multiples(m, d / 3 * e);
    }
  }

  lemma Factored(f: nat, g: nat, e: nat)
    requires g > 0 && e >= 2
    ensures f * g * e == f * (g * e) && g * e >= 2
  {
    assert g * e == (g - 1) * e + e;
  }

  lemma Multiples(m: nat, x: nat)
    requires x >= 2
    ensures (m == 2 * x ==> Over(m, 2)) && (m == 3 * x ==> Over(m, 3)) && (m == 5 * x ==> Over(m, 5))
    ensures (m == 7 * x ==> Over(m, 7)) && (m == 11 * x ==> Over(m, 11)) && (m == 13 * x ==> Over(m, 13))
    ensures m == 17 * x ==> Over(m, 17)
  {
  }

  // So are the numbers between p and q: the even ones, and the odd ones one by one.
  predicate Between(p: nat, q: nat)
  {
    p < q <= p + 14 && (p <= 2 ==> q == p + 1) && (p > 2 ==> p % 2 == 1)
    && (p + 2 < q ==> Sieved(p + 2)) && (p + 4 < q ==> Sieved(p + 4)) && (p + 6 < q ==> Sieved(p + 6))
    && (p + 8 < q ==> Sieved(p + 8)) && (p + 10 < q ==> Sieved(p + 10)) && (p + 12 < q ==> Sieved(p + 12))
  }

  lemma BetweenSieved(p: nat, q: nat, m: nat)
    requires Between(p, q) && p < m < q
    ensures Sieved(m)
  {
    hide Over, Sieved;
    if (m - p) % 2 == 1 {
      EvenSieved(m);
    } else {
      assert m in {p + 2, p + 4, p + 6, p + 8, p + 10, p + 12};
    }
  }

  lemma EvenSieved(m: nat)
    requires m > 2 && m % 2 == 0
    ensures Sieved(m)
  {
  }

  // No prime lies strictly between p and q.
  lemma {:induction false} NothingBetween(p: nat, q: nat)
    requires 1 <= p < q && forall m | p < m < q :: !IsPrime(m)
    ensures PrimesUpTo(q - 1) == PrimesUpTo(p)
    decreases q
  {
    hide IsPrime;
    if q > p + 1 { NothingBetween(p, q - 1); }
  }

  lemma NoneYet()
    ensures Founded(0, 1)
  {
  }

  // q is the next prime after p, and the next constants are those of q.
  lemma Next(i: nat, p: nat, q: nat, k: bv32, n: nat, r: nat)
    requires i < 64 && Founded(i, p) && K()[i] == k && CubeRoot(n, k, q) && (i < 8 ==> SquareRoot(r, H0()[i], q))
    requires 1 <= p < q < 361 && Between(p, q) && !Sieved(q)
    ensures Founded(i + 1, q)
  {
    hide K, H0, CubeRoot, SquareRoot, Sieved, Between, IsPrime;
    SieveDecides(q);
    forall m | p < m < q
      ensures !IsPrime(m)
    {
      BetweenSieved(p, q, m);
      SieveDecides(m);
    }
    NothingBetween(p, q);
  }

  lemma Constants0()
    requires Founded(0, 1)
    ensures Founded(2, 3)
  {
    hide Founded, IsPrime, K16, K32, K48;
    Next(0, 1, 2, 0x428a2f98, 1, 1);
    Next(1, 2, 3, 0x71374491, 1, 1);
  }

  lemma Constants2()
    requires Founded(2, 3)
    ensures Founded(4, 7)
  {
    hide Founded, IsPrime, K16, K32, K48;
    Next(2, 3, 5, 0xb5c0fbcf, 1, 2);
    Next(3, 5, 7, 0xe9b5dba5, 1, 2);
  }

  lemma Constants4()
    requires Founded(4, 7)
    ensures Founded(8, 19)
  {
    hide Founded, IsPrime, K16, K32, K48;
    Next(4, 7, 11, 0x3956c25b, 2, 3);
    Next(5, 11, 13, 0x59f111f1, 2, 3);
    Next(6, 13, 17, 0x923f82a4, 2, 4);
    Next(7, 17, 19, 0xab1c5ed5, 2, 4);
  }

  lemma Constants8()
    requires Founded(8, 19)
    ensures Founded(16, 53)
  {
    hide Founded, IsPrime, K16, K32, K48;
    Next(8, 19, 23, 0xd807aa98, 2, 0);
    Next(9, 23, 29, 0x12835b01, 3, 0);
    Next(10, 29, 31, 0x243185be, 3, 0);
    Next(11, 31, 37, 0x550c7dc3, 3, 0);
    Next(12, 37, 41, 0x72be5d74, 3, 0);
    Next(13, 41, 43, 0x80deb1fe, 3, 0);
    Next(14, 43, 47, 0x9bdc06a7, 3, 0);
    Next(15, 47, 53, 0xc19bf174, 3, 0);
  }

  lemma Constants16()
    requires Founded(16, 53)
    ensures Founded(24, 89)
  {
    hide Founded, IsPrime, K0, K32, K48;
    Next(16, 53, 59, 0xe49b69c1, 3, 0);
    Next(17, 59, 61, 0xefbe4786, 3, 0);
    Next(18, 61, 67, 0x0fc19dc6, 4, 0);
    Next(19, 67, 71, 0x240ca1cc, 4, 0);
    Next(20, 71, 73, 0x2de92c6f, 4, 0);
    Next(21, 73, 79, 0x4a7484aa, 4, 0);
    Next(22, 79, 83, 0x5cb0a9dc, 4, 0);
    Next(23, 83, 89, 0x76f988da, 4, 0);
  }

  lemma Constants24()
    requires Founded(24, 89)
    ensures Founded(32, 131)
  {
    hide Founded, IsPrime, K0, K32, K48;
    Next(24, 89, 97, 0x983e5152, 4, 0);
    Next(25, 97, 101, 0xa831c66d, 4, 0);
    Next(26, 101, 103, 0xb00327c8, 4, 0);
    Next(27, 103, 107, 0xbf597fc7, 4, 0);
    Next(28, 107, 109, 0xc6e00bf3, 4, 0);
    Next(29, 109, 113, 0xd5a79147, 4, 0);
    Next(30, 113, 127, 0x06ca6351, 5, 0);
    Next(31, 127, 131, 0x14292967, 5, 0);
  }

  lemma Constants32()
    requires Founded(32, 131)
    ensures Founded(40, 173)
  {
    hide Founded, IsPrime, K0, K16, K48;
    Next(32, 131, 137, 0x27b70a85, 5, 0);
    Next(33, 137, 139, 0x2e1b2138, 5, 0);
    Next(34, 139, 149, 0x4d2c6dfc, 5, 0);
    Next(35, 149, 151, 0x53380d13, 5, 0);
    Next(36, 151, 157, 0x650a7354, 5, 0);
    Next(37, 157, 163, 0x766a0abb, 5, 0);
    Next(38, 163, 167, 0x81c2c92e, 5, 0);
    Next(39, 167, 173, 0x92722c85, 5, 0);
  }

  lemma Constants40()
    requires Founded(40, 173)
    ensures Founded(48, 223)
  {
    hide Founded, IsPrime, K0, K16, K48;
    Next(40, 173, 179, 0xa2bfe8a1, 5, 0);
    Next(41, 179, 181, 0xa81a664b, 5, 0);
    Next(42, 181, 191, 0xc24b8b70, 5, 0);
    Next(43, 191, 193, 0xc76c51a3, 5, 0);
    Next(44, 193, 197, 0xd192e819, 5, 0);
    Next(45, 197, 199, 0xd6990624, 5, 0);
    Next(46, 199, 211, 0xf40e3585, 5, 0);
    Next(47, 211, 223, 0x106aa070, 6, 0);
  }

  lemma Constants48()
    requires Founded(48, 223)
    ensures Founded(56, 263)
  {
    hide Founded, IsPrime, K0, K16, K32;
    Next(48, 223, 227, 0x19a4c116, 6, 0);
    Next(49, 227, 229, 0x1e376c08, 6, 0);
    Next(50, 229, 233, 0x2748774c, 6, 0);
    Next(51, 233, 239, 0x34b0bcb5, 6, 0);
    Next(52, 239, 241, 0x391c0cb3, 6, 0);
    Next(53, 241, 251, 0x4ed8aa4a, 6, 0);
    Next(54, 251, 257, 0x5b9cca4f, 6, 0);
    Next(55, 257, 263, 0x682e6ff3, 6, 0);
  }

  lemma Constants56()
    requires Founded(56, 263)
    ensures Founded(64, 311)
  {
    hide Founded, IsPrime, K0, K16, K32;
    Next(56, 263, 269, 0x748f82ee, 6, 0);
    Next(57, 269, 271, 0x78a5636f, 6, 0);
    Next(58, 271, 277, 0x84c87814, 6, 0);
    Next(59, 277, 281, 0x8cc70208, 6, 0);
    Next(60, 281, 283, 0x90befffa, 6, 0);
    Next(61, 283, 293, 0xa4506ceb, 6, 0);
    Next(62, 293, 307, 0xbef9a3f7, 6, 0);
    Next(63, 307, 311, 0xc67178f2, 6, 0);
  }

  // 311 is the 64th prime; each constant is what the standard says it is.
  lemma ConstantsFounded()
    ensures |PrimesUpTo(311)| == 64
    ensures forall i | 0 <= i < 64 :: CubeRootBits(K()[i], PrimesUpTo(311)[i])
    ensures forall i | 0 <= i < 8 :: SquareRootBits(H0()[i], PrimesUpTo(311)[i])
  {
    hide PrimesUpTo, CubeRootBits, SquareRootBits, K, H0;
    NoneYet();
    Constants0();
    Constants2();
    Constants4();
    Constants8();
    Constants16();
    Constants24();
    Constants32();
    Constants40();
    Constants48();
    Constants56();
  }
}
