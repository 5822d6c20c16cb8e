// Published answers, computed by the specification functions: what pins the rotations, the choice and majority
// functions, the byte order, the padding and the two pads. Each block's computation is written down as a trace that
// is checked word by word.
module HashTraces {
  import opened PhysMemory
  import opened Sha256Spec
  import opened Sha256Stream

  datatype Quad = Quad(a: bv32, b: bv32, c: bv32, d: bv32)
  datatype Eight = Eight(a: bv32, b: bv32, c: bv32, d: bv32, e: bv32, f: bv32, g: bv32, h: bv32)

  function Words(v: Eight): (s: seq<bv32>)
    ensures |s| == 8
  {
    [v.a, v.b, v.c, v.d, v.e, v.f, v.g, v.h]
  }

  // The message schedule, four words at a time, and the working variables after every fourth round: these hold the new
  // a and e of each of the four.
  datatype Trace = Trace(
    w0: Quad, w1: Quad, w2: Quad, w3: Quad, w4: Quad, w5: Quad, w6: Quad, w7: Quad,
    w8: Quad, w9: Quad, w10: Quad, w11: Quad, w12: Quad, w13: Quad, w14: Quad, w15: Quad,
    v0: Eight, v1: Eight, v2: Eight, v3: Eight, v4: Eight, v5: Eight, v6: Eight, v7: Eight, v8: Eight,
    v9: Eight, v10: Eight, v11: Eight, v12: Eight, v13: Eight, v14: Eight, v15: Eight, v16: Eight)

  // The round constants.
  const K_0 := Quad(0x428a2f98, 0x71374491, 0xb5c0fbcf, 0xe9b5dba5)
  const K_4 := Quad(0x3956c25b, 0x59f111f1, 0x923f82a4, 0xab1c5ed5)
  const K_8 := Quad(0xd807aa98, 0x12835b01, 0x243185be, 0x550c7dc3)
  const K_12 := Quad(0x72be5d74, 0x80deb1fe, 0x9bdc06a7, 0xc19bf174)
  const K_16 := Quad(0xe49b69c1, 0xefbe4786, 0x0fc19dc6, 0x240ca1cc)
  const K_20 := Quad(0x2de92c6f, 0x4a7484aa, 0x5cb0a9dc, 0x76f988da)
  const K_24 := Quad(0x983e5152, 0xa831c66d, 0xb00327c8, 0xbf597fc7)
  const K_28 := Quad(0xc6e00bf3, 0xd5a79147, 0x06ca6351, 0x14292967)
  const K_32 := Quad(0x27b70a85, 0x2e1b2138, 0x4d2c6dfc, 0x53380d13)
  const K_36 := Quad(0x650a7354, 0x766a0abb, 0x81c2c92e, 0x92722c85)
  const K_40 := Quad(0xa2bfe8a1, 0xa81a664b, 0xc24b8b70, 0xc76c51a3)
  const K_44 := Quad(0xd192e819, 0xd6990624, 0xf40e3585, 0x106aa070)
  const K_48 := Quad(0x19a4c116, 0x1e376c08, 0x2748774c, 0x34b0bcb5)
  const K_52 := Quad(0x391c0cb3, 0x4ed8aa4a, 0x5b9cca4f, 0x682e6ff3)
  const K_56 := Quad(0x748f82ee, 0x78a5636f, 0x84c87814, 0x8cc70208)
  const K_60 := Quad(0x90befffa, 0xa4506ceb, 0xbef9a3f7, 0xc67178f2)

  // y is the next word of the schedule.
  predicate WordOk(w2: bv32, w7: bv32, w15: bv32, w16: bv32, y: bv32)
  {
    y == (w2.RotateRight(17) ^ w2.RotateRight(19) ^ (w2 >> 10)) + w7
         + (w15.RotateRight(7) ^ w15.RotateRight(18) ^ (w15 >> 3)) + w16
  }

  // y follows the sixteen words x0..x3.
  predicate WordsOk(x0: Quad, x1: Quad, x2: Quad, x3: Quad, y: Quad)
  {
    WordOk(x3.c, x2.b, x0.b, x0.a, y.a) && WordOk(x3.d, x2.c, x0.c, x0.b, y.b)
    && WordOk(y.a, x2.d, x0.d, x0.c, y.c) && WordOk(y.b, x3.a, x1.a, x0.d, y.d)
  }

  // One round makes a1 and e1.
  predicate RoundOk(a: bv32, b: bv32, c: bv32, d: bv32, e: bv32, f: bv32, g: bv32, h: bv32, k: bv32, w: bv32, a1: bv32,
          e1: bv32)
  {
    e1 - d == h + (e.RotateRight(6) ^ e.RotateRight(11) ^ e.RotateRight(25)) + ((e & f) ^ (!e & g)) + k + w
    && a1 - (e1 - d) == (a.RotateRight(2) ^ a.RotateRight(13) ^ a.RotateRight(22)) + ((a & b) ^ (a & c) ^ (b & c))
  }

  predicate FourOk(v: Eight, k: Quad, w: Quad, r: Eight)
  {
    RoundOk(v.a, v.b, v.c, v.d, v.e, v.f, v.g, v.h, k.a, w.a, r.d, r.h)
    && RoundOk(r.d, v.a, v.b, v.c, r.h, v.e, v.f, v.g, k.b, w.b, r.c, r.g)
    && RoundOk(r.c, r.d, v.a, v.b, r.g, r.h, v.e, v.f, k.c, w.c, r.b, r.f)
    && RoundOk(r.b, r.c, r.d, v.a, r.f, r.g, r.h, v.e, k.d, w.d, r.a, r.e)
  }

  predicate Expands(t: Trace)
  {
    WordsOk(t.w0, t.w1, t.w2, t.w3, t.w4) && WordsOk(t.w1, t.w2, t.w3, t.w4, t.w5)
    && WordsOk(t.w2, t.w3, t.w4, t.w5, t.w6) && WordsOk(t.w3, t.w4, t.w5, t.w6, t.w7)
    && WordsOk(t.w4, t.w5, t.w6, t.w7, t.w8) && WordsOk(t.w5, t.w6, t.w7, t.w8, t.w9)
    && WordsOk(t.w6, t.w7, t.w8, t.w9, t.w10) && WordsOk(t.w7, t.w8, t.w9, t.w10, t.w11)
    && WordsOk(t.w8, t.w9, t.w10, t.w11, t.w12) && WordsOk(t.w9, t.w10, t.w11, t.w12, t.w13)
    && WordsOk(t.w10, t.w11, t.w12, t.w13, t.w14) && WordsOk(t.w11, t.w12, t.w13, t.w14, t.w15)
  }

  predicate Rounds0(t: Trace)
  {
    FourOk(t.v0, K_0, t.w0, t.v1) && FourOk(t.v1, K_4, t.w1, t.v2)
    && FourOk(t.v2, K_8, t.w2, t.v3) && FourOk(t.v3, K_12, t.w3, t.v4)
  }

  predicate Rounds16(t: Trace)
  {
    FourOk(t.v4, K_16, t.w4, t.v5) && FourOk(t.v5, K_20, t.w5, t.v6)
    && FourOk(t.v6, K_24, t.w6, t.v7) && FourOk(t.v7, K_28, t.w7, t.v8)
  }

  predicate Rounds32(t: Trace)
  {
    FourOk(t.v8, K_32, t.w8, t.v9) && FourOk(t.v9, K_36, t.w9, t.v10)
    && FourOk(t.v10, K_40, t.w10, t.v11) && FourOk(t.v11, K_44, t.w11, t.v12)
  }

  predicate Rounds48(t: Trace)
  {
    FourOk(t.v12, K_48, t.w12, t.v13) && FourOk(t.v13, K_52, t.w13, t.v14)
    && FourOk(t.v14, K_56, t.w14, t.v15) && FourOk(t.v15, K_60, t.w15, t.v16)
  }

  predicate Checked(t: Trace)
  {
    Expands(t) && Rounds0(t) && Rounds16(t) && Rounds32(t) && Rounds48(t)
  }

  // ---------------------------------------------------------------- a checked trace is the computation

  ghost predicate ConstantsAt(t: nat, k: Quad)
    requires t + 4 <= 64
  {
    K()[t] == k.a && K()[t + 1] == k.b && K()[t + 2] == k.c && K()[t + 3] == k.d
  }

  ghost predicate ScheduleAt(block: seq<Byte>, t: nat, w: Quad)
    requires |block| == 64 && t + 4 <= 64
  {
    Schedule(block, t) == w.a && Schedule(block, t + 1) == w.b && Schedule(block, t + 2) == w.c
    && Schedule(block, t + 3) == w.d
  }

  // The first sixteen words are the block's.
  ghost predicate Starts(block: seq<Byte>, t: Trace)
    requires |block| == 64
  {
    ScheduleAt(block, 0, t.w0) && ScheduleAt(block, 4, t.w1) && ScheduleAt(block, 8, t.w2)
    && ScheduleAt(block, 12, t.w3)
  }

  lemma Constants0()
    ensures ConstantsAt(0, K_0) && ConstantsAt(4, K_4)
  {
    hide K16, K32, K48;
  }

  lemma Constants8()
    ensures ConstantsAt(8, K_8) && ConstantsAt(12, K_12)
  {
    hide K16, K32, K48;
  }

  lemma Constants16()
    ensures ConstantsAt(16, K_16) && ConstantsAt(20, K_20) && ConstantsAt(24, K_24) && ConstantsAt(28, K_28)
  {
    hide K0, K32, K48;
  }

  lemma Constants32()
    ensures ConstantsAt(32, K_32) && ConstantsAt(36, K_36) && ConstantsAt(40, K_40) && ConstantsAt(44, K_44)
  {
    hide K0, K16, K48;
  }

  lemma Constants48()
    ensures ConstantsAt(48, K_48) && ConstantsAt(52, K_52) && ConstantsAt(56, K_56) && ConstantsAt(60, K_60)
  {
    hide K0, K16, K32;
  }

  lemma NextFour(block: seq<Byte>, t: nat, x0: Quad, x1: Quad, x2: Quad, x3: Quad, y: Quad)
    requires |block| == 64 && 16 <= t <= 60 && WordsOk(x0, x1, x2, x3, y)
    requires ScheduleAt(block, t - 16, x0) && ScheduleAt(block, t - 12, x1) && ScheduleAt(block, t - 8, x2)
    requires ScheduleAt(block, t - 4, x3)
    ensures ScheduleAt(block, t, y)
  {
    hide Schedule, NextWord, WordOk;
    ScheduleMore(block, t);
    ScheduleMore(block, t + 1);
    ScheduleMore(block, t + 2);
    ScheduleMore(block, t + 3);
    WordIs(x3.c, x2.b, x0.b, x0.a, y.a);
    WordIs(x3.d, x2.c, x0.c, x0.b, y.b);
    WordIs(y.a, x2.d, x0.d, x0.c, y.c);
    WordIs(y.b, x3.a, x1.a, x0.d, y.d);
  }

  lemma WordIs(w2: bv32, w7: bv32, w15: bv32, w16: bv32, y: bv32)
    requires WordOk(w2, w7, w15, w16, y)
    ensures y == NextWord(w2, w7, w15, w16)
  {
  }

  lemma Expansion(block: seq<Byte>, t: Trace)
    requires |block| == 64 && Starts(block, t) && Expands(t)
    ensures ScheduleAt(block, 0, t.w0) && ScheduleAt(block, 4, t.w1)
    ensures ScheduleAt(block, 8, t.w2) && ScheduleAt(block, 12, t.w3)
    ensures ScheduleAt(block, 16, t.w4) && ScheduleAt(block, 20, t.w5)
    ensures ScheduleAt(block, 24, t.w6) && ScheduleAt(block, 28, t.w7)
    ensures ScheduleAt(block, 32, t.w8) && ScheduleAt(block, 36, t.w9)
    ensures ScheduleAt(block, 40, t.w10) && ScheduleAt(block, 44, t.w11)
    ensures ScheduleAt(block, 48, t.w12) && ScheduleAt(block, 52, t.w13)
    ensures ScheduleAt(block, 56, t.w14) && ScheduleAt(block, 60, t.w15)
  {
    hide ScheduleAt, WordsOk;
    NextFour(block, 16, t.w0, t.w1, t.w2, t.w3, t.w4);
    NextFour(block, 20, t.w1, t.w2, t.w3, t.w4, t.w5);
    NextFour(block, 24, t.w2, t.w3, t.w4, t.w5, t.w6);
    NextFour(block, 28, t.w3, t.w4, t.w5, t.w6, t.w7);
    NextFour(block, 32, t.w4, t.w5, t.w6, t.w7, t.w8);
    NextFour(block, 36, t.w5, t.w6, t.w7, t.w8, t.w9);
    NextFour(block, 40, t.w6, t.w7, t.w8, t.w9, t.w10);
    NextFour(block, 44, t.w7, t.w8, t.w9, t.w10, t.w11);
    NextFour(block, 48, t.w8, t.w9, t.w10, t.w11, t.w12);
    NextFour(block, 52, t.w9, t.w10, t.w11, t.w12, t.w13);
    NextFour(block, 56, t.w10, t.w11, t.w12, t.w13, t.w14);
    NextFour(block, 60, t.w11, t.w12, t.w13, t.w14, t.w15);
  }

  // The temporaries, from what a round makes of them.
  function FirstTemp(d: bv32, e1: bv32): bv32 { e1 - d }
  function SecondTemp(d: bv32, e1: bv32, a1: bv32): bv32 { a1 - (e1 - d) }

  lemma OneRound(a: bv32, b: bv32, c: bv32, d: bv32, e: bv32, f: bv32, g: bv32, h: bv32, k: bv32, w: bv32, a1: bv32,
          e1: bv32)
    requires RoundOk(a, b, c, d, e, f, g, h, k, w, a1, e1)
    ensures Round([a, b, c, d, e, f, g, h], k, w) == [a1, a, b, c, e1, e, f, g]
  {
    var t1, t2 := Temps(a, b, c, d, e, f, g, h, k, w, a1, e1);
    hide RoundOk, Add, Temp1, Temp2;
  }

  lemma Temps(a: bv32, b: bv32, c: bv32, d: bv32, e: bv32, f: bv32, g: bv32, h: bv32, k: bv32, w: bv32, a1: bv32,
          e1: bv32)
    returns (t1: bv32, t2: bv32)
    requires RoundOk(a, b, c, d, e, f, g, h, k, w, a1, e1)
    ensures t1 == Temp1(e, f, g, h, k, w) && t2 == Temp2(a, b, c) && Add(t1, t2) == a1 && Add(d, t1) == e1
  {
    TempsAre(a, b, c, d, e, f, g, h, k, w, a1, e1);
    AddBack(d, e1, a1);
    hide RoundOk, Add, FirstTemp, SecondTemp, Temp1, Temp2;
    t1, t2 := Temp1(e, f, g, h, k, w), Temp2(a, b, c);
  }

  lemma TempsAre(a: bv32, b: bv32, c: bv32, d: bv32, e: bv32, f: bv32, g: bv32, h: bv32, k: bv32, w: bv32, a1: bv32,
          e1: bv32)
    requires RoundOk(a, b, c, d, e, f, g, h, k, w, a1, e1)
    ensures Temp1(e, f, g, h, k, w) == FirstTemp(d, e1) && Temp2(a, b, c) == SecondTemp(d, e1, a1)
  {
  }

  lemma AddBack(d: bv32, e1: bv32, a1: bv32)
    ensures Add(d, FirstTemp(d, e1)) == e1 && Add(FirstTemp(d, e1), SecondTemp(d, e1, a1)) == a1
  {
    assert Add(d, e1 - d) == e1;
    assert Add(e1 - d, a1 - (e1 - d)) == a1;
  }

  lemma FourRounds(h0: seq<bv32>, block: seq<Byte>, t: nat, v: Eight, k: Quad, w: Quad, r: Eight)
    requires |h0| == 8 && |block| == 64 && t + 4 <= 64 && Rounds(h0, block, t) == Words(v)
    requires ConstantsAt(t, k) && ScheduleAt(block, t, w) && FourOk(v, k, w, r)
    ensures Rounds(h0, block, t + 4) == Words(r)
  {
    hide K, Schedule, Round, RoundOk;
    OneRound(v.a, v.b, v.c, v.d, v.e, v.f, v.g, v.h, k.a, w.a, r.d, r.h);
    OneRound(r.d, v.a, v.b, v.c, r.h, v.e, v.f, v.g, k.b, w.b, r.c, r.g);
    OneRound(r.c, r.d, v.a, v.b, r.g, r.h, v.e, v.f, k.c, w.c, r.b, r.f);
    OneRound(r.b, r.c, r.d, v.a, r.f, r.g, r.h, v.e, k.d, w.d, r.a, r.e);
    assert Rounds(h0, block, t + 1) == [r.d, v.a, v.b, v.c, r.h, v.e, v.f, v.g];
    assert Rounds(h0, block, t + 2) == [r.c, r.d, v.a, v.b, r.g, r.h, v.e, v.f];
    assert Rounds(h0, block, t + 3) == [r.b, r.c, r.d, v.a, r.f, r.g, r.h, v.e];
  }

  lemma Sixteen0(h0: seq<bv32>, block: seq<Byte>, t: Trace)
    requires |h0| == 8 && |block| == 64 && Rounds0(t) && Rounds(h0, block, 0) == Words(t.v0)
    requires ScheduleAt(block, 0, t.w0) && ScheduleAt(block, 4, t.w1)
    requires ScheduleAt(block, 8, t.w2) && ScheduleAt(block, 12, t.w3)
    ensures Rounds(h0, block, 16) == Words(t.v4)
  {
    hide Words, Rounds, ScheduleAt, ConstantsAt, FourOk;
    Constants0();
    Constants8();
    FourRounds(h0, block, 0, t.v0, K_0, t.w0, t.v1);
    FourRounds(h0, block, 4, t.v1, K_4, t.w1, t.v2);
    FourRounds(h0, block, 8, t.v2, K_8, t.w2, t.v3);
    FourRounds(h0, block, 12, t.v3, K_12, t.w3, t.v4);
  }

  lemma Sixteen16(h0: seq<bv32>, block: seq<Byte>, t: Trace)
    requires |h0| == 8 && |block| == 64 && Rounds16(t) && Rounds(h0, block, 16) == Words(t.v4)
    requires ScheduleAt(block, 16, t.w4) && ScheduleAt(block, 20, t.w5)
    requires ScheduleAt(block, 24, t.w6) && ScheduleAt(block, 28, t.w7)
    ensures Rounds(h0, block, 32) == Words(t.v8)
  {
    hide Words, Rounds, ScheduleAt, ConstantsAt, FourOk;
    Constants16();
    FourRounds(h0, block, 16, t.v4, K_16, t.w4, t.v5);
    FourRounds(h0, block, 20, t.v5, K_20, t.w5, t.v6);
    FourRounds(h0, block, 24, t.v6, K_24, t.w6, t.v7);
    FourRounds(h0, block, 28, t.v7, K_28, t.w7, t.v8);
  }

  lemma Sixteen32(h0: seq<bv32>, block: seq<Byte>, t: Trace)
    requires |h0| == 8 && |block| == 64 && Rounds32(t) && Rounds(h0, block, 32) == Words(t.v8)
    requires ScheduleAt(block, 32, t.w8) && ScheduleAt(block, 36, t.w9)
    requires ScheduleAt(block, 40, t.w10) && ScheduleAt(block, 44, t.w11)
    ensures Rounds(h0, block, 48) == Words(t.v12)
  {
    hide Words, Rounds, ScheduleAt, ConstantsAt, FourOk;
    Constants32();
    FourRounds(h0, block, 32, t.v8, K_32, t.w8, t.v9);
    FourRounds(h0, block, 36, t.v9, K_36, t.w9, t.v10);
    FourRounds(h0, block, 40, t.v10, K_40, t.w10, t.v11);
    FourRounds(h0, block, 44, t.v11, K_44, t.w11, t.v12);
  }

  lemma Sixteen48(h0: seq<bv32>, block: seq<Byte>, t: Trace)
    requires |h0| == 8 && |block| == 64 && Rounds48(t) && Rounds(h0, block, 48) == Words(t.v12)
    requires ScheduleAt(block, 48, t.w12) && ScheduleAt(block, 52, t.w13)
    requires ScheduleAt(block, 56, t.w14) && ScheduleAt(block, 60, t.w15)
    ensures Rounds(h0, block, 64) == Words(t.v16)
  {
    hide Words, Rounds, ScheduleAt, ConstantsAt, FourOk;
    Constants48();
    FourRounds(h0, block, 48, t.v12, K_48, t.w12, t.v13);
    FourRounds(h0, block, 52, t.v13, K_52, t.w13, t.v14);
    FourRounds(h0, block, 56, t.v14, K_56, t.w14, t.v15);
    FourRounds(h0, block, 60, t.v15, K_60, t.w15, t.v16);
  }

  // The hash value after the block.
  function After(t: Trace): Eight
  {
    Eight(Add(t.v0.a, t.v16.a), Add(t.v0.b, t.v16.b), Add(t.v0.c, t.v16.c), Add(t.v0.d, t.v16.d),
          Add(t.v0.e, t.v16.e), Add(t.v0.f, t.v16.f), Add(t.v0.g, t.v16.g), Add(t.v0.h, t.v16.h))
  }

  // A trace that passes the checks is what the compression function does.
  lemma Traced(block: seq<Byte>, t: Trace)
    requires |block| == 64 && Starts(block, t) && Checked(t)
    ensures Compress(Words(t.v0), block) == Words(After(t))
  {
    AllRounds(block, t);
    CompressIs(Words(t.v0), block, Words(t.v16));
    hide Compress, Rounds, Add, Starts, Checked;
  }

  lemma AllRounds(block: seq<Byte>, t: Trace)
    requires |block| == 64 && Starts(block, t) && Checked(t)
    ensures Rounds(Words(t.v0), block, 64) == Words(t.v16)
  {
    NoRound(Words(t.v0), block);
    hide Words, Rounds, ScheduleAt, Starts, Expands, Rounds0, Rounds16, Rounds32, Rounds48;
    Expansion(block, t);
    Sixteen0(Words(t.v0), block, t);
    Sixteen16(Words(t.v0), block, t);
    Sixteen32(Words(t.v0), block, t);
    Sixteen48(Words(t.v0), block, t);
  }

  lemma NoRound(h0: seq<bv32>, block: seq<Byte>)
    requires |h0| == 8 && |block| == 64
    ensures Rounds(h0, block, 0) == h0
  {
  }
}
