/** Poly1305 (client/src/crypto/crypto.cpp:68-195): the five-limb, 32-bit accumulator and its
    streaming buffer, proved to compute the one-line definition of section 2.5 of RFC 8439. */
module Poly1305 {
  import opened Words

  // ---- specification: section 2.5 of RFC 8439 --------------------------------

  const P: nat := 0x3_ffff_ffff_ffff_ffff_ffff_ffff_ffff_fffb
  const CLAMP: nat := 0x0fff_fffc_0fff_fffc_0fff_fffc_0fff_ffff
  const TOP: nat := 0x1_0000_0000_0000_0000_0000_0000_0000_0000

  /** The multiplier r: the first half of the key with the clamped bits cleared. */
  function Clamp(half: bytes): nat { And(LE(half), CLAMP) }

  /** acc := (acc + block + marker) * r for each block of at most 16 bytes. */
  function Accumulate(msg: bytes, r: nat, acc: nat): nat
    decreases |msg|
  {
    if msg == [] then acc
    else
      var n := Min(16, |msg|);
      Accumulate(msg[n..], r, (acc + LE(msg[..n]) + Pow256(n)) * r % P)
  }

  /** The tag: the accumulator plus the second half of the key, modulo 2^128. */
  function Tag(key: bytes, msg: bytes): (tag: bytes)
    requires |key| == 32
    ensures |tag| == 16
  {
    LEBytes(Accumulate(msg, Clamp(key[..16]), 0) + LE(key[16..]), 16)
  }

  // ---- whole blocks ----------------------------------------------------------

  /** The recurrence over whole blocks, with an explicit marker value. */
  function Absorb(msg: bytes, marker: nat, r: nat, acc: nat): nat
    decreases |msg|
  {
    if |msg| < 16 then acc
    else Absorb(msg[16..], marker, r, (acc + LE(msg[..16]) + marker) * r % P)
  }

  lemma {:induction false} AbsorbAppend(a: bytes, b: bytes, marker: nat, r: nat, acc: nat)
    requires |a| % 16 == 0
    ensures Absorb(a + b, marker, r, acc) == Absorb(b, marker, r, Absorb(a, marker, r, acc))
    decreases |a|
  {
    if a == [] {
      assert a + b == b;
    } else {
      assert (a + b)[..16] == a[..16] && (a + b)[16..] == a[16..] + b;
      AbsorbAppend(a[16..], b, marker, r, (acc + LE(a[..16]) + marker) * r % P);
    }
  }

  /** Only the residue of the accumulator matters. */
  lemma AbsorbModulo(msg: bytes, marker: nat, r: nat, a: nat, b: nat)
    requires a % P == b % P
    ensures Absorb(msg, marker, r, a) % P == Absorb(msg, marker, r, b) % P
  {
    if |msg| >= 16 {
      var x := LE(msg[..16]) + marker;
      assert Absorb(msg, marker, r, a) == Absorb(msg[16..], marker, r, (a + x) * r % P);
      assert Absorb(msg, marker, r, b) == Absorb(msg[16..], marker, r, (b + x) * r % P);
      hide Absorb, LE;
      SameSum(a, b, x);
      MulResidue(a + x, b + x, r);
    }
  }

  lemma SameSum(a: nat, b: nat, x: nat)
    requires a % P == b % P
    ensures (a + x) % P == (b + x) % P
  {}

  /** Absorbing more whole blocks continues the recurrence. */
  lemma AbsorbMore(done: bytes, more: bytes, r: nat, before: nat, after: nat)
    requires |done| % 16 == 0
    requires before % P == Absorb(done, TOP, r, 0) % P
    requires after % P == Absorb(more, TOP, r, before) % P
    ensures after % P == Absorb(done + more, TOP, r, 0) % P
  {
    AbsorbAppend(done, more, TOP, r, 0);
    AbsorbModulo(more, TOP, r, before, Absorb(done, TOP, r, 0));
  }

  /** One block moves from the message into the accumulator. */
  lemma AbsorbBlock(m: bytes, off: nat, marker: nat, r: nat, before: nat, after: nat)
    requires off + 16 <= |m|
    requires after % P == (before + LE(m[off..off + 16]) + marker) * r % P
    ensures Absorb(m[off..], marker, r, before) % P == Absorb(m[off + 16..], marker, r, after) % P
  {
    var rest, block := m[off..], m[off..off + 16];
    assert rest[..16] == block && rest[16..] == m[off + 16..];
    var x := (before + LE(block) + marker) * r;
    ModUnique(x % P, x % P, 0, P);
    AbsorbModulo(m[off + 16..], marker, r, after, x % P);
  }

  lemma MulResidue(a: nat, b: nat, r: nat)
    requires a % P == b % P
    ensures (a * r) % P == (b * r) % P
  {
    var qa, qb := a / P, b / P;
    assert a == b + (qa - qb) * P;
    assert a * r == b * r + ((qa - qb) * r) * P by {
      assert ((qa - qb) * P) * r == ((qa - qb) * r) * P;
      Distribute(b, (qa - qb) * P, r);
    }
    AddMultiple(b * r, (qa - qb) * r, P);
  }

  lemma AddMultiple(x: int, k: int, p: int)
    requires p > 0
    ensures (x + k * p) % p == x % p
  {
    Distribute(x / p, k, p);
    ModUnique(x + k * p, x % p, x / p + k, p);
  }

  lemma {:induction false} AccumulateWhole(a: bytes, b: bytes, r: nat, acc: nat)
    requires |a| % 16 == 0
    ensures Accumulate(a + b, r, acc) == Accumulate(b, r, Absorb(a, TOP, r, acc))
    decreases |a|
  {
    if a == [] {
      assert a + b == b;
    } else {
      assert (a + b)[..16] == a[..16] && (a + b)[16..] == a[16..] + b;
      assert Pow256(16) == TOP by { Pow256Sixteen(); }
      AccumulateWhole(a[16..], b, r, (acc + LE(a[..16]) + TOP) * r % P);
    }
  }

  lemma Pow256Sixteen()
    ensures Pow256(4) == TWO32 && Pow256(8) == TWO64 && Pow256(16) == TOP
  {
    Pow2Word();
    Pow256Is(4);
    Pow256Is(8);
    Pow256Is(16);
    Pow2Add(64, 64);
  }

  /** A short last block is the padded buffer absorbed without the high marker. */
  lemma PartialBlock(part: bytes, r: nat, acc: nat)
    requires 0 < |part| < 16
    ensures Accumulate(part, r, acc) == Absorb(part + [1] + Zeros(15 - |part|), 0, r, acc)
  {
    var n := |part|;
    var b := part + [1] + Zeros(15 - n);
    assert part[..n] == part && part[n..] == [];
    assert b[..16] == b && b[16..] == [];
    MarkedValue(part, 15 - n);
  }

  lemma MarkedValue(part: bytes, zeros: nat)
    ensures LE(part + [1] + Zeros(zeros)) == LE(part) + Pow256(|part|)
  {
    AppendZeros(part + [1], zeros);
    AppendOne(part);
  }

  lemma AppendZeros(s: bytes, n: nat)
    ensures LE(s + Zeros(n)) == LE(s)
  {
    LEAppend(s, Zeros(n));
    LEZeros(n);
    assert Pow256(|s|) * 0 == 0;
  }

  lemma AppendOne(s: bytes)
    ensures LE(s + [1]) == LE(s) + Pow256(|s|)
  {
    var one: bytes := [1];
    LEAppend(s, one);
    SingleByte(1);
    TimesOne(Pow256(|s|), LE(one));
  }

  lemma SingleByte(b: byte)
    ensures LE([b]) == b
  {
    var s: bytes := [b];
    assert s[1..] == [];
  }

  lemma TimesOne(p: nat, x: nat)
    requires x == 1
    ensures p * x == p
  {}

  /** Whatever part of a block is left over, the reference accumulator is reached. */
  lemma LastBlock(whole: bytes, part: bytes, r: nat, before: nat, after: nat)
    requires |whole| % 16 == 0 && |part| < 16
    requires before % P == Absorb(whole, TOP, r, 0) % P
    requires part == [] ==> after == before
    requires part != [] ==> after % P == Absorb(part + [1] + Zeros(15 - |part|), 0, r, before) % P
    ensures after % P == Accumulate(whole + part, r, 0)
  {
    AccumulateWhole(whole, part, r, 0);
    if part != [] {
      PartialBlock(part, r, Absorb(whole, TOP, r, 0));
      AbsorbModulo(part + [1] + Zeros(15 - |part|), 0, r, before, Absorb(whole, TOP, r, 0));
    }
    AccumulateReduced(whole + part, r, 0);
    ModUnique(Accumulate(whole + part, r, 0), Accumulate(whole + part, r, 0), 0, P);
  }

  lemma {:induction false} LEZeros(n: nat)
    ensures LE(Zeros(n)) == 0
  {
    if n > 0 {
      assert Zeros(n)[1..] == Zeros(n - 1);
      LEZeros(n - 1);
    }
  }

  // ---- limbs -----------------------------------------------------------------

  // 0x400_0000 is 2^26, the weight of one limb over the previous one.
  const W26: nat := 0x400_0000
  const W52: nat := 0x10_0000_0000_0000
  const W78: nat := 0x4000_0000_0000_0000_0000
  const W104: nat := 0x100_0000_0000_0000_0000_0000_0000
  const TWO96: nat := 0x1_0000_0000_0000_0000_0000_0000

  /** The number with the given 26-bit limbs; a limb may be oversized between carries. */
  function Limbs(a: seq<u32>): nat {
    if a == [] then 0 else a[0] + 0x400_0000 * Limbs(a[1..])
  }

  /** The number with the given 32-bit words. */
  function Quads(a: seq<u32>): nat {
    if a == [] then 0 else a[0] + 0x1_0000_0000 * Quads(a[1..])
  }

  function Value(a0: int, a1: int, a2: int, a3: int, a4: int): int {
    a0 + a1 * W26 + a2 * W52 + a3 * W78 + a4 * W104
  }

  ghost predicate LimbsBelow(h0: int, h1: int, h2: int, h3: int, h4: int) {
    && 0 <= h0 < 0x400_0000 && 0 <= h1 < 0x400_0000 && 0 <= h2 < 0x400_0000
    && 0 <= h3 < 0x400_0000 && 0 <= h4 < 0x400_0000
  }

  lemma LimbsValue(a0: u32, a1: u32, a2: u32, a3: u32, a4: u32)
    ensures Limbs([a0, a1, a2, a3, a4]) == Value(a0, a1, a2, a3, a4)
  {
    var s := [a0, a1, a2, a3, a4];
    assert s[1..] == [a1, a2, a3, a4] && [a1, a2, a3, a4][1..] == [a2, a3, a4]
        && [a2, a3, a4][1..] == [a3, a4] && [a3, a4][1..] == [a4] && [a4][1..] == [];
    assert Limbs([a4]) == a4;
    assert Limbs([a3, a4]) == a3 + 0x400_0000 * a4;
    assert Limbs([a2, a3, a4]) == a2 + 0x400_0000 * a3 + W52 * a4;
    assert Limbs([a1, a2, a3, a4]) == a1 + 0x400_0000 * a2 + W52 * a3 + W78 * a4;
  }

  lemma QuadsValue(a0: u32, a1: u32, a2: u32, a3: u32)
    ensures Quads([a0, a1, a2, a3]) == a0 + TWO32 * a1 + TWO64 * a2 + TWO96 * a3
  {
    var s := [a0, a1, a2, a3];
    assert s[1..] == [a1, a2, a3] && [a1, a2, a3][1..] == [a2, a3]
        && [a2, a3][1..] == [a3] && [a3][1..] == [];
    assert Quads([a3]) == a3;
    assert Quads([a2, a3]) == a2 + 0x1_0000_0000 * a3;
    assert Quads([a1, a2, a3]) == a1 + 0x1_0000_0000 * a2 + TWO64 * a3;
  }

  lemma LE16(m: bytes)
    requires |m| == 16
    ensures LE(m) == LoadLE32(m, 0) + TWO32 * LoadLE32(m, 4)
                  + TWO64 * LoadLE32(m, 8) + TWO96 * LoadLE32(m, 12)
  {
    var a, b, c, d := m[0..4], m[4..8], m[8..12], m[12..16];
    assert m == a + (b + (c + d));
    FourWords(a, b, c, d);
    LoadIsLE(m, 0);
    LoadIsLE(m, 4);
    LoadIsLE(m, 8);
    LoadIsLE(m, 12);
  }

  lemma FourWords(a: bytes, b: bytes, c: bytes, d: bytes)
    requires |a| == |b| == |c| == 4
    ensures LE(a + (b + (c + d))) == LE(a) + TWO32 * LE(b) + TWO64 * LE(c) + TWO96 * LE(d)
  {
    Pow256Sixteen();
    LEAppend(a, b + (c + d));
    LEAppend(b, c + d);
    LEAppend(c, d);
  }

  /** The five 26-bit limbs of a 16-byte block, taken from five overlapping words. */
  lemma BlockLimbs(m: bytes)
    requires |m| == 16
    ensures Value(LoadLE32(m, 0) % 0x400_0000, LoadLE32(m, 3) / 4 % 0x400_0000, LoadLE32(m, 6) / 16 % 0x400_0000,
                  LoadLE32(m, 9) / 64 % 0x400_0000, LoadLE32(m, 12) / 256) == LE(m)
    ensures LoadLE32(m, 12) / 256 < 0x100_0000
  {
    LE16(m);
    AllLimbs(m[0], m[1], m[2], m[3], m[4], m[5], m[6], m[7],
             m[8], m[9], m[10], m[11], m[12], m[13], m[14], m[15]);
  }

  lemma AllLimbs(m0: byte, m1: byte, m2: byte, m3: byte, m4: byte, m5: byte, m6: byte, m7: byte,
                 m8: byte, m9: byte, m10: byte, m11: byte, m12: byte, m13: byte, m14: byte, m15: byte)
    ensures Value(Word(m0, m1, m2, m3) % 0x400_0000, Word(m3, m4, m5, m6) / 4 % 0x400_0000,
                  Word(m6, m7, m8, m9) / 16 % 0x400_0000, Word(m9, m10, m11, m12) / 64 % 0x400_0000,
                  Word(m12, m13, m14, m15) / 256)
         == Word(m0, m1, m2, m3) + TWO32 * Word(m4, m5, m6, m7)
            + TWO64 * Word(m8, m9, m10, m11) + TWO96 * Word(m12, m13, m14, m15)
    ensures Word(m12, m13, m14, m15) / 256 < 0x100_0000
  {
    LowLimbs(m0, m1, m2, m3, m4, m5, m6);
    HighLimbs(m6, m7, m8, m9, m10, m11, m12, m13, m14, m15);
  }

  lemma LowLimbs(m0: byte, m1: byte, m2: byte, m3: byte, m4: byte, m5: byte, m6: byte)
    ensures Word(m0, m1, m2, m3) % 0x400_0000 + (Word(m3, m4, m5, m6) / 4 % 0x400_0000) * 0x400_0000
         == Word(m0, m1, m2, m3) + TWO32 * (m4 + 0x100 * m5 + 0x1_0000 * (m6 % 16))
  {
    var lo, hi: int := m3 % 4, m3 / 4;
    Limb(m0 + 0x100 * m1 + 0x1_0000 * m2 + 0x100_0000 * lo, hi, Word(m0, m1, m2, m3));
    assert Word(m3, m4, m5, m6) / 4 == hi + 0x40 * m4 + 0x4000 * m5 + 0x40_0000 * m6;
    Limb(hi + 0x40 * m4 + 0x4000 * m5 + 0x40_0000 * (m6 % 16), m6 / 16, Word(m3, m4, m5, m6) / 4);
  }

  lemma HighLimbs(m6: byte, m7: byte, m8: byte, m9: byte, m10: byte, m11: byte, m12: byte,
                  m13: byte, m14: byte, m15: byte)
    ensures (Word(m6, m7, m8, m9) / 16 % 0x400_0000) + (Word(m9, m10, m11, m12) / 64 % 0x400_0000) * 0x400_0000
            + (Word(m12, m13, m14, m15) / 256) * W52
         == m6 / 16 + 0x10 * m7 + 0x1000 * m8 + 0x10_0000 * m9 + 0x1000_0000 * m10
            + 0x10_0000_0000 * m11 + 0x1000_0000_0000 * Word(m12, m13, m14, m15)
    ensures Word(m12, m13, m14, m15) / 256 < 0x100_0000
  {
    var lo, hi: int := m9 % 64, m9 / 64;
    assert Word(m6, m7, m8, m9) / 16 == m6 / 16 + 0x10 * m7 + 0x1000 * m8 + 0x10_0000 * m9;
    Limb(m6 / 16 + 0x10 * m7 + 0x1000 * m8 + 0x10_0000 * lo, hi, Word(m6, m7, m8, m9) / 16);
    assert Word(m9, m10, m11, m12) / 64 == hi + 0x4 * m10 + 0x400 * m11 + 0x4_0000 * m12;
    Limb(hi + 0x4 * m10 + 0x400 * m11 + 0x4_0000 * m12, 0, Word(m9, m10, m11, m12) / 64);
    assert Word(m12, m13, m14, m15) / 256 == m13 + 0x100 * m14 + 0x1_0000 * m15;
  }

  lemma Limb(lo: nat, hi: nat, v: nat)
    requires lo < 0x400_0000 && v == lo + hi * 0x400_0000
    ensures v % 0x400_0000 == lo
  {}

  /** Masking the loaded limbs one by one clamps the whole key half. */
  lemma ClampLimbs(k: bytes)
    requires |k| == 16
    ensures Value(And(LoadLE32(k, 0), 0x3ff_ffff), And(LoadLE32(k, 3) / 4, 0x3ff_ff03),
                  And(LoadLE32(k, 6) / 16, 0x3ff_c0ff), And(LoadLE32(k, 9) / 64, 0x3f0_3fff),
                  And(LoadLE32(k, 12) / 256, 0x00f_ffff)) == Clamp(k)
    ensures And(LoadLE32(k, 0), 0x3ff_ffff) < 0x400_0000 && And(LoadLE32(k, 3) / 4, 0x3ff_ff03) < 0x400_0000
    ensures And(LoadLE32(k, 6) / 16, 0x3ff_c0ff) < 0x400_0000 && And(LoadLE32(k, 9) / 64, 0x3f0_3fff) < 0x400_0000
    ensures And(LoadLE32(k, 12) / 256, 0x00f_ffff) < 0x400_0000
  {
    BlockLimbs(k);
    MaskLow(LoadLE32(k, 0), 0x3ff_ffff);
    MaskLow(LoadLE32(k, 3) / 4, 0x3ff_ff03);
    MaskLow(LoadLE32(k, 6) / 16, 0x3ff_c0ff);
    MaskLow(LoadLE32(k, 9) / 64, 0x3f0_3fff);
    MaskLow(LoadLE32(k, 12) / 256, 0x00f_ffff);
    ClampSplit(LoadLE32(k, 0) % 0x400_0000, LoadLE32(k, 3) / 4 % 0x400_0000, LoadLE32(k, 6) / 16 % 0x400_0000,
               LoadLE32(k, 9) / 64 % 0x400_0000, LoadLE32(k, 12) / 256,
               0x3ff_ffff, 0x3ff_ff03, 0x3ff_c0ff, 0x3f0_3fff, 0x00f_ffff);
    assert Value(0x3ff_ffff, 0x3ff_ff03, 0x3ff_c0ff, 0x3f0_3fff, 0x00f_ffff) == CLAMP;
  }

  lemma ClampSplit(x0: u32, x1: u32, x2: u32, x3: u32, x4: u32, m0: u32, m1: u32, m2: u32, m3: u32, m4: u32)
    requires LimbsBelow(x0, x1, x2, x3, x4) && LimbsBelow(m0, m1, m2, m3, m4)
    ensures And(Value(x0, x1, x2, x3, x4), Value(m0, m1, m2, m3, m4))
         == Value(And(x0, m0), And(x1, m1), And(x2, m2), And(x3, m3), And(x4, m4))
  {
    var x, m := [x0, x1, x2, x3, x4], [m0, m1, m2, m3, m4];
    AndLimbs(x, m);
    AndEachIs(x, m);
    var a := AndEach(x, m);
    assert a == [a[0], a[1], a[2], a[3], a[4]];
    LimbsValue(x0, x1, x2, x3, x4);
    LimbsValue(m0, m1, m2, m3, m4);
    LimbsValue(a[0], a[1], a[2], a[3], a[4]);
  }

  function AndEach(a: seq<u32>, b: seq<u32>): (c: seq<u32>)
    requires |a| == |b|
    ensures |c| == |a|
  {
    if a == [] then []
    else
      AndAtMost(a[0], b[0]);
      [And(a[0], b[0])] + AndEach(a[1..], b[1..])
  }

  lemma {:induction false} AndEachIs(a: seq<u32>, b: seq<u32>)
    requires |a| == |b|
    ensures forall i | 0 <= i < |a| :: AndEach(a, b)[i] == And(a[i], b[i])
  {
    if a != [] {
      AndEachIs(a[1..], b[1..]);
      forall i | 0 <= i < |a| ensures AndEach(a, b)[i] == And(a[i], b[i]) {
        if i > 0 {
          assert AndEach(a, b)[i] == AndEach(a[1..], b[1..])[i - 1];
        }
      }
    }
  }

  /** Clamping limb by limb is clamping the number. */
  lemma {:induction false} AndLimbs(a: seq<u32>, b: seq<u32>)
    requires |a| == |b|
    requires forall i | 0 <= i < |a| :: a[i] < 0x400_0000 && b[i] < 0x400_0000
    ensures And(Limbs(a), Limbs(b)) == Limbs(AndEach(a, b))
  {
    if a == [] {
      AndZero(0);
    } else {
      AndLimbs(a[1..], b[1..]);
      Split26(a[0], Limbs(a[1..]), b[0], Limbs(b[1..]));
      var c := AndEach(a, b);
      assert c[1..] == AndEach(a[1..], b[1..]);
    }
  }

  lemma Split26(a: nat, b: nat, c: nat, d: nat)
    requires a < 0x400_0000 && c < 0x400_0000
    ensures And(a + b * 0x400_0000, c + d * 0x400_0000) == And(a, c) + And(b, d) * 0x400_0000
  {
    Pow2TwentySix();
    AndSplit(a, b, c, d, 26);
  }

  /** A mask of at most 26 bits only sees the low limb. */
  lemma MaskLow(x: nat, mask: nat)
    requires mask < 0x400_0000
    ensures And(x, mask) == And(x % 0x400_0000, mask) < 0x400_0000
  {
    Split26(x % 0x400_0000, x / 0x400_0000, mask, 0);
    AndZero(x / 0x400_0000);
    AndAtMost(x % 0x400_0000, mask);
  }

  lemma {:induction false} AndAtMost(a: nat, b: nat)
    ensures And(a, b) <= a
  {
    if a != 0 && b != 0 {
      AndAtMost(a / 2, b / 2);
      assert (a % 2) * (b % 2) <= a % 2 by {
        if b % 2 == 0 {} else { assert b % 2 == 1; }
      }
    }
  }

  lemma Pow2TwentySix()
    ensures Pow2(6) == 0x40 && Pow2(24) == 0x100_0000 && Pow2(26) == 0x400_0000 && Pow2(20) == 0x10_0000
    ensures Pow2(14) == 0x4000 && Pow2(12) == 0x1000 && Pow2(18) == 0x4_0000
  {
    assert Pow2(6) == 0x40;
    Pow2Add(6, 6);
    Pow2Add(12, 6);
    Pow2Add(18, 6);
    Pow2Add(6, 8);
    Pow2Word();
    Pow2Add(14, 6);
    Pow2Add(20, 6);
  }

  // ---- one multiplication ----------------------------------------------------

  lemma Row(h: nat, r0: nat, r1: nat, r2: nat, r3: nat, r4: nat)
    ensures h * Value(r0, r1, r2, r3, r4) == Value(h * r0, h * r1, h * r2, h * r3, h * r4)
  {
    Scale(h, r1, 0x400_0000);
    Scale(h, r2, W52);
    Scale(h, r3, W78);
    Scale(h, r4, W104);
    assert h * (r0 + r1 * 0x400_0000) == h * r0 + h * (r1 * 0x400_0000);
    assert h * (r0 + r1 * 0x400_0000 + r2 * W52) == h * (r0 + r1 * 0x400_0000) + h * (r2 * W52);
    assert h * (r0 + r1 * 0x400_0000 + r2 * W52 + r3 * W78) == h * (r0 + r1 * 0x400_0000 + r2 * W52) + h * (r3 * W78);
  }

  lemma Scale(a: int, b: int, c: int)
    ensures a * (b * c) == (a * b) * c
  {}

  /** The five column sums are the product, with 2^130 folded back as 5. */
  lemma Columns(h0: nat, h1: nat, h2: nat, h3: nat, h4: nat,
                r0: nat, r1: nat, r2: nat, r3: nat, r4: nat,
                s1: nat, s2: nat, s3: nat, s4: nat)
    requires s1 == r1 * 5 && s2 == r2 * 5 && s3 == r3 * 5 && s4 == r4 * 5
    ensures (Value(h0, h1, h2, h3, h4) * Value(r0, r1, r2, r3, r4)) % P
         == Value(Dot(h0, h1, h2, h3, h4, r0, s4, s3, s2, s1), Dot(h0, h1, h2, h3, h4, r1, r0, s4, s3, s2),
                  Dot(h0, h1, h2, h3, h4, r2, r1, r0, s4, s3), Dot(h0, h1, h2, h3, h4, r3, r2, r1, r0, s4),
                  Dot(h0, h1, h2, h3, h4, r4, r3, r2, r1, r0)) % P
  {
    var R := Value(r0, r1, r2, r3, r4);
    Row(h0, r0, r1, r2, r3, r4);
    Row(h1, r0, r1, r2, r3, r4);
    Row(h2, r0, r1, r2, r3, r4);
    Row(h3, r0, r1, r2, r3, r4);
    Row(h4, r0, r1, r2, r3, r4);
    SumRows(h0, h1 * W26, h2 * W52, h3 * W78, h4 * W104, R);
    Commute(h1, W26, R);
    Commute(h2, W52, R);
    Commute(h3, W78, R);
    Commute(h4, W104, R);
    Times5(h1, r4); Times5(h2, r3); Times5(h3, r2); Times5(h4, r1);
    Times5(h2, r4); Times5(h3, r3); Times5(h4, r2);
    Times5(h3, r4); Times5(h4, r3);
    Times5(h4, r4);
    var k := (h1 * r4 + h2 * r3 + h3 * r2 + h4 * r1) + (h2 * r4 + h3 * r3 + h4 * r2) * W26
           + (h3 * r4 + h4 * r3) * W52 + (h4 * r4) * W78;
    var folded := Value(h0 * r0 + h1 * (r4 * 5) + h2 * (r3 * 5) + h3 * (r2 * 5) + h4 * (r1 * 5),
                        h0 * r1 + h1 * r0 + h2 * (r4 * 5) + h3 * (r3 * 5) + h4 * (r2 * 5),
                        h0 * r2 + h1 * r1 + h2 * r0 + h3 * (r4 * 5) + h4 * (r3 * 5),
                        h0 * r3 + h1 * r2 + h2 * r1 + h3 * r0 + h4 * (r4 * 5),
                        h0 * r4 + h1 * r3 + h2 * r2 + h3 * r1 + h4 * r0);
    assert Value(h0, h1, h2, h3, h4) * R == folded + k * P;
    AddMultiple(folded, k, P);
  }

  /** One column of the schoolbook product. */
  function Dot(a0: int, a1: int, a2: int, a3: int, a4: int, b0: int, b1: int, b2: int, b3: int, b4: int): int {
    a0 * b0 + a1 * b1 + a2 * b2 + a3 * b3 + a4 * b4
  }

  lemma SumRows(a: int, b: int, c: int, d: int, e: int, r: int)
    ensures (a + b + c + d + e) * r == a * r + b * r + c * r + d * r + e * r
  {
    Distribute(a + b + c + d, e, r);
    Distribute(a + b + c, d, r);
    Distribute(a + b, c, r);
  }

  lemma Commute(h: int, b: int, r: int)
    ensures (h * b) * r == (h * r) * b
  {}

  lemma Times5(h: int, r: int)
    ensures h * (r * 5) == 5 * (h * r)
  {}

  /** One lazy carry pass, with every quotient q and remainder m named, keeps the residue. */
  lemma CarryPass(d0: int, d1: int, d2: int, d3: int, d4: int, m0: int, m1: int, m2: int, m3: int, m4: int,
                  q0: int, q1: int, q2: int, q3: int, q4: int, n0: int, p: int)
    requires d0 == m0 + 0x400_0000 * q0 && d1 + q0 == m1 + 0x400_0000 * q1
    requires d2 + q1 == m2 + 0x400_0000 * q2 && d3 + q2 == m3 + 0x400_0000 * q3
    requires d4 + q3 == m4 + 0x400_0000 * q4 && m0 + q4 * 5 == n0 + 0x400_0000 * p
    ensures Value(d0, d1, d2, d3, d4) % P == Value(n0, m1 + p, m2, m3, m4) % P
  {
    var v := Value(n0, m1 + p, m2, m3, m4);
    assert Value(d0, d1, d2, d3, d4) == v + q4 * P;
    AddMultiple(v, q4, P);
  }

  /** Bound of one column: five products of a limb below 2^27 and one below 5 * 2^26. */
  lemma ColumnBound(a0: nat, a1: nat, a2: nat, a3: nat, a4: nat,
                    b0: nat, b1: nat, b2: nat, b3: nat, b4: nat)
    requires a0 < 0x800_0000 && a1 < 0x800_0000 + 64 && a2 < 0x800_0000 && a3 < 0x800_0000 && a4 < 0x800_0000
    requires b0 < 0x1400_0000 && b1 < 0x1400_0000 && b2 < 0x1400_0000 && b3 < 0x1400_0000 && b4 < 0x1400_0000
    ensures 0 <= Dot(a0, a1, a2, a3, a4, b0, b1, b2, b3, b4) <= 0x1400_0000 * 0x2800_0040
  {
    MulUpper(a0, b0, 0x800_0000, 0x1400_0000);
    MulUpper(a1, b1, 0x800_0040, 0x1400_0000);
    MulUpper(a2, b2, 0x800_0000, 0x1400_0000);
    MulUpper(a3, b3, 0x800_0000, 0x1400_0000);
    MulUpper(a4, b4, 0x800_0000, 0x1400_0000);
  }

  lemma MulUpper(a: nat, b: nat, x: nat, y: nat)
    requires a <= x && b <= y
    ensures 0 <= a * b <= x * y
  {
    assert a * b <= a * y by { assert a * (y - b) >= 0; }
    assert a * y <= x * y by { assert (x - a) * y >= 0; }
  }

  /** The residue reached by absorbing whole blocks is the reference accumulator itself. */
  lemma {:induction false} AccumulateReduced(msg: bytes, r: nat, acc: nat)
    requires acc < P
    ensures Accumulate(msg, r, acc) < P
    decreases |msg|
  {
    if msg != [] {
      var n := Min(16, |msg|);
      AccumulateReduced(msg[n..], r, (acc + LE(msg[..n]) + Pow256(n)) * r % P);
    }
  }

  // ---- the last reduction ----------------------------------------------------

  /** The bounds the block loop keeps: one limb may exceed 26 bits by a little. */
  ghost predicate Bounded(h0: int, h1: int, h2: int, h3: int, h4: int) {
    && 0 <= h0 < 0x400_0000 && 0 <= h1 < 0x400_0000 + 64 && 0 <= h2 < 0x400_0000
    && 0 <= h3 < 0x400_0000 && 0 <= h4 < 0x400_0000
  }

  /** From those bounds one more carry pass (quotients q, remainders m) brings every limb below 2^26. */
  lemma FinalCarryBounds(h0: int, h1: int, h2: int, h3: int, h4: int, m1: int, m2: int, m3: int, m4: int,
                         q1: int, q2: int, q3: int, q4: int, n0: int, p: int)
    requires Bounded(h0, h1, h2, h3, h4)
    requires h1 == m1 + 0x400_0000 * q1 && h2 + q1 == m2 + 0x400_0000 * q2
    requires h3 + q2 == m3 + 0x400_0000 * q3 && h4 + q3 == m4 + 0x400_0000 * q4
    requires h0 + q4 * 5 == n0 + 0x400_0000 * p
    requires LimbsBelow(n0, m1, m2, m3, m4)
    ensures 0 <= m1 + p < 0x400_0000
  {}

  /** Adding 5 and looking at bit 130 decides the single subtraction that is needed. */
  lemma FinalSubtract(h0: nat, h1: nat, h2: nat, h3: nat, h4: nat)
    requires LimbsBelow(h0, h1, h2, h3, h4)
    ensures
      var g1 := h1 + (h0 + 5) / 0x400_0000;
      var g2 := h2 + g1 / 0x400_0000;
      var g3 := h3 + g2 / 0x400_0000;
      var g4 := h4 + g3 / 0x400_0000;
      && g4 <= 0x400_0000
      && (g4 >= 0x400_0000 ==>
            Value((h0 + 5) % 0x400_0000, g1 % 0x400_0000, g2 % 0x400_0000, g3 % 0x400_0000, g4 - 0x400_0000)
            == Value(h0, h1, h2, h3, h4) % P)
      && (g4 < 0x400_0000 ==> Value(h0, h1, h2, h3, h4) % P == Value(h0, h1, h2, h3, h4))
  {
    var g1 := h1 + (h0 + 5) / 0x400_0000;
    var g2 := h2 + g1 / 0x400_0000;
    var g3 := h3 + g2 / 0x400_0000;
    var g4 := h4 + g3 / 0x400_0000;
    var v := Value(h0, h1, h2, h3, h4);
    assert Value((h0 + 5) % 0x400_0000, g1 % 0x400_0000, g2 % 0x400_0000, g3 % 0x400_0000, g4) == v + 5;
    if g4 >= 0x400_0000 {
      ModUnique(v, v - P, 1, P);
    } else {
      ModUnique(v, v, 0, P);
    }
  }

  lemma ShiftedLimbs(h1: nat, h2: nat, h3: nat, h4: nat)
    ensures h1 * 0x400_0000 % 0x1_0000_0000 == (h1 % 0x40) * 0x400_0000
    ensures h2 * 0x10_0000 % 0x1_0000_0000 == (h2 % 0x1000) * 0x10_0000
    ensures h3 * 0x4000 % 0x1_0000_0000 == (h3 % 0x4_0000) * 0x4000
    ensures h4 * 0x100 % 0x1_0000_0000 == (h4 % 0x100_0000) * 0x100
  {}

  /** The OR of the shifted limbs never collides: each word is a sum. */
  lemma RepackWords(h0: nat, h1: nat, h2: nat, h3: nat, h4: nat)
    requires LimbsBelow(h0, h1, h2, h3, h4)
    ensures Or(h0, h1 * 0x400_0000 % 0x1_0000_0000) == h0 + (h1 % 0x40) * 0x400_0000
    ensures Or(h1 / 0x40, h2 * 0x10_0000 % 0x1_0000_0000) == h1 / 0x40 + (h2 % 0x1000) * 0x10_0000
    ensures Or(h2 / 0x1000, h3 * 0x4000 % 0x1_0000_0000) == h2 / 0x1000 + (h3 % 0x4_0000) * 0x4000
    ensures Or(h3 / 0x4_0000, h4 * 0x100 % 0x1_0000_0000) == h3 / 0x4_0000 + (h4 % 0x100_0000) * 0x100
  {
    Pow2TwentySix();
    Pow2Word();
    ShiftedLimbs(h1, h2, h3, h4);
    OrDisjoint(h0, h1 % 0x40, 26);
    OrDisjoint(h1 / 0x40, h2 % 0x1000, 20);
    OrDisjoint(h2 / 0x1000, h3 % 0x4_0000, 14);
    OrDisjoint(h3 / 0x4_0000, h4 % 0x100_0000, 8);
  }

  lemma RepackValue(h0: nat, h1: nat, h2: nat, h3: nat, h4: nat)
    ensures Value(h0, h1, h2, h3, h4)
         == (h0 + (h1 % 0x40) * 0x400_0000) + TWO32 * (h1 / 0x40 + (h2 % 0x1000) * 0x10_0000)
            + TWO64 * (h2 / 0x1000 + (h3 % 0x4_0000) * 0x4000)
            + TWO96 * (h3 / 0x4_0000 + (h4 % 0x100_0000) * 0x100) + TOP * (h4 / 0x100_0000)
  {
    assert h1 == h1 % 0x40 + 0x40 * (h1 / 0x40);
    assert h2 == h2 % 0x1000 + 0x1000 * (h2 / 0x1000);
    assert h3 == h3 % 0x4_0000 + 0x4_0000 * (h3 / 0x4_0000);
    assert h4 == h4 % 0x100_0000 + 0x100_0000 * (h4 / 0x100_0000);
  }

  lemma QuadStep(o: u32, v: nat, k: nat)
    ensures LEBytes(o + 0x1_0000_0000 * v, 4 + k) == LEBytes(o, 4) + LEBytes(v, k)
  {
    Pow256Sixteen();
    LEBytesSplit(o, v, 4, k);
  }

  /** Adding the pad word by word with a carry (o the sums kept, c the carries) is addition modulo 2^128. */
  lemma AddPad(w0: int, w1: int, w2: int, w3: int, p0: int, p1: int, p2: int, p3: int,
               o0: u32, o1: u32, o2: u32, o3: u32, c0: nat, c1: nat, c2: nat, c3: nat, above: nat, v: nat)
    requires w0 + p0 == o0 + 0x1_0000_0000 * c0 && w1 + p1 + c0 == o1 + 0x1_0000_0000 * c1
    requires w2 + p2 + c1 == o2 + 0x1_0000_0000 * c2 && w3 + p3 + c2 == o3 + 0x1_0000_0000 * c3
    requires v == (w0 + TWO32 * w1 + TWO64 * w2 + TWO96 * w3 + TOP * above)
                  + (p0 + TWO32 * p1 + TWO64 * p2 + TWO96 * p3)
    ensures LEBytes(o0, 4) + LEBytes(o1, 4) + LEBytes(o2, 4) + LEBytes(o3, 4) == LEBytes(v, 16)
  {
    FourQuads(o0, o1, o2, o3, c3 + above, v);
  }

  lemma FourQuads(o0: u32, o1: u32, o2: u32, o3: u32, x: nat, v: nat)
    requires v == o0 + 0x1_0000_0000 * (o1 + 0x1_0000_0000 * (o2 + 0x1_0000_0000 * (o3 + 0x1_0000_0000 * x)))
    ensures LEBytes(o0, 4) + LEBytes(o1, 4) + LEBytes(o2, 4) + LEBytes(o3, 4) == LEBytes(v, 16)
  {
    var v3: nat := o3 + 0x1_0000_0000 * x;
    var v2: nat := o2 + 0x1_0000_0000 * v3;
    var v1: nat := o1 + 0x1_0000_0000 * v2;
    FirstQuad(o0, v1, 12, v);
    FirstQuad(o1, v2, 8, v1);
    FirstQuad(o2, v3, 4, v2);
    FirstQuad(o3, x, 0, v3);
    JoinFour(LEBytes(o0, 4), LEBytes(o1, 4), LEBytes(o2, 4), LEBytes(o3, 4));
  }

  lemma FirstQuad(o: u32, hi: nat, k: nat, v: nat)
    requires v == o + 0x1_0000_0000 * hi
    ensures LEBytes(v, k + 4) == LEBytes(o, 4) + LEBytes(hi, k)
  {
    QuadStep(o, hi, k);
  }

  lemma JoinFour(a: bytes, b: bytes, c: bytes, d: bytes)
    ensures a + b + c + d == a + (b + (c + (d + [])))
  {}

  /** AND-ing with an all-ones or all-zeros mask and OR-ing selects one of two words. */
  lemma MaskSelect(a: u32, g: u32, mask: u32, keep: u32)
    requires mask == 0 || mask == 0xffff_ffff
    requires keep == 0xffff_ffff - mask
    ensures Or(And(a, keep), And(g, mask)) == if mask == 0 then a else g
  {
    if mask == 0 {
      AndAllOnes(a, keep);
      AndZero(g);
      OrZero(a);
    } else {
      AndAllOnes(g, mask);
      AndZero(a);
      OrZero(g);
    }
  }

  lemma AndAllOnes(a: u32, m: u32)
    requires m == 0xffff_ffff
    ensures And(a, m) == a
  {
    Pow2Word();
    AndOnes(a, 32);
    ModUnique(a, a, 0, Pow2(32));
  }

  lemma LastColumnBound(a0: nat, a1: nat, a2: nat, a3: nat, a4: nat,
                        b0: nat, b1: nat, b2: nat, b3: nat, b4: nat)
    requires a0 < 0x800_0000 && a1 < 0x800_0000 + 64 && a2 < 0x800_0000 && a3 < 0x800_0000 && a4 < 0x800_0000
    requires b0 < 0x400_0000 && b1 < 0x400_0000 && b2 < 0x400_0000 && b3 < 0x400_0000 && b4 < 0x400_0000
    ensures 0 <= Dot(a0, a1, a2, a3, a4, b0, b1, b2, b3, b4) <= 0x400_0000 * 0x2800_0040
  {
    MulUpper(a0, b0, 0x800_0000, 0x400_0000);
    MulUpper(a1, b1, 0x800_0040, 0x400_0000);
    MulUpper(a2, b2, 0x800_0000, 0x400_0000);
    MulUpper(a3, b3, 0x800_0000, 0x400_0000);
    MulUpper(a4, b4, 0x800_0000, 0x400_0000);
  }

  // ---- the streaming object --------------------------------------------------

  /** The mask is all ones exactly when subtracting 2^26 does not borrow. */
  lemma MaskOfTop(x: nat)
    requires x <= 0x400_0000
    ensures var g4 := (x + 0x1_0000_0000 - 0x400_0000) % 0x1_0000_0000;
            (g4 / 0x8000_0000 + 0xffff_ffff) % 0x1_0000_0000 == if x >= 0x400_0000 then 0xffff_ffff else 0
  {}

  class Mac {
    const r: array<u32>
    const h: array<u32>
    const pad: array<u32>
    const buffer: array<byte>
    var leftover: nat
    var final: bool

    ghost const key: bytes   // the one-time key
    ghost var fed: bytes     // every byte passed to Update so far
    ghost var done: bytes    // the whole blocks of it that are in the accumulator

    ghost predicate Shape()
      reads this, r, h, pad, buffer
    {
      && r.Length == 5 && h.Length == 5 && pad.Length == 4 && buffer.Length == 16
      && r != h && r != pad && h != pad && |key| == 32
      && LimbsBelow(r[0], r[1], r[2], r[3], r[4])
      && Bounded(h[0], h[1], h[2], h[3], h[4])
      && Limbs([r[0], r[1], r[2], r[3], r[4]]) == Clamp(key[..16])
      && Quads([pad[0], pad[1], pad[2], pad[3]]) == LE(key[16..])
    }

    ghost function Acc(): nat
      requires h.Length == 5
      reads this, h
    {
      Limbs([h[0], h[1], h[2], h[3], h[4]])
    }

    ghost predicate Valid()
      reads this, r, h, pad, buffer
    {
      && Shape() && !final
      && leftover < 16 && |done| % 16 == 0
      && fed == done + buffer[..leftover]
      && Acc() % P == Absorb(done, TOP, Clamp(key[..16]), 0) % P
    }

    constructor (k: bytes)
      requires |k| == 32
      ensures Valid() && key == k && fed == []
      ensures fresh(r) && fresh(h) && fresh(pad) && fresh(buffer)
    {
      var r0, r1, r2, r3, r4 := LoadClamped(k);
      var p0, p1, p2, p3 := LoadPad(k);
      r := new u32[5] [r0, r1, r2, r3, r4];
      h := new u32[5] [0, 0, 0, 0, 0];
      pad := new u32[4] [p0, p1, p2, p3];
      buffer := new byte[16];
      leftover, final := 0, false;
      key, fed, done := k, [], [];
      LimbsValue(0, 0, 0, 0, 0);
    }

    static method LoadClamped(k: bytes) returns (r0: u32, r1: u32, r2: u32, r3: u32, r4: u32)
      requires |k| == 32
      ensures LimbsBelow(r0, r1, r2, r3, r4)
      ensures Limbs([r0, r1, r2, r3, r4]) == Clamp(k[..16])
    {
      var half := k[..16];
      ClampLimbs(half);
      assert forall i | 0 <= i <= 12 :: LoadLE32(k, i) == LoadLE32(half, i);
      r0 := And(LoadLE32(k, 0), 0x3ff_ffff);
      r1 := And(LoadLE32(k, 3) / 4, 0x3ff_ff03);
      r2 := And(LoadLE32(k, 6) / 16, 0x3ff_c0ff);
      r3 := And(LoadLE32(k, 9) / 64, 0x3f0_3fff);
      r4 := And(LoadLE32(k, 12) / 256, 0x00f_ffff);
      LimbsValue(r0, r1, r2, r3, r4);
    }

    static method LoadPad(k: bytes) returns (p0: u32, p1: u32, p2: u32, p3: u32)
      requires |k| == 32
      ensures Quads([p0, p1, p2, p3]) == LE(k[16..])
    {
      p0, p1, p2, p3 := LoadLE32(k, 16), LoadLE32(k, 20), LoadLE32(k, 24), LoadLE32(k, 28);
      LE16(k[16..]);
      QuadsValue(p0, p1, p2, p3);
    }

    /** Folds every whole 16-byte block of m into the accumulator. */
    method Blocks(m: bytes)
      requires Shape()
      modifies h
      ensures Shape()
      ensures Acc() % P == Absorb(m, if final then 0 else TOP, Clamp(key[..16]), old(Acc())) % P
    {
      var hibit: u32 := if final then 0 else 0x100_0000;
      ghost var marker := if final then 0 else TOP;
      ghost var R := Clamp(key[..16]);
      var r0, r1, r2, r3, r4 := r[0], r[1], r[2], r[3], r[4];
      var h0, h1, h2, h3, h4 := h[0], h[1], h[2], h[3], h[4];
      var off := 0;
      assert m[0..] == m;
      while |m| - off >= 16
        invariant 0 <= off <= |m|
        invariant Bounded(h0, h1, h2, h3, h4)
        invariant Absorb(m, marker, R, old(Acc())) % P
               == Absorb(m[off..], marker, R, Limbs([h0, h1, h2, h3, h4])) % P
      {
        ghost var before := Limbs([h0, h1, h2, h3, h4]);
        var block := m[off..off + 16];
        h0, h1, h2, h3, h4 := Step(block, hibit, h0, h1, h2, h3, h4, r0, r1, r2, r3, r4);
        AbsorbBlock(m, off, marker, R, before, Limbs([h0, h1, h2, h3, h4]));
        off := off + 16;
      }
      h[0], h[1], h[2], h[3], h[4] := h0, h1, h2, h3, h4;
    }

    /** One turn of the block loop.  Every intermediate fits its 32- or 64-bit type. */
    static method Step(m: bytes, hibit: u32, a0: u32, a1: u32, a2: u32, a3: u32, a4: u32,
                       r0: u32, r1: u32, r2: u32, r3: u32, r4: u32)
      returns (h0: u32, h1: u32, h2: u32, h3: u32, h4: u32)
      requires |m| == 16 && (hibit == 0 || hibit == 0x100_0000)
      requires Bounded(a0, a1, a2, a3, a4) && LimbsBelow(r0, r1, r2, r3, r4)
      ensures Bounded(h0, h1, h2, h3, h4)
      ensures Limbs([h0, h1, h2, h3, h4]) % P
           == (Limbs([a0, a1, a2, a3, a4]) + LE(m) + (if hibit == 0 then 0 else TOP)) * Limbs([r0, r1, r2, r3, r4]) % P
    {
      var b0, b1, b2, b3, b4 := AddBlock(m, hibit, a0, a1, a2, a3, a4);
      h0, h1, h2, h3, h4 := Multiply(b0, b1, b2, b3, b4, r0, r1, r2, r3, r4);
    }

    static method AddBlock(m: bytes, hibit: u32, a0: u32, a1: u32, a2: u32, a3: u32, a4: u32)
      returns (b0: u32, b1: u32, b2: u32, b3: u32, b4: u32)
      requires |m| == 16 && (hibit == 0 || hibit == 0x100_0000)
      requires Bounded(a0, a1, a2, a3, a4)
      ensures b0 < 0x800_0000 && b1 < 0x800_0040 && b2 < 0x800_0000 && b3 < 0x800_0000 && b4 < 0x800_0000
      ensures Limbs([b0, b1, b2, b3, b4])
           == Limbs([a0, a1, a2, a3, a4]) + LE(m) + if hibit == 0 then 0 else TOP
    {
      BlockLimbs(m);
      JoinHighBit(LoadLE32(m, 12) / 256, hibit);
      b0 := a0 + LoadLE32(m, 0) % 0x400_0000;
      b1 := a1 + LoadLE32(m, 3) / 4 % 0x400_0000;
      b2 := a2 + LoadLE32(m, 6) / 16 % 0x400_0000;
      b3 := a3 + LoadLE32(m, 9) / 64 % 0x400_0000;
      b4 := a4 + Or(LoadLE32(m, 12) / 256, hibit);
      LimbsValue(a0, a1, a2, a3, a4);
      LimbsValue(b0, b1, b2, b3, b4);
      assert W104 * 0x100_0000 == TOP;
    }

    static method Multiply(b0: u32, b1: u32, b2: u32, b3: u32, b4: u32,
                           r0: u32, r1: u32, r2: u32, r3: u32, r4: u32)
      returns (h0: u32, h1: u32, h2: u32, h3: u32, h4: u32)
      requires b0 < 0x800_0000 && b1 < 0x800_0040 && b2 < 0x800_0000 && b3 < 0x800_0000 && b4 < 0x800_0000
      requires LimbsBelow(r0, r1, r2, r3, r4)
      ensures Bounded(h0, h1, h2, h3, h4)
      ensures Limbs([h0, h1, h2, h3, h4]) % P
           == Limbs([b0, b1, b2, b3, b4]) * Limbs([r0, r1, r2, r3, r4]) % P
    {
      var s1: u32, s2: u32, s3: u32, s4: u32 := r1 * 5, r2 * 5, r3 * 5, r4 * 5;
      var d0, d1, d2, d3, d4 := Products(b0, b1, b2, b3, b4, r0, r1, r2, r3, r4, s1, s2, s3, s4);
      h0, h1, h2, h3, h4 := Carry(d0, d1, d2, d3, d4);
      LimbsValue(h0, h1, h2, h3, h4);
      LimbsValue(b0, b1, b2, b3, b4);
      LimbsValue(r0, r1, r2, r3, r4);
    }

    static method Products(b0: int, b1: int, b2: int, b3: int, b4: int,
                           r0: int, r1: int, r2: int, r3: int, r4: int,
                           s1: int, s2: int, s3: int, s4: int)
      returns (d0: u64, d1: u64, d2: u64, d3: u64, d4: u64)
      requires 0 <= b0 < 0x800_0000 && 0 <= b1 < 0x800_0040 && 0 <= b2 < 0x800_0000
      requires 0 <= b3 < 0x800_0000 && 0 <= b4 < 0x800_0000
      requires LimbsBelow(r0, r1, r2, r3, r4)
      requires s1 == r1 * 5 && s2 == r2 * 5 && s3 == r3 * 5 && s4 == r4 * 5
      ensures d0 <= 0x1400_0000 * 0x2800_0040 && d1 <= 0x1400_0000 * 0x2800_0040
      ensures d2 <= 0x1400_0000 * 0x2800_0040 && d3 <= 0x1400_0000 * 0x2800_0040
      ensures d4 <= 0x400_0000 * 0x2800_0040
      ensures Value(d0, d1, d2, d3, d4) % P == Value(b0, b1, b2, b3, b4) * Value(r0, r1, r2, r3, r4) % P
    {
      Columns(b0, b1, b2, b3, b4, r0, r1, r2, r3, r4, s1, s2, s3, s4);
      ColumnBound(b0, b1, b2, b3, b4, r0, s4, s3, s2, s1);
      ColumnBound(b0, b1, b2, b3, b4, r1, r0, s4, s3, s2);
      ColumnBound(b0, b1, b2, b3, b4, r2, r1, r0, s4, s3);
      ColumnBound(b0, b1, b2, b3, b4, r3, r2, r1, r0, s4);
      LastColumnBound(b0, b1, b2, b3, b4, r4, r3, r2, r1, r0);
      d0 := Dot(b0, b1, b2, b3, b4, r0, s4, s3, s2, s1);
      d1 := Dot(b0, b1, b2, b3, b4, r1, r0, s4, s3, s2);
      d2 := Dot(b0, b1, b2, b3, b4, r2, r1, r0, s4, s3);
      d3 := Dot(b0, b1, b2, b3, b4, r3, r2, r1, r0, s4);
      d4 := Dot(b0, b1, b2, b3, b4, r4, r3, r2, r1, r0);
    }

    /** The carry pass of the block loop: the 32-bit carries lose nothing. */
    static method Carry(x0: int, x1: int, x2: int, x3: int, x4: int)
      returns (h0: u32, h1: u32, h2: u32, h3: u32, h4: u32)
      requires 0 <= x0 <= 0x1400_0000 * 0x2800_0040 && 0 <= x1 <= 0x1400_0000 * 0x2800_0040
      requires 0 <= x2 <= 0x1400_0000 * 0x2800_0040 && 0 <= x3 <= 0x1400_0000 * 0x2800_0040
      requires 0 <= x4 <= 0x400_0000 * 0x2800_0040
      ensures Bounded(h0, h1, h2, h3, h4)
      ensures Value(h0, h1, h2, h3, h4) % P == Value(x0, x1, x2, x3, x4) % P
    {
      var c0: u32 := x0 / 0x400_0000;
      var d1: u64 := x1 + c0 as int;
      var c1: u32 := d1 / 0x400_0000;
      var d2: u64 := x2 + c1 as int;
      var c2: u32 := d2 / 0x400_0000;
      var d3: u64 := x3 + c2 as int;
      var c3: u32 := d3 / 0x400_0000;
      var d4: u64 := x4 + c3 as int;
      var c4: u32 := d4 / 0x400_0000;
      LowWord(x0); LowWord(d1); LowWord(d2); LowWord(d3); LowWord(d4);
      var c5: u32 := c4 as int * 5;
      var t0: u32 := x0 % 0x1_0000_0000 % 0x400_0000 + c5 as int;
      h0 := t0 % 0x400_0000;
      h1 := d1 % 0x1_0000_0000 % 0x400_0000 + t0 / 0x400_0000;
      h2 := d2 % 0x1_0000_0000 % 0x400_0000;
      h3 := d3 % 0x1_0000_0000 % 0x400_0000;
      h4 := d4 % 0x1_0000_0000 % 0x400_0000;
      CarryPass(x0, x1, x2, x3, x4, x0 % 0x400_0000, d1 % 0x400_0000, h2, h3, h4,
                c0, c1, c2, c3, c4, h0, t0 / 0x400_0000);
    }

    /** Feeds more message bytes; how the message is cut into calls does not matter. */
    method Update(data: bytes)
      requires Valid()
      modifies this, h, buffer
      ensures Valid() && fed == old(fed) + data
    {
      var m := data;
      ghost var start := fed;
      if leftover > 0 {
        var want := Min(16 - leftover, |m|);
        m := data[want..];
        assert start + data == (start + data[..want]) + m;
        FillBuffer(data[..want]);
        if leftover < 16 {
          return;
        }
        FlushBuffer();
      }
      UpdateAligned(m);
    }

    method FillBuffer(part: bytes)
      requires Valid() && 0 < leftover && leftover + |part| <= 16
      modifies `leftover, `fed, buffer
      ensures Shape() && fed == old(fed) + part && leftover == old(leftover) + |part|
      ensures leftover < 16 ==> Valid()
      ensures fed == done + buffer[..leftover]
    {
      var start := leftover;
      ghost var before := buffer[..start];
      forall i | 0 <= i < |part| { buffer[start + i] := part[i]; }
      leftover := leftover + |part|;
      assert buffer[..leftover] == before + part;
      assert done + (before + part) == (done + before) + part;
      fed := fed + part;
    }

    method FlushBuffer()
      requires Shape() && !final && leftover == 16 && |done| % 16 == 0
      requires fed == done + buffer[..16]
      requires Acc() % P == Absorb(done, TOP, Clamp(key[..16]), 0) % P
      modifies `leftover, `done, h
      ensures Valid() && leftover == 0
    {
      assert buffer[..] == buffer[..16];
      AbsorbBlocks(buffer[..]);
      leftover := 0;
      assert buffer[..0] == [] && fed == fed + [];
    }

    /** Blocks, while the message continues: the accumulator follows the recurrence. */
    method AbsorbBlocks(m: bytes)
      requires Shape() && !final && |m| % 16 == 0 && |done| % 16 == 0
      requires Acc() % P == Absorb(done, TOP, Clamp(key[..16]), 0) % P
      modifies `done, h
      ensures Shape() && done == old(done) + m
      ensures Acc() % P == Absorb(done, TOP, Clamp(key[..16]), 0) % P
    {
      Blocks(m);
      AbsorbMore(done, m, Clamp(key[..16]), old(Acc()), Acc());
      done := done + m;
    }

    /** The rest of Update, once the buffer is empty. */
    method UpdateAligned(m: bytes)
      requires Valid() && leftover == 0
      modifies this, h, buffer
      ensures Valid() && fed == old(fed) + m
    {
      var want := |m| - |m| % 16;
      var head, tail := m[..want], m[want..];
      ghost var start := fed;
      if |m| >= 16 {
        UpdateWhole(head);
      }
      assert fed == start + head;
      StoreTail(tail);
      assert start + (head + tail) == (start + head) + tail && m == head + tail;
    }

    method UpdateWhole(m: bytes)
      requires Valid() && leftover == 0 && |m| % 16 == 0
      modifies h, `fed, `done
      ensures Valid() && fed == old(fed) + m
    {
      hide Absorb, Clamp, LE, LimbsBelow, Bounded;
      assert buffer[..0] == [] && fed == done;
      AbsorbBlocks(m);
      fed := fed + m;
      assert fed == done + buffer[..leftover];
    }

    method StoreTail(rest: bytes)
      requires Valid() && leftover == 0 && |rest| < 16
      modifies this, buffer
      ensures Valid() && fed == old(fed) + rest
    {
      assert buffer[..0] == [] && fed == done;
      forall i | 0 <= i < |rest| { buffer[i] := rest[i]; }
      leftover := |rest|;
      fed := fed + rest;
      assert buffer[..leftover] == rest;
    }

    /** The tag of everything fed so far. */
    method Finish() returns (mac: bytes)
      requires Valid()
      modifies this, h, buffer
      ensures mac == Tag(key, fed) && fed == old(fed)
    {
      FinishBlocks();
      mac := Reduce(h[0], h[1], h[2], h[3], h[4], pad[0], pad[1], pad[2], pad[3]);
    }

    method FinishBlocks()
      requires Valid()
      modifies this, h, buffer
      ensures Shape() && fed == old(fed)
      ensures Acc() % P == Accumulate(fed, Clamp(key[..16]), 0)
    {
      ghost var part := buffer[..leftover];
      if leftover > 0 {
        MarkEnd();
        Blocks(buffer[..]);
      }
      LastBlock(done, part, Clamp(key[..16]), old(Acc()), Acc());
    }

    /** Puts the final 1 marker and zeros behind the partial block. */
    method MarkEnd()
      requires Shape() && !final && 0 < leftover < 16
      modifies buffer, `final
      ensures Shape() && final
      ensures buffer[..] == old(buffer[..leftover]) + [1] + Zeros(15 - leftover)
    {
      var i := leftover;
      buffer[i] := 1;
      forall k | i < k < 16 { buffer[k] := 0; }
      final := true;
    }

    /** The arithmetic of Finish: full reduction, repacking and the final addition. */
    static method Reduce(a0: u32, a1: u32, a2: u32, a3: u32, a4: u32, p0: u32, p1: u32, p2: u32, p3: u32)
      returns (mac: bytes)
      requires Bounded(a0, a1, a2, a3, a4)
      ensures mac == LEBytes(Limbs([a0, a1, a2, a3, a4]) % P + Quads([p0, p1, p2, p3]), 16)
    {
      var h0, h1, h2, h3, h4 := LastCarry(a0, a1, a2, a3, a4);
      h0, h1, h2, h3, h4 := Select(h0, h1, h2, h3, h4);
      mac := Output(h0, h1, h2, h3, h4, p0, p1, p2, p3);
      LimbsValue(a0, a1, a2, a3, a4);
    }

    static method LastCarry(a0: int, a1: int, a2: int, a3: int, a4: int)
      returns (h0: u32, h1: u32, h2: u32, h3: u32, h4: u32)
      requires Bounded(a0, a1, a2, a3, a4)
      ensures LimbsBelow(h0, h1, h2, h3, h4)
      ensures Value(h0, h1, h2, h3, h4) % P == Value(a0, a1, a2, a3, a4) % P
    {
      var c1: u32, m1: u32 := a1 / 0x400_0000, a1 % 0x400_0000;
      var t2: u32 := a2 + c1 as int;
      var c2: u32 := t2 / 0x400_0000;
      var t3: u32 := a3 + c2 as int;
      var c3: u32 := t3 / 0x400_0000;
      var t4: u32 := a4 + c3 as int;
      var c4: u32 := t4 / 0x400_0000;
      var t0: u32 := a0 + c4 as int * 5;
      var c0: u32 := t0 / 0x400_0000;
      h0, h2, h3, h4 := t0 % 0x400_0000, t2 % 0x400_0000, t3 % 0x400_0000, t4 % 0x400_0000;
      FinalCarryBounds(a0, a1, a2, a3, a4, m1, h2, h3, h4, c1, c2, c3, c4, h0, c0);
      h1 := m1 as int + c0 as int;
      CarryPass(a0, a1, a2, a3, a4, a0, m1, h2, h3, h4, 0, c1, c2, c3, c4, h0, c0);
    }

    /** The masked choice between h and h - P. */
    static method Select(a0: int, a1: int, a2: int, a3: int, a4: int)
      returns (h0: u32, h1: u32, h2: u32, h3: u32, h4: u32)
      requires LimbsBelow(a0, a1, a2, a3, a4)
      ensures LimbsBelow(h0, h1, h2, h3, h4)
      ensures Value(h0, h1, h2, h3, h4) == Value(a0, a1, a2, a3, a4) % P
    {
      FinalSubtract(a0, a1, a2, a3, a4);
      var g0: u32 := a0 + 5;
      var c: u32 := g0 / 0x400_0000;
      var g1: u32 := a1 + c as int;
      c := g1 / 0x400_0000;
      var g2: u32 := a2 + c as int;
      c := g2 / 0x400_0000;
      var g3: u32 := a3 + c as int;
      c := g3 / 0x400_0000;
      var g4: u32 := (a4 + c as int + 0x1_0000_0000 - 0x400_0000) % 0x1_0000_0000;
      g0, g1, g2, g3 := g0 % 0x400_0000, g1 % 0x400_0000, g2 % 0x400_0000, g3 % 0x400_0000;

      var mask: u32 := (g4 / 0x8000_0000 + 0xffff_ffff) % 0x1_0000_0000;
      var keep: u32 := 0xffff_ffff - mask as int;
      MaskOfTop(a4 + c as int);
      h0 := Blend(a0, g0, mask, keep);
      h1 := Blend(a1, g1, mask, keep);
      h2 := Blend(a2, g2, mask, keep);
      h3 := Blend(a3, g3, mask, keep);
      h4 := Blend(a4, g4, mask, keep);
    }

    static method Blend(a: u32, g: u32, mask: u32, keep: u32) returns (h: u32)
      requires mask == 0 || mask == 0xffff_ffff
      requires keep == 0xffff_ffff - mask
      ensures h == if mask == 0 then a else g
    {
      MaskSelect(a, g, mask, keep);
      h := Or(And(a, keep), And(g, mask));
    }

    static method Output(h0: int, h1: int, h2: int, h3: int, h4: int, p0: u32, p1: u32, p2: u32, p3: u32)
      returns (mac: bytes)
      requires LimbsBelow(h0, h1, h2, h3, h4)
      ensures mac == LEBytes(Value(h0, h1, h2, h3, h4) + Quads([p0, p1, p2, p3]), 16)
    {
      var w0, w1, w2, w3 := Repack(h0, h1, h2, h3, h4);
      mac := AddWords(w0, w1, w2, w3, p0, p1, p2, p3, h4 / 0x100_0000,
                      Value(h0, h1, h2, h3, h4), Quads([p0, p1, p2, p3]));
    }

    static method Repack(h0: int, h1: int, h2: int, h3: int, h4: int)
      returns (w0: u32, w1: u32, w2: u32, w3: u32)
      requires LimbsBelow(h0, h1, h2, h3, h4)
      ensures Value(h0, h1, h2, h3, h4)
           == w0 + TWO32 * w1 + TWO64 * w2 + TWO96 * w3 + TOP * (h4 / 0x100_0000)
    {
      RepackWords(h0, h1, h2, h3, h4);
      RepackValue(h0, h1, h2, h3, h4);
      w0 := Or(h0, h1 * 0x400_0000 % 0x1_0000_0000);
      w1 := Or(h1 / 0x40, h2 * 0x10_0000 % 0x1_0000_0000);
      w2 := Or(h2 / 0x1000, h3 * 0x4000 % 0x1_0000_0000);
      w3 := Or(h3 / 0x4_0000, h4 * 0x100 % 0x1_0000_0000);
    }

    static method AddWords(w0: int, w1: int, w2: int, w3: int, p0: u32, p1: u32, p2: u32, p3: u32,
                           ghost above: nat, ghost w: nat, ghost p: nat)
      returns (mac: bytes)
      requires 0 <= w0 < 0x1_0000_0000 && 0 <= w1 < 0x1_0000_0000
      requires 0 <= w2 < 0x1_0000_0000 && 0 <= w3 < 0x1_0000_0000
      requires w == w0 + TWO32 * w1 + TWO64 * w2 + TWO96 * w3 + TOP * above
      requires p == Quads([p0, p1, p2, p3])
      ensures mac == LEBytes(w + p, 16)
    {
      var f: u64 := w0 + p0 as int;
      var o0: u32, c0: u32 := f % 0x1_0000_0000, f / 0x1_0000_0000;
      f := w1 + p1 as int + c0 as int;
      var o1: u32, c1: u32 := f % 0x1_0000_0000, f / 0x1_0000_0000;
      f := w2 + p2 as int + c1 as int;
      var o2: u32, c2: u32 := f % 0x1_0000_0000, f / 0x1_0000_0000;
      f := w3 + p3 as int + c2 as int;
      var o3: u32 := f % 0x1_0000_0000;
      QuadsValue(p0, p1, p2, p3);
      hide LEBytes, Quads;
      AddPad(w0, w1, w2, w3, p0, p1, p2, p3, o0, o1, o2, o3, c0, c1, c2, f / 0x1_0000_0000, above, w + p);
      mac := LEBytes(o0, 4) + LEBytes(o1, 4) + LEBytes(o2, 4) + LEBytes(o3, 4);
    }
  }

  /** Truncating a 64-bit word to 32 bits first does not change its low 26 bits. */
  lemma LowWord(x: nat)
    ensures x % 0x1_0000_0000 % 0x400_0000 == x % 0x400_0000
  {
    assert x % 0x1_0000_0000 == x - 0x400_0000 * (64 * (x / 0x1_0000_0000));
    AddMultiple(x % 0x1_0000_0000, 64 * (x / 0x1_0000_0000), 0x400_0000);
  }

  lemma JoinHighBit(x: nat, hibit: nat)
    requires x < 0x100_0000 && (hibit == 0 || hibit == 0x100_0000)
    ensures Or(x, hibit) == x + hibit
  {
    Pow2TwentySix();
    OrDisjoint(x, hibit / 0x100_0000, 24);
  }
}
