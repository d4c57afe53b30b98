/** Machine words as bounded integers.

    Bytes, 32-bit and 64-bit words are subset types of `int`, so storing a value in a variable of
    one of these types is a proof that nothing overflowed.  Wrap-around is written out with `%`.
    The bitwise operators are defined bit by bit on naturals; the lemmas say when they coincide
    with `%`, `/` and `+`. */
module Words {

  type byte = x: int | 0 <= x < 0x100
  type u32 = x: int | 0 <= x < 0x1_0000_0000
  type u64 = x: int | 0 <= x < 0x1_0000_0000_0000_0000
  type bytes = seq<byte>

  const TWO32: nat := 0x1_0000_0000
  const TWO64: nat := 0x1_0000_0000_0000_0000

  datatype Option<+T> = None | Some(value: T)

  function Min(a: nat, b: nat): nat { if a <= b then a else b }

  function Max(a: nat, b: nat): nat { if a <= b then b else a }

  // ---- powers ----------------------------------------------------------------

  function Pow2(n: nat): (r: nat)
    ensures r >= 1
  {
    if n == 0 then 1 else 2 * Pow2(n - 1)
  }

  lemma {:induction false} Pow2Add(a: nat, b: nat)
    ensures Pow2(a + b) == Pow2(a) * Pow2(b)
  {
    if a > 0 {
      Pow2Add(a - 1, b);
      assert Pow2(a + b) == 2 * (Pow2(a - 1) * Pow2(b));
    }
  }

  lemma {:induction false} Pow2Monotone(a: nat, b: nat)
    requires a <= b
    ensures Pow2(a) <= Pow2(b)
    decreases b
  {
    if a < b {
      Pow2Monotone(a, b - 1);
    }
  }

  lemma DivNat(x: nat, p: nat)
    requires p > 0
    ensures x / p >= 0
  {}

  function ShiftRight(x: nat, n: nat): nat {
    DivNat(x, Pow2(n));
    x / Pow2(n)
  }

  function ShiftLeft(x: nat, n: nat): nat {
    assert x * Pow2(n) >= 0;
    x * Pow2(n)
  }

  /** A 32-bit left shift: the bits pushed out are lost. */
  function ShiftLeft32(x: u32, n: nat): u32 {
    x * Pow2(n) % 0x1_0000_0000
  }

  // ---- bitwise operators -----------------------------------------------------

  function And(a: nat, b: nat): nat {
    if a == 0 || b == 0 then 0 else (a % 2) * (b % 2) + 2 * And(a / 2, b / 2)
  }

  function Or(a: nat, b: nat): nat {
    if a == 0 && b == 0 then 0 else Max(a % 2, b % 2) + 2 * Or(a / 2, b / 2)
  }

  function Xor(a: nat, b: nat): nat {
    if a == 0 && b == 0 then 0 else (a % 2 + b % 2) % 2 + 2 * Xor(a / 2, b / 2)
  }

  lemma ScaleByPow2(y: nat, k: nat)
    requires k > 0
    ensures y * Pow2(k) == 2 * (y * Pow2(k - 1))
  {}

  lemma {:induction false} Halve(x: nat, k: nat, y: nat)
    requires k > 0
    ensures (x + y * Pow2(k)) % 2 == x % 2
    ensures (x + y * Pow2(k)) / 2 == x / 2 + y * Pow2(k - 1)
  {
    var z := y * Pow2(k - 1);
    assert y * Pow2(k) == 2 * z;
  }

  /** A conjunction can be taken limb by limb. */
  lemma {:induction false} AndSplit(a: nat, b: nat, c: nat, d: nat, k: nat)
    requires a < Pow2(k) && c < Pow2(k)
    ensures And(a + b * Pow2(k), c + d * Pow2(k)) == And(a, c) + And(b, d) * Pow2(k)
    decreases k
  {
    if k == 0 {
      hide And;
      assert a == 0 && c == 0 && b * Pow2(k) == b && d * Pow2(k) == d && And(b, d) * Pow2(k) == And(b, d);
      AndZero(a);
    } else {
      hide And, Pow2;
      HalfBelow(a, k);
      HalfBelow(c, k);
      AndSplit(a / 2, b, c / 2, d, k - 1);
      AndDoubled(a, c, b * Pow2(k - 1), d * Pow2(k - 1), And(b, d) * Pow2(k - 1));
      ScaleByPow2(b, k);
      ScaleByPow2(d, k);
      ScaleByPow2(And(b, d), k);
    }
  }

  /** What is added above the lowest bit of both numbers. */
  lemma AndDoubled(a: nat, c: nat, b: nat, d: nat, m: nat)
    requires And(a / 2 + b, c / 2 + d) == And(a / 2, c / 2) + m
    ensures And(a + 2 * b, c + 2 * d) == And(a, c) + 2 * m
  {
    hide And;
    var x, y := a + 2 * b, c + 2 * d;
    assert x % 2 == a % 2 && x / 2 == a / 2 + b && y % 2 == c % 2 && y / 2 == c / 2 + d;
    AndBits(x, y);
    AndBits(a, c);
  }

  lemma HalfBelow(a: nat, k: nat)
    requires k > 0 && a < Pow2(k)
    ensures a / 2 < Pow2(k - 1)
  {}

  lemma {:induction false} AndZero(a: nat)
    ensures And(a, 0) == 0 && And(0, a) == 0
  {}

  lemma {:induction false} AndBits(a: nat, b: nat)
    ensures And(a, b) == (a % 2) * (b % 2) + 2 * And(a / 2, b / 2)
  {
    if a == 0 || b == 0 {
      AndZero(a / 2);
      AndZero(b / 2);
    }
  }

  /** Masking with k one bits is the remainder modulo 2^k. */
  lemma {:induction false} AndOnes(a: nat, k: nat)
    ensures And(a, Pow2(k) - 1) == a % Pow2(k)
    decreases k
  {
    if k > 0 {
      hide And;
      AndBits(a, Pow2(k) - 1);
      AndOnes(a / 2, k - 1);
      ModTwice(a, Pow2(k - 1));
    }
  }

  lemma ModUnique(a: int, m: int, q: int, p: int)
    requires p > 0 && 0 <= m < p && a == m + q * p
    ensures a % p == m && a / p == q
  {
    var q', m' := a / p, a % p;
    Distribute(q' - q, q, p);
    if q' > q {
      MulAtLeast(q' - q, p);
    } else if q' < q {
      Distribute(q - q', q', p);
      MulAtLeast(q - q', p);
    }
  }

  lemma Distribute(a: int, b: int, p: int)
    ensures (a + b) * p == a * p + b * p
  {}

  lemma MulGrows(a: nat, b: nat, q: nat)
    requires a <= b
    ensures a * q <= b * q
  {
    Distribute(a, b - a, q);
    assert (b - a) * q >= 0;
  }

  lemma MulAtLeast(d: int, p: int)
    requires d >= 1 && p >= 0
    ensures d * p >= p
  {}

  lemma ModTwice(a: nat, p: nat)
    requires p > 0
    ensures a % (2 * p) == a % 2 + 2 * (a / 2 % p)
  {
    var h, q := a / 2, a / 2 / p;
    assert h == q * p + h % p;
    assert q * (2 * p) == 2 * (q * p);
    ModUnique(a, a % 2 + 2 * (h % p), q, 2 * p);
  }

  lemma {:induction false} OrZero(a: nat)
    ensures Or(a, 0) == a && Or(0, a) == a
  {
    if a > 0 {
      OrZero(a / 2);
    }
  }

  /** Two words that occupy disjoint bit ranges are joined by addition. */
  lemma {:induction false} OrDisjoint(a: nat, b: nat, k: nat)
    requires a < Pow2(k)
    ensures Or(a, b * Pow2(k)) == a + b * Pow2(k)
    decreases k
  {
    if k == 0 {
      OrZero(b);
    } else {
      Halve(0, k, b);
      OrDisjoint(a / 2, b, k - 1);
      Halve(a, k, b);
    }
  }

  lemma {:induction false} OrIsZero(a: nat, b: nat)
    ensures Or(a, b) == 0 <==> a == 0 && b == 0
  {
    if a != 0 || b != 0 {
      OrIsZero(a / 2, b / 2);
    }
  }

  lemma {:induction false} OrBound(a: nat, b: nat, k: nat)
    requires a < Pow2(k) && b < Pow2(k)
    ensures Or(a, b) < Pow2(k)
    decreases k
  {
    if k > 0 {
      OrBound(a / 2, b / 2, k - 1);
    }
  }

  lemma {:induction false} XorBound(a: nat, b: nat, k: nat)
    requires a < Pow2(k) && b < Pow2(k)
    ensures Xor(a, b) < Pow2(k)
    decreases k
  {
    if k > 0 {
      XorBound(a / 2, b / 2, k - 1);
    }
  }

  lemma {:induction false} XorBits(a: nat, b: nat)
    ensures Xor(a, b) == (a % 2 + b % 2) % 2 + 2 * Xor(a / 2, b / 2)
  {}

  lemma XorParts(a: nat, b: nat)
    ensures Xor(a, b) % 2 == (a % 2 + b % 2) % 2 && Xor(a, b) / 2 == Xor(a / 2, b / 2)
  {
    XorBits(a, b);
    Parts(Xor(a, b), (a % 2 + b % 2) % 2, Xor(a / 2, b / 2));
  }

  lemma Parts(x: nat, p: nat, t: nat)
    requires p < 2 && x == p + 2 * t
    ensures x % 2 == p && x / 2 == t
  {}

  lemma ParityTwice(p: int, q: int)
    requires 0 <= p < 2 && 0 <= q < 2
    ensures ((p + q) % 2 + q) % 2 == p
  {}

  /** XOR with the same word twice is the identity. */
  lemma {:induction false} XorInvolution(a: nat, b: nat)
    ensures Xor(Xor(a, b), b) == a
  {
    if a != 0 || b != 0 {
      XorInvolution(a / 2, b / 2);
      XorParts(a, b);
      XorBits(Xor(a, b), b);
      ParityTwice(a % 2, b % 2);
    }
  }

  lemma {:induction false} XorIsZero(a: nat, b: nat)
    ensures Xor(a, b) == 0 <==> a == b
  {
    if a != 0 || b != 0 {
      XorIsZero(a / 2, b / 2);
    }
  }

  function XorByte(a: byte, b: byte): (r: byte)
    ensures Xor(a, b) == r
  {
    assert Pow2(8) == 256;
    XorBound(a, b, 8);
    Xor(a, b)
  }

  function XorWord(a: u32, b: u32): (r: u32)
    ensures Xor(a, b) == r
  {
    Pow2Word();
    XorBound(a, b, 32);
    Xor(a, b)
  }

  lemma Pow2Word()
    ensures Pow2(8) == 0x100 && Pow2(16) == 0x1_0000 && Pow2(32) == TWO32 && Pow2(64) == TWO64
  {
    Pow2Double(8, 0x100);
    Pow2Double(16, 0x1_0000);
    Pow2Double(32, 0x1_0000_0000);
  }

  lemma Pow2Double(n: nat, v: nat)
    requires Pow2(n) == v
    ensures Pow2(2 * n) == v * v
  {
    Pow2Add(n, n);
  }

  // ---- little-endian numbers -------------------------------------------------

  /** The number a byte string denotes, least significant byte first. */
  function LE(s: bytes): nat {
    if s == [] then 0 else s[0] + 256 * LE(s[1..])
  }

  /** The n low bytes of v, least significant first. */
  function LEBytes(v: nat, n: nat): (s: bytes)
    ensures |s| == n
  {
    if n == 0 then [] else [v % 256] + LEBytes(v / 256, n - 1)
  }

  function Pow256(n: nat): (r: nat)
    ensures r >= 1
  {
    if n == 0 then 1 else 256 * Pow256(n - 1)
  }

  lemma {:induction false} Pow256Is(n: nat)
    ensures Pow256(n) == Pow2(8 * n)
  {
    if n > 0 {
      Pow256Is(n - 1);
      Pow2Add(8, 8 * (n - 1));
      assert 8 * n == 8 + 8 * (n - 1);
    }
  }

  lemma {:induction false} LEBound(s: bytes)
    ensures LE(s) < Pow256(|s|)
  {
    if s != [] {
      LEBound(s[1..]);
    }
  }

  lemma {:induction false} LEAppend(a: bytes, b: bytes)
    ensures LE(a + b) == LE(a) + Pow256(|a|) * LE(b)
  {
    if a == [] {
      assert a + b == b;
    } else {
      var t := a + b;
      assert t[0] == a[0] && t[1..] == a[1..] + b;
      LEAppend(a[1..], b);
      Shift(Pow256(|a[1..]|), LE(b));
      assert LE(t) == a[0] + 256 * LE(t[1..]) && LE(a) == a[0] + 256 * LE(a[1..]);
    }
  }

  lemma Shift(p: nat, x: nat)
    ensures (256 * p) * x == 256 * (p * x)
  {}

  /** Reading back what was written gives the value modulo the width. */
  lemma {:induction false} LEOfBytes(v: nat, n: nat)
    ensures LE(LEBytes(v, n)) == v % Pow256(n)
    decreases n
  {
    if n > 0 {
      var s := LEBytes(v, n);
      assert s[0] == v % 256 && s[1..] == LEBytes(v / 256, n - 1);
      assert LE(s) == s[0] + 256 * LE(s[1..]);
      hide LE, LEBytes;
      LEOfBytes(v / 256, n - 1);
      ModBytes(v, Pow256(n - 1));
    }
  }

  lemma ModBytes(v: nat, p: nat)
    requires p > 0
    ensures v % (256 * p) == v % 256 + 256 * ((v / 256) % p)
  {
    var w := v / 256;
    var q, m := w / p, w % p;
    assert w == q * p + m;
    assert 256 * (q * p) == q * (256 * p);
    ModUnique(v, 256 * m + v % 256, q, 256 * p);
  }

  lemma {:induction false} BytesOfLE(s: bytes)
    ensures LEBytes(LE(s), |s|) == s
  {
    if s != [] {
      hide LE;
      BytesOfLE(s[1..]);
      FirstByteOfLE(s);
      assert s == [s[0]] + s[1..];
    }
  }

  lemma FirstByteOfLE(s: bytes)
    requires s != []
    ensures LE(s) % 256 == s[0] && LE(s) / 256 == LE(s[1..])
  {}

  lemma DropByte(lo: nat, hi: nat, p: nat)
    ensures (lo + hi * (256 * p)) % 256 == lo % 256
    ensures (lo + hi * (256 * p)) / 256 == lo / 256 + hi * p
  {
    assert hi * (256 * p) == 256 * (hi * p);
  }

  /** Writing a number in two pieces. */
  lemma {:induction false} LEBytesSplit(lo: nat, hi: nat, m: nat, n: nat)
    requires lo < Pow256(m)
    ensures LEBytes(lo + hi * Pow256(m), m + n) == LEBytes(lo, m) + LEBytes(hi, n)
    decreases m
  {
    if m > 0 {
      var p := Pow256(m - 1);
      DropByte(lo, hi, p);
      LEBytesSplit(lo / 256, hi, m - 1, n);
      assert m - 1 + n == m + n - 1;
    }
  }

  /** Only the low bytes of a number are written. */
  lemma {:induction false} LEBytesMod(v: nat, n: nat)
    ensures LEBytes(v % Pow256(n), n) == LEBytes(v, n)
  {
    LEOfBytes(v, n);
    BytesOfLE(LEBytes(v, n));
  }

  lemma {:induction false} LEBytesInjective(a: nat, b: nat, n: nat)
    requires a < Pow256(n) && b < Pow256(n)
    requires LEBytes(a, n) == LEBytes(b, n)
    ensures a == b
  {
    LEOfBytes(a, n);
    LEOfBytes(b, n);
    ModUnique(a, a, 0, Pow256(n));
    ModUnique(b, b, 0, Pow256(n));
  }

  /** A byte string of n zeros. */
  function Zeros(n: nat): (s: bytes)
    ensures |s| == n
  {
    seq(n, _ => 0)
  }

  function Word(a: byte, b: byte, c: byte, d: byte): u32 {
    a as int + 0x100 * (b as int) + 0x1_0000 * (c as int) + 0x100_0000 * (d as int)
  }

  function LoadLE32(m: bytes, i: nat): u32
    requires i + 4 <= |m|
  {
    Word(m[i], m[i + 1], m[i + 2], m[i + 3])
  }

  lemma LoadIsLE(m: bytes, i: nat)
    requires i + 4 <= |m|
    ensures LoadLE32(m, i) == LE(m[i..i + 4])
  {
    var s := m[i..i + 4];
    assert s[1..][1..] == s[2..] && s[2..][1..] == s[3..] && s[3..][1..] == [];
    assert LE(s) == s[0] + 256 * LE(s[1..]) && LE(s[1..]) == s[1] + 256 * LE(s[2..])
        && LE(s[2..]) == s[2] + 256 * LE(s[3..]) && LE(s[3..]) == s[3];
  }
}
