/** ChaCha20 in counter mode (client/src/crypto/crypto.cpp:8-66), section 2.3 and 2.4 of RFC 8439. */
module ChaCha20 {
  import opened Words

  // ---- the core --------------------------------------------------------------

  function Rotl32(x: u32, n: nat): (r: u32)
    requires 0 < n < 32
    ensures r == Low(x, n) * Pow2(n) + ShiftRight(x, 32 - n)
  {
    RotateIsSum(x, n);
    Or(ShiftLeft32(x, n), ShiftRight(x, 32 - n))
  }

  /** The part of the word that a rotation by n moves up. */
  function Low(x: u32, n: nat): nat
    requires n < 32
  {
    x % Pow2(32 - n)
  }

  /** A rotation moves the two parts of the word past each other: no bit is lost. */
  lemma RotateIsSum(x: u32, n: nat)
    requires 0 < n < 32
    ensures Or(ShiftLeft32(x, n), ShiftRight(x, 32 - n)) == Low(x, n) * Pow2(n) + ShiftRight(x, 32 - n)
    ensures Low(x, n) * Pow2(n) + ShiftRight(x, 32 - n) < 0x1_0000_0000
  {
    hide Or, Pow2;
    Pow2Add(n, 32 - n);
    Pow2Word();
    RotateParts(x, Pow2(n), Pow2(32 - n), 0x1_0000_0000);
    JoinRotated(Low(x, n), ShiftRight(x, 32 - n), n);
  }

  lemma JoinRotated(lo: nat, hi: nat, n: nat)
    requires hi < Pow2(n)
    ensures Or(lo * Pow2(n), hi) == lo * Pow2(n) + hi
  {
    OrCommute(lo * Pow2(n), hi);
    OrDisjoint(hi, lo, n);
  }

  lemma RotateParts(x: nat, p: nat, q: nat, w: nat)
    requires p > 0 && q > 0 && p * q == w && x < w
    ensures x / q < p && (x % q) * p + x / q < w && x * p % w == (x % q) * p
  {
    var lo, hi := x % q, x / q;
    assert x == hi * q + lo;
    if hi >= p {
      MulGrows(p, hi, q);
      assert false;
    }
    MulGrows(lo, q - 1, p);
    Distribute(q - 1, 1, p);
    Regroup(hi, q, lo, p);
    ModUnique(x * p, lo * p, hi, w);
  }

  lemma Regroup(hi: nat, q: nat, lo: nat, p: nat)
    ensures (hi * q + lo) * p == hi * (p * q) + lo * p
  {
    Distribute(hi * q, lo, p);
  }

  lemma {:induction false} OrCommute(a: nat, b: nat)
    ensures Or(a, b) == Or(b, a)
  {
    if a != 0 || b != 0 {
      OrCommute(a / 2, b / 2);
    }
  }

  /** Rotating on by the remaining distance restores the word. */
  lemma RotateBack(x: u32, n: nat)
    requires 0 < n < 32
    ensures Rotl32(Rotl32(x, n), 32 - n) == x
  {
    hide Or, Pow2, Rotl32;
    var p, q := Pow2(n), Pow2(32 - n);
    var y := Rotl32(x, n);
    assert 32 - (32 - n) == n;
    Pow2Add(n, 32 - n);
    Pow2Word();
    RotateParts(x, p, q, 0x1_0000_0000);
    ModUnique(y, x / q, x % q, p);
  }

  function Add32(a: u32, b: u32): u32 { (a as int + b as int) % 0x1_0000_0000 }

  datatype Four = Four(a: u32, b: u32, c: u32, d: u32)

  /** Section 2.1 of RFC 8439. */
  function Quarter(q: Four): Four {
    var a := Add32(q.a, q.b);
    var d := Rotl32(XorWord(q.d, a), 16);
    var c := Add32(q.c, d);
    var b := Rotl32(XorWord(q.b, c), 12);
    var a' := Add32(a, b);
    var d' := Rotl32(XorWord(d, a'), 8);
    var c' := Add32(c, d');
    var b' := Rotl32(XorWord(b, c'), 7);
    Four(a', b', c', d')
  }

  function Sub32(a: u32, b: u32): u32 { (a as int + 0x1_0000_0000 - b as int) % 0x1_0000_0000 }

  function UndoQuarter(q: Four): Four {
    var b := XorWord(Rotl32(q.b, 25), q.c);
    var c := Sub32(q.c, q.d);
    var d := XorWord(Rotl32(q.d, 24), q.a);
    var a := Sub32(q.a, b);
    var b' := XorWord(Rotl32(b, 20), c);
    var c' := Sub32(c, d);
    var d' := XorWord(Rotl32(d, 16), a);
    var a' := Sub32(a, b');
    Four(a', b', c', d')
  }

  /** One add, xor, rotate line undone. */
  lemma UndoLine(x: u32, y: u32, n: nat)
    requires 0 < n < 32
    ensures XorWord(Rotl32(Rotl32(XorWord(x, y), n), 32 - n), y) == x
  {
    RotateBack(XorWord(x, y), n);
    XorInvolution(x, y);
  }

  lemma UndoAdd(a: u32, b: u32)
    ensures Sub32(Add32(a, b), b) == a
  {}

  /** The quarter round loses nothing: it can be run backwards. */
  lemma QuarterInvertible(q: Four)
    ensures UndoQuarter(Quarter(q)) == q
  {
    var a := Add32(q.a, q.b);
    var d := Rotl32(XorWord(q.d, a), 16);
    var c := Add32(q.c, d);
    var b := Rotl32(XorWord(q.b, c), 12);
    var a' := Add32(a, b);
    var d' := Rotl32(XorWord(d, a'), 8);
    var c' := Add32(c, d');
    UndoLine(b, c', 7);
    UndoAdd(c, d');
    UndoLine(d, a', 8);
    UndoAdd(a, b);
    UndoLine(q.b, c, 12);
    UndoAdd(q.c, d);
    UndoLine(q.d, a, 16);
    UndoAdd(q.a, q.b);
  }

  type State = s: seq<u32> | |s| == 16 witness seq(16, _ => 0)

  function QuarterRound(s: State, i: nat, j: nat, k: nat, l: nat): State
    requires i < 16 && j < 16 && k < 16 && l < 16
  {
    var q := Quarter(Four(s[i], s[j], s[k], s[l]));
    s[i := q.a][j := q.b][k := q.c][l := q.d]
  }

  datatype Columns = Columns(i: nat, j: nat, k: nat, l: nat)

  predicate Distinct(c: Columns) {
    && c.i < 16 && c.j < 16 && c.k < 16 && c.l < 16
    && c.i != c.j && c.i != c.k && c.i != c.l && c.j != c.k && c.j != c.l && c.k != c.l
  }

  type Round = c: Columns | Distinct(c) witness Columns(0, 1, 2, 3)

  function Apply(s: State, schedule: seq<Round>): State
    decreases |schedule|
  {
    if schedule == [] then s
    else
      var n := |schedule| - 1;
      var c := schedule[n];
      QuarterRound(Apply(s, schedule[..n]), c.i, c.j, c.k, c.l)
  }

  /** Section 2.3: one column round and one diagonal round. */
  const SCHEDULE: seq<Round> := [
    Columns(0, 4, 8, 12), Columns(1, 5, 9, 13), Columns(2, 6, 10, 14), Columns(3, 7, 11, 15),
    Columns(0, 5, 10, 15), Columns(1, 6, 11, 12), Columns(2, 7, 8, 13), Columns(3, 4, 9, 14)]

  function InnerBlock(s: State): State {
    Apply(s, SCHEDULE)
  }

  const DOUBLE_ROUNDS: nat := 10

  function Rounds(s: State, n: nat): State {
    if n == 0 then s else InnerBlock(Rounds(s, n - 1))
  }

  // ---- the rounds run backwards ------------------------------------------------

  function UndoRound(s: State, c: Round): State {
    var q := UndoQuarter(Four(s[c.i], s[c.j], s[c.k], s[c.l]));
    s[c.i := q.a][c.j := q.b][c.k := q.c][c.l := q.d]
  }

  function UndoApply(s: State, schedule: seq<Round>): State
    decreases |schedule|
  {
    if schedule == [] then s
    else
      var n := |schedule| - 1;
      UndoApply(UndoRound(s, schedule[n]), schedule[..n])
  }

  function UndoRounds(s: State, schedule: seq<Round>, n: nat): State
    decreases n
  {
    if n == 0 then s else UndoRounds(UndoApply(s, schedule), schedule, n - 1)
  }

  /** A quarter round on four words of the state is undone, and the other words were never touched. */
  lemma RoundUndone(s: State, c: Round)
    ensures UndoRound(QuarterRound(s, c.i, c.j, c.k, c.l), c) == s
  {
    hide Quarter, UndoQuarter;
    QuarterInvertible(Four(s[c.i], s[c.j], s[c.k], s[c.l]));
  }

  /** So is any sequence of them, whatever columns it takes. */
  lemma {:induction false} ScheduleUndone(s: State, schedule: seq<Round>)
    ensures UndoApply(Apply(s, schedule), schedule) == s
    decreases |schedule|
  {
    hide QuarterRound, UndoRound;
    if schedule != [] {
      var n := |schedule| - 1;
      RoundUndone(Apply(s, schedule[..n]), schedule[n]);
      ScheduleUndone(s, schedule[..n]);
    }
  }

  /** And so are the rounds of a block, whatever their number: the working state still determines the
      key, counter and nonce it was made from. */
  lemma {:induction false} RoundsUndone(s: State, n: nat)
    ensures UndoRounds(Rounds(s, n), SCHEDULE, n) == s
  {
    hide Apply, UndoApply;
    if n > 0 {
      ScheduleUndone(Rounds(s, n - 1), SCHEDULE);
      RoundsUndone(s, n - 1);
    }
  }

  /** Blocks of different key, counter or nonce never reach the same working state. */
  lemma WorkingStatesDiffer(k1: seq<u32>, c1: u32, n1: seq<u32>, k2: seq<u32>, c2: u32, n2: seq<u32>)
    requires |k1| == 8 && |n1| == 3 && |k2| == 8 && |n2| == 3
    requires Rounds(Initial(k1, c1, n1), DOUBLE_ROUNDS) == Rounds(Initial(k2, c2, n2), DOUBLE_ROUNDS)
    ensures k1 == k2 && c1 == c2 && n1 == n2
  {
    hide Rounds, UndoRounds;
    var s, t := Initial(k1, c1, n1), Initial(k2, c2, n2);
    RoundsUndone(s, DOUBLE_ROUNDS);
    RoundsUndone(t, DOUBLE_ROUNDS);
    assert s[4..12] == k1 && t[4..12] == k2 && s[12] == c1 && t[12] == c2 && s[13..] == n1 && t[13..] == n2;
  }

  function Initial(key: seq<u32>, counter: u32, nonce: seq<u32>): State
    requires |key| == 8 && |nonce| == 3
  {
    [0x61707865, 0x3320646e, 0x79622d32, 0x6b206574] + key + [counter] + nonce
  }

  function Serialize(x: seq<u32>): (b: bytes)
    ensures |b| == 4 * |x|
  {
    if x == [] then [] else LEBytes(x[0], 4) + Serialize(x[1..])
  }

  lemma {:induction false} SerializeAppend(x: seq<u32>, v: u32)
    ensures Serialize(x + [v]) == Serialize(x) + LEBytes(v, 4)
  {
    if x == [] {
      assert x + [v] == [v] && [v][1..] == [];
    } else {
      assert (x + [v])[1..] == x[1..] + [v];
      SerializeAppend(x[1..], v);
    }
  }

  /** The 64-byte keystream block of section 2.3. */
  function BlockBytes(key: seq<u32>, counter: u32, nonce: seq<u32>): (b: bytes)
    requires |key| == 8 && |nonce| == 3
    ensures |b| == 64
  {
    var s := Initial(key, counter, nonce);
    var x := Rounds(s, DOUBLE_ROUNDS);
    Serialize(seq(16, i requires 0 <= i < 16 => Add32(x[i], s[i])))
  }

  class Core {
    /** The quarter round in place, on four words of the working state. */
    static method QuarterInPlace(x: array<u32>, i: nat, j: nat, k: nat, l: nat)
      requires x.Length == 16 && Distinct(Columns(i, j, k, l))
      modifies x
      ensures x[..] == QuarterRound(old(x[..]), i, j, k, l)
    {
      x[i], x[j], x[k], x[l] := Lines(x[i], x[j], x[k], x[l]);
    }

    static method Lines(a0: u32, b0: u32, c0: u32, d0: u32) returns (a: u32, b: u32, c: u32, d: u32)
      ensures Four(a, b, c, d) == Quarter(Four(a0, b0, c0, d0))
    {
      a, b, c, d := a0, b0, c0, d0;
      a := Add32(a, b); d := Rotl32(XorWord(d, a), 16);
      c := Add32(c, d); b := Rotl32(XorWord(b, c), 12);
      a := Add32(a, b); d := Rotl32(XorWord(d, a), 8);
      c := Add32(c, d); b := Rotl32(XorWord(b, c), 7);
    }

    static method Block(key: seq<u32>, counter: u32, nonce: seq<u32>) returns (out: bytes)
      requires |key| == 8 && |nonce| == 3
      ensures out == BlockBytes(key, counter, nonce)
    {
      var s := Initial(key, counter, nonce);
      var x := new u32[16](i requires 0 <= i < 16 => s[i]);
      assert x[..] == s;
      for r := 0 to DOUBLE_ROUNDS
        invariant x[..] == Rounds(s, r)
      {
        DoubleRound(x);
      }
      out := AddAndStore(x[..], s);
    }

    static method AddAndStore(x: State, s: State) returns (out: bytes)
      ensures out == Serialize(seq(16, i requires 0 <= i < 16 => Add32(x[i], s[i])))
    {
      ghost var sum := seq(16, i requires 0 <= i < 16 => Add32(x[i], s[i]));
      out := [];
      for i := 0 to |s|
        invariant out == Serialize(sum[..i])
      {
        out := out + LEBytes(Add32(x[i], s[i]), 4);
        SerializeAppend(sum[..i], sum[i]);
        assert sum[..i + 1] == sum[..i] + [sum[i]];
      }
      assert sum[..16] == sum;
    }

    static method DoubleRound(x: array<u32>)
      requires x.Length == 16
      modifies x
      ensures x[..] == InnerBlock(old(x[..]))
    {
      hide Quarter;
      ghost var s: State := x[..];
      assert SCHEDULE[..0] == [];
      QuarterInPlace(x, 0, 4, 8, 12); NextRound(s, 0);
      QuarterInPlace(x, 1, 5, 9, 13); NextRound(s, 1);
      QuarterInPlace(x, 2, 6, 10, 14); NextRound(s, 2);
      QuarterInPlace(x, 3, 7, 11, 15); NextRound(s, 3);
      QuarterInPlace(x, 0, 5, 10, 15); NextRound(s, 4);
      QuarterInPlace(x, 1, 6, 11, 12); NextRound(s, 5);
      QuarterInPlace(x, 2, 7, 8, 13); NextRound(s, 6);
      QuarterInPlace(x, 3, 4, 9, 14); NextRound(s, 7);
      assert SCHEDULE[..8] == SCHEDULE;
    }
  }

  lemma NextRound(s: State, n: nat)
    requires n < 8
    ensures var c := SCHEDULE[n];
            Apply(s, SCHEDULE[..n + 1]) == QuarterRound(Apply(s, SCHEDULE[..n]), c.i, c.j, c.k, c.l)
  {
    hide Quarter;
    assert SCHEDULE[..n + 1][..n] == SCHEDULE[..n];
  }

  // ---- counter mode ----------------------------------------------------------

  function KeyWords(key: bytes): (k: seq<u32>)
    requires |key| == 32
    ensures |k| == 8
  {
    seq(8, i requires 0 <= i < 8 => LoadLE32(key, 4 * i))
  }

  function NonceWords(nonce: bytes): (n: seq<u32>)
    requires |nonce| == 12
    ensures |n| == 3
  {
    seq(3, i requires 0 <= i < 3 => LoadLE32(nonce, 4 * i))
  }

  /** Keystream block number c, counted modulo 2^32. */
  function Keystream(key: bytes, nonce: bytes, c: nat): (b: bytes)
    requires |key| == 32 && |nonce| == 12
    ensures |b| == 64
  {
    BlockBytes(KeyWords(key), c % 0x1_0000_0000, NonceWords(nonce))
  }

  function StreamByte(key: bytes, nonce: bytes, counter: u32, i: nat): byte
    requires |key| == 32 && |nonce| == 12
  {
    Keystream(key, nonce, counter as int + i / 64)[i % 64]
  }

  /** Byte i of the output is byte i of the input XOR byte i % 64 of block counter + i / 64. */
  function XorStream(key: bytes, nonce: bytes, counter: u32, input: bytes): (out: bytes)
    requires |key| == 32 && |nonce| == 12
    ensures |out| == |input|
  {
    seq(|input|, i requires 0 <= i < |input| => XorByte(input[i], StreamByte(key, nonce, counter, i)))
  }

  /** Decryption is encryption: XOR-ing with the same stream twice gives the input back. */
  lemma XorStreamInvolution(key: bytes, nonce: bytes, counter: u32, input: bytes)
    requires |key| == 32 && |nonce| == 12
    ensures XorStream(key, nonce, counter, XorStream(key, nonce, counter, input)) == input
  {
    var once := XorStream(key, nonce, counter, input);
    var twice := XorStream(key, nonce, counter, once);
    forall i | 0 <= i < |input| ensures twice[i] == input[i] {
      XorTwice(input[i], StreamByte(key, nonce, counter, i));
    }
  }

  lemma XorTwice(a: byte, b: byte)
    ensures XorByte(XorByte(a, b), b) == a
  {
    XorInvolution(a, b);
  }

  method ChaCha20Xor(key: bytes, nonce: bytes, counter: u32, input: bytes, out: array<byte>)
    requires |key| == 32 && |nonce| == 12 && out.Length >= |input|
    modifies out
    ensures out[..|input|] == XorStream(key, nonce, counter, input)
    ensures forall i | 0 <= i < |input| ::
              out[i] == XorByte(input[i], Keystream(key, nonce, counter as int + i / 64)[i % 64])
    ensures out[|input|..] == old(out[|input|..])
  {
    hide BlockBytes, XorByte, Keystream, XorStream, KeyWords, NonceWords;
    var k, n := KeyWords(key), NonceWords(nonce);
    ghost var spec := XorStream(key, nonce, counter, input);
    var off, len, c: u32 := 0, |input|, counter;
    while len > 0
      invariant off >= 0 && len >= 0 && off + len == |input|
      invariant len > 0 ==> off % 64 == 0 && c == (counter as int + off / 64) % 0x1_0000_0000
      invariant out[..off] == spec[..off]
      invariant out[|input|..] == old(out[|input|..])
    {
      var block := Core.Block(k, c, n);
      BlockAt(key, nonce, counter, off, c);
      c := (c as int + 1) % 0x1_0000_0000;
      var take := if len < 64 then len else 64;
      XorBlock(key, nonce, counter, input, out, off, take, block);
      off := off + take;
      len := len - take;
    }
    assert spec[..|input|] == spec;
    forall i | 0 <= i < |input|
      ensures out[i] == XorByte(input[i], Keystream(key, nonce, counter as int + i / 64)[i % 64])
    {
      StreamAt(key, nonce, counter, input, i);
      assert out[..|input|][i] == spec[i];
    }
  }

  /** The counter of the block at an offset, and of the next one. */
  lemma BlockAt(key: bytes, nonce: bytes, counter: u32, off: nat, c: u32)
    requires |key| == 32 && |nonce| == 12
    requires off % 64 == 0 && c == (counter as int + off / 64) % 0x1_0000_0000
    ensures Keystream(key, nonce, counter as int + off / 64) == BlockBytes(KeyWords(key), c, NonceWords(nonce))
    ensures (c as int + 1) % 0x1_0000_0000 == (counter as int + (off + 64) / 64) % 0x1_0000_0000
  {
    hide BlockBytes, KeyWords, NonceWords;
  }

  /** XORs one block of keystream into place. */
  method XorBlock(ghost key: bytes, ghost nonce: bytes, ghost counter: u32, input: bytes, out: array<byte>,
                  off: nat, take: nat, block: bytes)
    requires |key| == 32 && |nonce| == 12 && out.Length >= |input|
    requires off % 64 == 0 && take <= 64 && off + take <= |input|
    requires block == Keystream(key, nonce, counter as int + off / 64)
    requires out[..off] == XorStream(key, nonce, counter, input)[..off]
    modifies out
    ensures out[..off + take] == XorStream(key, nonce, counter, input)[..off + take]
    ensures out[off + take..] == old(out[off + take..])
  {
    hide BlockBytes, XorByte;
    ghost var spec := XorStream(key, nonce, counter, input);
    assert forall k | 0 <= k < off :: out[..off][k] == spec[..off][k];
    for i := 0 to take
      invariant forall k | 0 <= k < off + i :: out[k] == spec[k]
      invariant forall k | off + i <= k < out.Length :: out[k] == old(out[k])
    {
      assert (off + i) / 64 == off / 64 && (off + i) % 64 == i;
      StreamAt(key, nonce, counter, input, off + i);
      out[off + i] := XorByte(input[off + i], block[i]);
    }
  }

  lemma StreamAt(key: bytes, nonce: bytes, counter: u32, input: bytes, i: nat)
    requires |key| == 32 && |nonce| == 12 && i < |input|
    ensures XorStream(key, nonce, counter, input)[i]
         == XorByte(input[i], Keystream(key, nonce, counter as int + i / 64)[i % 64])
  {}

  /** A stream can be taken up at any block: the rest of the input under the counter moved on, wrapping
      at 2^32, gives the rest of the output. */
  lemma StreamSplit(key: bytes, nonce: bytes, counter: u32, a: bytes, b: bytes)
    requires |key| == 32 && |nonce| == 12 && |a| % 64 == 0
    ensures XorStream(key, nonce, counter, a + b)
         == XorStream(key, nonce, counter, a)
            + XorStream(key, nonce, (counter as int + |a| / 64) % 0x1_0000_0000, b)
  {
    hide BlockBytes, XorByte, Keystream, XorStream;
    var next := (counter as int + |a| / 64) % 0x1_0000_0000;
    var whole, left, right := XorStream(key, nonce, counter, a + b), XorStream(key, nonce, counter, a),
      XorStream(key, nonce, next, b);
    forall i | 0 <= i < |a + b| ensures whole[i] == (left + right)[i] {
      StreamAt(key, nonce, counter, a + b, i);
      if i < |a| {
        StreamAt(key, nonce, counter, a, i);
      } else {
        var j := i - |a|;
        StreamAt(key, nonce, next, b, j);
        assert i / 64 == |a| / 64 + j / 64 && i % 64 == j % 64;
        SameBlock(key, nonce, counter as int + i / 64, next as int + j / 64);
      }
    }
  }

  /** Only the residue of a block's number matters. */
  lemma SameBlock(key: bytes, nonce: bytes, c: nat, d: nat)
    requires |key| == 32 && |nonce| == 12 && c % 0x1_0000_0000 == d % 0x1_0000_0000
    ensures Keystream(key, nonce, c) == Keystream(key, nonce, d)
  {
    hide BlockBytes;
  }
}
