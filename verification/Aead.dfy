/** The AEAD construction of section 2.8 of RFC 8439 (client/src/crypto/crypto.cpp:199-252). */
module Aead {
  import opened Words
  import Poly1305
  import ChaCha20

  // ---- specification ---------------------------------------------------------

  /** The zeros that bring n bytes up to a multiple of 16. */
  function Pad16(n: nat): bytes {
    Zeros((16 - n % 16) % 16)
  }

  /** What the one-time authenticator covers. */
  function MacData(aad: bytes, ct: bytes): bytes {
    aad + Pad16(|aad|) + ct + Pad16(|ct|) + LEBytes(|aad|, 8) + LEBytes(|ct|, 8)
  }

  /** The Poly1305 key: the first half of keystream block 0. */
  function PolyKey(key: bytes, nonce: bytes): (k: bytes)
    requires |key| == 32 && |nonce| == 12
    ensures |k| == 32
  {
    ChaCha20.Keystream(key, nonce, 0)[..32]
  }

  datatype Sealed = Sealed(ct: bytes, tag: bytes)

  function Authenticator(key: bytes, nonce: bytes, aad: bytes, ct: bytes): (tag: bytes)
    requires |key| == 32 && |nonce| == 12
    ensures |tag| == 16
  {
    Poly1305.Tag(PolyKey(key, nonce), MacData(aad, ct))
  }

  function Seal(key: bytes, nonce: bytes, aad: bytes, pt: bytes): (s: Sealed)
    requires |key| == 32 && |nonce| == 12
    ensures |s.ct| == |pt| && |s.tag| == 16
  {
    var ct := ChaCha20.XorStream(key, nonce, 1, pt);
    Sealed(ct, Authenticator(key, nonce, aad, ct))
  }

  function Open(key: bytes, nonce: bytes, aad: bytes, s: Sealed): (r: Option<bytes>)
    requires |key| == 32 && |nonce| == 12
    ensures r.Some? ==> |r.value| == |s.ct|
  {
    if s.tag != Authenticator(key, nonce, aad, s.ct) then None
    else Some(ChaCha20.XorStream(key, nonce, 1, s.ct))
  }

  // ---- theorems --------------------------------------------------------------

  /** Opening undoes sealing, and nothing but the sealed form of p opens to p. */
  lemma OpenIffSealed(key: bytes, nonce: bytes, aad: bytes, s: Sealed, p: bytes)
    requires |key| == 32 && |nonce| == 12
    ensures Open(key, nonce, aad, s) == Some(p) <==> s == Seal(key, nonce, aad, p)
  {
    hide Authenticator, ChaCha20.XorStream;
    ChaCha20.XorStreamInvolution(key, nonce, 1, p);
    ChaCha20.XorStreamInvolution(key, nonce, 1, s.ct);
  }

  /** Different (aad, ciphertext) pairs never present the same bytes to the authenticator. */
  lemma MacDataInjective(a1: bytes, c1: bytes, a2: bytes, c2: bytes)
    requires |a1| < TWO64 && |c1| < TWO64 && |a2| < TWO64 && |c2| < TWO64
    requires MacData(a1, c1) == MacData(a2, c2)
    ensures a1 == a2 && c1 == c2
  {
    hide LEBytes, Pow256;
    var body1 := a1 + Pad16(|a1|) + c1 + Pad16(|c1|);
    var body2 := a2 + Pad16(|a2|) + c2 + Pad16(|c2|);
    var m := MacData(a1, c1);
    var n := |m| - 16;
    assert m == body1 + LEBytes(|a1|, 8) + LEBytes(|c1|, 8);
    assert m == body2 + LEBytes(|a2|, 8) + LEBytes(|c2|, 8);
    assert m[n..n + 8] == LEBytes(|a1|, 8) == LEBytes(|a2|, 8);
    assert m[n + 8..] == LEBytes(|c1|, 8) == LEBytes(|c2|, 8);
    Poly1305.Pow256Sixteen();
    LEBytesInjective(|a1|, |a2|, 8);
    LEBytesInjective(|c1|, |c2|, 8);
    var off := |a1| + |Pad16(|a1|)|;
    assert m[..|a1|] == a1 && m[..|a1|] == a2;
    assert m[off..off + |c1|] == c1 && m[off..off + |c1|] == c2;
  }

  /** Key and ciphertext are cut from one keystream: block 0, that encrypts 64 zeros, gives the one-time key
      with its first half, and the blocks from 1 on give the ciphertext. */
  lemma OneStream(key: bytes, nonce: bytes, aad: bytes, pt: bytes)
    requires |key| == 32 && |nonce| == 12
    ensures var stream := ChaCha20.XorStream(key, nonce, 0, Zeros(64) + pt);
            stream[..32] == PolyKey(key, nonce) && stream[64..] == Seal(key, nonce, aad, pt).ct
  {
    hide ChaCha20.Keystream, ChaCha20.XorStream, Authenticator;
    ZeroBlock(key, nonce, 0);
    ChaCha20.StreamSplit(key, nonce, 0, Zeros(64), pt);
  }

  /** Encrypting a block of zeros shows the keystream. */
  lemma ZeroBlock(key: bytes, nonce: bytes, c: u32)
    requires |key| == 32 && |nonce| == 12
    ensures ChaCha20.XorStream(key, nonce, c, Zeros(64)) == ChaCha20.Keystream(key, nonce, c)
  {
    hide ChaCha20.Keystream, ChaCha20.XorStream, Xor;
    var block := ChaCha20.Keystream(key, nonce, c);
    forall i | 0 <= i < 64 ensures ChaCha20.XorStream(key, nonce, c, Zeros(64))[i] == block[i] {
      ChaCha20.StreamAt(key, nonce, c, Zeros(64), i);
      XorZero(block[i]);
    }
  }

  lemma {:induction false} XorZero(a: nat)
    ensures Xor(0, a) == a
  {
    if a > 0 {
      XorZero(a / 2);
    }
  }

  /** The counter of the block that encrypts byte i. */
  function CounterOf(i: nat): u32 { (1 + i / 64) % 0x1_0000_0000 }

  /** Byte i of the ciphertext is encrypted with byte i % 64 of that block. */
  lemma CipherByte(key: bytes, nonce: bytes, aad: bytes, pt: bytes, i: nat)
    requires |key| == 32 && |nonce| == 12 && i < |pt|
    ensures Seal(key, nonce, aad, pt).ct[i] == XorByte(pt[i], ChaCha20.Keystream(key, nonce, CounterOf(i))[i % 64])
  {
    hide ChaCha20.Keystream, Authenticator, ChaCha20.XorStream;
    ChaCha20.StreamAt(key, nonce, 1, pt, i);
    ChaCha20.SameBlock(key, nonce, 1 + i / 64, CounterOf(i));
  }

  /** The state of a block after its twenty rounds. */
  function WorkingState(key: bytes, nonce: bytes, counter: u32): ChaCha20.State
    requires |key| == 32 && |nonce| == 12
  {
    ChaCha20.Rounds(ChaCha20.Initial(ChaCha20.KeyWords(key), counter, ChaCha20.NonceWords(nonce)),
                    ChaCha20.DOUBLE_ROUNDS)
  }

  lemma StatesDiffer(key: bytes, nonce: bytes, c: u32, d: u32)
    requires |key| == 32 && |nonce| == 12 && c != d
    ensures WorkingState(key, nonce, c) != WorkingState(key, nonce, d)
  {
    hide ChaCha20.Rounds, ChaCha20.Initial;
    var k, n := ChaCha20.KeyWords(key), ChaCha20.NonceWords(nonce);
    if WorkingState(key, nonce, c) == WorkingState(key, nonce, d) {
      ChaCha20.WorkingStatesDiffer(k, c, n, k, d, n);
    }
  }

  /** No byte is encrypted with the block the one-time key is cut from, exactly for plaintexts of up to
      2^32 - 1 blocks; and the blocks that are used come from other states than that one. */
  lemma KeyBlockUnused(key: bytes, nonce: bytes, n: nat)
    requires |key| == 32 && |nonce| == 12
    ensures (forall i | 0 <= i < n :: WorkingState(key, nonce, CounterOf(i)) != WorkingState(key, nonce, 0))
       <==> n <= 0xffff_ffff * 64
  {
    hide WorkingState;
    if n > 0xffff_ffff * 64 {
      assert CounterOf(0xffff_ffff * 64) == 0;
    } else {
      forall i | 0 <= i < n ensures WorkingState(key, nonce, CounterOf(i)) != WorkingState(key, nonce, 0) {
        assert 0 < 1 + i / 64 < 0x1_0000_0000;
        StatesDiffer(key, nonce, CounterOf(i), 0);
      }
    }
  }

  /** n rounded up to a multiple of 16. */
  function Up16(n: nat): nat { (n + 15) / 16 * 16 }

  lemma Padded(x: bytes)
    ensures var p := x + Pad16(|x|);
            |p| == Up16(|x|) && p[..|x|] == x && forall i | |x| <= i < |p| :: p[i] == 0
  {}

  /** Where the authenticator finds what it covers, read from the bytes alone: both parts from a multiple of
      16 on and filled up with zeros, and their lengths in the last 16 bytes. */
  lemma MacDataLayout(aad: bytes, ct: bytes)
    ensures var m, at, end := MacData(aad, ct), Up16(|aad|), Up16(|aad|) + Up16(|ct|);
            && |aad| <= at && |ct| <= end - at && |m| == end + 16
            && m[..|aad|] == aad && (forall i | |aad| <= i < at :: m[i] == 0)
            && m[at..at + |ct|] == ct && (forall i | at + |ct| <= i < end :: m[i] == 0)
            && m[end..end + 8] == LEBytes(|aad|, 8) && m[end + 8..] == LEBytes(|ct|, 8)
  {
    hide LEBytes;
    var m, a, c := MacData(aad, ct), aad + Pad16(|aad|), ct + Pad16(|ct|);
    Padded(aad);
    Padded(ct);
    hide Pad16, Up16;
    assert m == a + c + LEBytes(|aad|, 8) + LEBytes(|ct|, 8);
    hide MacData;
    FourParts(m, a, c, LEBytes(|aad|, 8), LEBytes(|ct|, 8));
    Beginnings(m, a, c, |aad|, |ct|);
  }

  lemma Beginnings(m: bytes, a: bytes, c: bytes, x: nat, y: nat)
    requires x <= |a| && y <= |c| && |a| + |c| <= |m|
    requires (forall i | 0 <= i < |a| :: m[i] == a[i]) && forall i | |a| <= i < |a| + |c| :: m[i] == c[i - |a|]
    ensures m[..x] == a[..x] && m[|a|..|a| + y] == c[..y]
  {}

  lemma FourParts(m: bytes, a: bytes, c: bytes, l: bytes, k: bytes)
    requires m == a + c + l + k
    ensures |m| == |a| + |c| + |l| + |k|
    ensures (forall i | 0 <= i < |a| :: m[i] == a[i]) && forall i | |a| <= i < |a| + |c| :: m[i] == c[i - |a|]
    ensures m[|a| + |c|..|a| + |c| + |l|] == l && m[|a| + |c| + |l|..] == k
  {}

  // ---- the code --------------------------------------------------------------

  /** The authenticator fed in pieces, each followed by its padding. */
  method PolyTag(polyKey: bytes, aad: bytes, ct: bytes) returns (tag: bytes)
    requires |polyKey| == 32
    ensures tag == Poly1305.Tag(polyKey, MacData(aad, ct))
  {
    hide Poly1305.Tag, Poly1305.Mac.Valid, Pad16;
    var p := new Poly1305.Mac(polyKey);
    UpdatePadded(p, aad);
    assert p.fed == aad + Pad16(|aad|);
    UpdatePadded(p, ct);
    assert p.fed == aad + Pad16(|aad|) + ct + Pad16(|ct|);
    p.Update(LEBytes(|aad|, 8) + LEBytes(|ct|, 8));
    assert p.fed == MacData(aad, ct);
    tag := p.Finish();
  }

  method UpdatePadded(p: Poly1305.Mac, data: bytes)
    requires p.Valid()
    modifies p, p.h, p.buffer
    ensures p.Valid() && p.fed == old(p.fed) + data + Pad16(|data|)
  {
    hide Poly1305.Mac.Valid;
    p.Update(data);
    if |data| % 16 != 0 {
      p.Update(Zeros(16 - |data| % 16));
    }
  }

  /** Compares every byte, collecting differences with OR. */
  method CtEqual(a: bytes, b: bytes) returns (same: bool)
    requires |a| == |b|
    ensures same <==> a == b
  {
    hide Or, Xor, Pow2;
    Pow2Word();
    var diff: byte := 0;
    for i := 0 to |a|
      invariant diff == 0 <==> a[..i] == b[..i]
    {
      var x := XorByte(a[i], b[i]);
      XorIsZero(a[i], b[i]);
      OrIsZero(diff, x);
      OrBound(diff, x, 8);
      diff := Or(diff, x);
      assert a[..i + 1] == a[..i] + [a[i]] && b[..i + 1] == b[..i] + [b[i]];
    }
    assert a[..|a|] == a && b[..|a|] == b;
    same := diff == 0;
  }

  method MakePolyKey(key: bytes, nonce: bytes) returns (k: bytes)
    requires |key| == 32 && |nonce| == 12
    ensures k == PolyKey(key, nonce)
  {
    hide ChaCha20.BlockBytes;
    var block := ChaCha20.Core.Block(ChaCha20.KeyWords(key), 0, ChaCha20.NonceWords(nonce));
    k := block[..32];
  }

  method AeadEncrypt(key: bytes, nonce: bytes, aad: bytes, pt: bytes, ct: array<byte>)
    returns (tag: bytes)
    requires |key| == 32 && |nonce| == 12 && ct.Length == |pt|
    modifies ct
    ensures Sealed(ct[..], tag) == Seal(key, nonce, aad, pt)
  {
    hide PolyKey, ChaCha20.XorStream, Poly1305.Tag, MacData;
    var polyKey := MakePolyKey(key, nonce);
    ChaCha20.ChaCha20Xor(key, nonce, 1, pt, ct);
    assert ct[..|pt|] == ct[..];
    tag := PolyTag(polyKey, aad, ct[..]);
  }

  /** False leaves the output untouched; true means the tag is the one encryption makes. */
  method AeadDecrypt(key: bytes, nonce: bytes, aad: bytes, ct: bytes, tag: bytes, pt: array<byte>)
    returns (ok: bool)
    requires |key| == 32 && |nonce| == 12 && |tag| == 16 && pt.Length == |ct|
    modifies pt
    ensures Open(key, nonce, aad, Sealed(ct, tag)) == if ok then Some(pt[..]) else None
    ensures !ok ==> pt[..] == old(pt[..])
  {
    hide PolyKey, ChaCha20.XorStream, Poly1305.Tag, MacData;
    var polyKey := MakePolyKey(key, nonce);
    var wanted := PolyTag(polyKey, aad, ct);
    var same := CtEqual(wanted, tag);
    if !same {
      return false;
    }
    ChaCha20.ChaCha20Xor(key, nonce, 1, ct, pt);
    assert pt[..|ct|] == pt[..];
    ok := true;
  }
}
