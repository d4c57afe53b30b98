/** Payload serialization and message headers (client/include/net/common.h). */
module Wire {
  import opened Words

  type u16 = x: int | 0 <= x < 0x1_0000
  type i16 = x: int | -0x8000 <= x < 0x8000

  // ---- value-level formats ---------------------------------------------------

  /** A length-prefixed byte string; the length is cast to 32 bits and only that many bytes follow. */
  function PutStr(s: bytes): bytes {
    var n := |s| % 0x1_0000_0000;
    LEBytes(n, 4) + s[..n]
  }

  datatype Got<+T> = Short | Got(value: T, rest: bytes)

  function GetRaw(s: bytes, n: nat): (g: Got<bytes>)
    ensures g.Got? <==> n <= |s|
    ensures g.Got? ==> g.value + g.rest == s && |g.value| == n
  {
    if |s| < n then Short else Got(s[..n], s[n..])
  }

  function GetPod(s: bytes, n: nat): Got<nat> {
    match GetRaw(s, n)
    case Short => Short
    case Got(v, rest) => Got(LE(v), rest)
  }

  function GetStr(s: bytes): Got<bytes> {
    match GetPod(s, 4)
    case Short => Short
    case Got(n, rest) => GetRaw(rest, n)
  }

  lemma RawAppend(a: bytes, rest: bytes)
    ensures GetRaw(a + rest, |a|) == Got(a, rest)
  {
    assert (a + rest)[..|a|] == a && (a + rest)[|a|..] == rest;
  }

  /** A fixed-width number is read back modulo its width. */
  lemma PodRoundTrip(v: nat, n: nat, rest: bytes)
    ensures GetPod(LEBytes(v, n) + rest, n) == Got(v % Pow256(n), rest)
  {
    RawAppend(LEBytes(v, n), rest);
    LEOfBytes(v, n);
  }

  /** A string is read back whole exactly when its length fits the 32-bit prefix. */
  lemma StrRoundTrip(s: bytes, rest: bytes)
    ensures GetStr(PutStr(s) + rest) == Got(s[..|s| % TWO32], rest)
    ensures GetStr(PutStr(s) + rest) == Got(s, rest) <==> |s| < TWO32
  {
    hide LEBytes, Pow256, LE;
    var n := |s| % TWO32;
    assert PutStr(s) + rest == LEBytes(n, 4) + (s[..n] + rest);
    PodRoundTrip(n, 4, s[..n] + rest);
    Widths();
    RawAppend(s[..n], rest);
    if |s| < TWO32 {
      assert s[..n] == s;
    }
  }

  lemma Widths()
    ensures Pow256(1) == 0x100 && Pow256(2) == 0x1_0000 && Pow256(4) == TWO32 && Pow256(8) == TWO64
  {
    Pow2Word();
    Pow256Is(1);
    Pow256Is(2);
    Pow256Is(4);
    Pow256Is(8);
  }

  // ---- message headers -------------------------------------------------------

  const MAGIC: u32 := 0x46424459
  const HEADER_SIZE: nat := 20

  datatype Header = Header(magic: u32, op: u16, status: i16, reqId: u64, length: u32)

  /** Two's complement. */
  function Unsigned16(v: i16): u16 { if v >= 0 then v else v + 0x1_0000 }

  function Signed16(v: u16): i16 { if v < 0x8000 then v else v - 0x1_0000 }

  /** The packed record of 20 bytes. */
  function PutHeader(h: Header): (b: bytes)
    ensures |b| == HEADER_SIZE
  {
    LEBytes(h.magic, 4) + LEBytes(h.op, 2) + LEBytes(Unsigned16(h.status), 2)
    + LEBytes(h.reqId, 8) + LEBytes(h.length, 4)
  }

  function Field(b: bytes, lo: nat, n: nat): (v: nat)
    requires lo + n <= |b|
    ensures v < Pow256(n)
  {
    LEBound(b[lo..lo + n]);
    LE(b[lo..lo + n])
  }

  function TakeHeader(b: bytes): Header
    requires |b| == HEADER_SIZE
  {
    Widths();
    Header(Field(b, 0, 4), Field(b, 4, 2), Signed16(Field(b, 6, 2)), Field(b, 8, 8), Field(b, 16, 4))
  }

  lemma FieldOf(pre: bytes, v: nat, n: nat, post: bytes)
    requires v < Pow256(n)
    ensures Field(pre + LEBytes(v, n) + post, |pre|, n) == v
  {
    var b := pre + LEBytes(v, n) + post;
    assert b[|pre|..|pre| + n] == LEBytes(v, n);
    LEOfBytes(v, n);
    ModUnique(v, v, 0, Pow256(n));
  }

  /** Writing a header and overlaying the record on the bytes is the identity. */
  lemma HeaderRoundTrip(h: Header)
    ensures TakeHeader(PutHeader(h)) == h
  {
    hide LEBytes, Field, Pow256;
    Widths();
    var a, b, c, d, e := LEBytes(h.magic, 4), LEBytes(h.op, 2), LEBytes(Unsigned16(h.status), 2),
      LEBytes(h.reqId, 8), LEBytes(h.length, 4);
    var all := PutHeader(h);
    assert all == [] + a + (b + c + d + e);
    FieldOf([], h.magic, 4, b + c + d + e);
    assert all == a + b + (c + d + e);
    FieldOf(a, h.op, 2, c + d + e);
    assert all == (a + b) + c + (d + e);
    FieldOf(a + b, Unsigned16(h.status), 2, d + e);
    assert all == (a + b + c) + d + e;
    FieldOf(a + b + c, h.reqId, 8, e);
    assert all == (a + b + c + d) + e + [];
    FieldOf(a + b + c + d, h.length, 4, []);
  }

  /** And overlaying the record on any bytes and writing it out again: every 20 bytes are a header. */
  lemma HeaderOverlay(b: bytes)
    requires |b| == HEADER_SIZE
    ensures PutHeader(TakeHeader(b)) == b
  {
    hide LEBytes, Field, Pow256;
    Widths();
    FieldWritten(b, 0, 4);
    FieldWritten(b, 4, 2);
    FieldWritten(b, 6, 2);
    FieldWritten(b, 8, 8);
    FieldWritten(b, 16, 4);
    assert b == b[0..4] + b[4..6] + b[6..8] + b[8..16] + b[16..20];
  }

  lemma FieldWritten(b: bytes, lo: nat, n: nat)
    requires lo + n <= |b|
    ensures LEBytes(Field(b, lo, n), n) == b[lo..lo + n]
  {
    BytesOfLE(b[lo..lo + n]);
  }

  /** Where each field lies, and that they are little-endian. */
  lemma KnownHeader()
    ensures PutHeader(Header(MAGIC, 1, -2, 3, 4))
         == [0x59, 0x44, 0x42, 0x46] + [1, 0] + [0xfe, 0xff] + [3, 0, 0, 0, 0, 0, 0, 0] + [4, 0, 0, 0]
  {
    hide LEBytes;
    Small4(4);
    TwoBytes(1);
    TwoBytes(0xfffe);
    FourBytes(MAGIC);
    EightBytes(3);
  }

  lemma TwoBytes(v: nat)
    requires v < 0x1_0000
    ensures LEBytes(v, 2) == [v % 256, v / 256]
  {
    assert LEBytes(v / 256 / 256, 0) == [];
    assert LEBytes(v / 256, 1) == [v / 256];
  }

  lemma FourBytes(v: nat)
    requires v < TWO32
    ensures LEBytes(v, 4) == [v % 256, v / 256 % 256, v / 0x1_0000 % 256, v / 0x100_0000]
  {
    TwoBytes(v / 0x1_0000);
    assert v / 256 / 256 == v / 0x1_0000 && v / 0x1_0000 / 256 == v / 0x100_0000;
    assert LEBytes(v / 256, 3) == [v / 256 % 256] + LEBytes(v / 256 / 256, 2);
  }

  lemma Small4(v: nat)
    requires v < 256
    ensures LEBytes(v, 4) == [v, 0, 0, 0]
  {
    FourBytes(v);
  }

  lemma EightBytes(v: nat)
    requires v < 256
    ensures LEBytes(v, 8) == [v, 0, 0, 0, 0, 0, 0, 0]
  {
    Small4(0);
    assert LEBytes(0, 5) == [0] + LEBytes(0, 4);
    assert LEBytes(0, 6) == [0] + LEBytes(0, 5);
    assert LEBytes(0, 7) == [0] + LEBytes(0, 6);
    assert LEBytes(v, 8) == [v] + LEBytes(0, 7);
  }

  // ---- Writer and Reader -----------------------------------------------------

  class Writer {
    var b: bytes

    constructor ()
      ensures b == []
    {
      b := [];
    }

    method Raw(p: bytes)
      modifies this
      ensures b == old(b) + p
    {
      b := b + p;
    }

    method Pod(v: nat, size: nat)
      modifies this
      ensures b == old(b) + LEBytes(v, size)
    {
      Raw(LEBytes(v, size));
    }

    method Str(s: bytes)
      modifies this
      ensures b == old(b) + PutStr(s)
    {
      var n := |s| % 0x1_0000_0000;
      Pod(n, 4);
      Raw(s[..n]);
      assert old(b) + PutStr(s) == old(b) + LEBytes(n, 4) + s[..n];
    }
  }

  class Reader {
    const data: bytes
    var p: nat

    ghost predicate Valid()
      reads this
    {
      p <= |data|
    }

    ghost function Rest(): bytes
      requires Valid()
      reads this
    {
      data[p..]
    }

    constructor (d: bytes)
      ensures Valid() && Rest() == d && data == d
    {
      data, p := d, 0;
    }

    /** Fails without moving when fewer than n bytes are left. */
    method Raw(n: nat) returns (ok: bool, out: bytes)
      requires Valid()
      modifies this
      ensures Valid()
      ensures GetRaw(old(Rest()), n) == if ok then Got(out, Rest()) else Short
      ensures !ok ==> p == old(p)
    {
      if |data| - p < n {
        return false, [];
      }
      out := data[p..p + n];
      assert data[p..][..n] == out && data[p..][n..] == data[p + n..];
      p := p + n;
      ok := true;
    }

    method Pod(size: nat) returns (ok: bool, v: nat)
      requires Valid()
      modifies this
      ensures Valid()
      ensures GetPod(old(Rest()), size) == if ok then Got(v, Rest()) else Short
      ensures !ok ==> p == old(p)
    {
      var raw;
      ok, raw := Raw(size);
      v := LE(raw);
    }

    /** The string and byte-vector readers; a failure after the length leaves the length consumed. */
    method Str() returns (ok: bool, s: bytes)
      requires Valid()
      modifies this
      ensures Valid()
      ensures GetStr(old(Rest())) == if ok then Got(s, Rest()) else Short
      ensures !ok ==> p == old(p) || p == old(p) + 4
    {
      var n;
      ok, n := Pod(4);
      if !ok {
        return false, [];
      }
      if |data| - p < n {
        return false, [];
      }
      s := data[p..p + n];
      assert data[p..][..n] == s && data[p..][n..] == data[p + n..];
      p := p + n;
    }
  }
}
