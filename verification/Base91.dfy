/** The variable-width base-91 codec (client/src/crypto/base91.cpp). */
module Base91 {
  import opened Words

  const DIGITS := "0123456789"
  const UPPER := "ABCDEFGHIJKLMNOPQRSTUVWXYZ"
  const LOWER := "abcdefghijklmnopqrstuvwxyz"
  const MARKS := "!#$%&()*+,-./:;<=>?@[]^_`{|}~"
  const ALPHABET: string := DIGITS + UPPER + LOWER + MARKS

  type digit = x: int | 0 <= x < 91

  // ---- digits and characters -------------------------------------------------

  /** The decode table, as an arithmetic description of the alphabet: -1 marks a foreign character. */
  function DigitOf(c: char): int {
    var o := c as int;
    if 48 <= o <= 57 then o - 48            // 0-9
    else if 65 <= o <= 90 then o - 55       // A-Z
    else if 97 <= o <= 122 then o - 61      // a-z
    else if o == 33 then 62                 // !
    else if 35 <= o <= 38 then o + 28       // # $ % &
    else if 40 <= o <= 47 then o + 27       // ( ) * + , - . /
    else if 58 <= o <= 64 then o + 17       // : ; < = > ? @
    else if o == 91 then 82                 // [
    else if 93 <= o <= 96 then o - 10       // ] ^ _ `
    else if 123 <= o <= 126 then o - 36     // { | } ~
    else -1
  }

  lemma Pieces()
    ensures |DIGITS| == 10 && forall i | 0 <= i < 10 :: DIGITS[i] as int == 48 + i
    ensures |UPPER| == 26 && forall i | 0 <= i < 26 :: UPPER[i] as int == 65 + i
    ensures |LOWER| == 26 && forall i | 0 <= i < 26 :: LOWER[i] as int == 97 + i
  {}

  lemma Marks()
    ensures |MARKS| == 29 && MARKS[0] as int == 33
    ensures forall i | 1 <= i < 5 :: MARKS[i] as int == 34 + i
    ensures forall i | 5 <= i < 13 :: MARKS[i] as int == 35 + i
    ensures forall i | 13 <= i < 20 :: MARKS[i] as int == 45 + i
    ensures MARKS[20] as int == 91
    ensures forall i | 21 <= i < 25 :: MARKS[i] as int == 72 + i
    ensures forall i | 25 <= i < 29 :: MARKS[i] as int == 98 + i
  {}

  /** Every digit's character decodes to that digit, and only characters of the alphabet decode. */
  lemma AlphabetTable(c: char, i: digit)
    ensures |ALPHABET| == 91
    ensures -1 <= DigitOf(c) < 91
    ensures DigitOf(c) >= 0 ==> ALPHABET[DigitOf(c)] == c
    ensures DigitOf(ALPHABET[i]) == i
  {
    hide DIGITS, UPPER, LOWER, MARKS;
    Pieces();
    Marks();
    AlphabetAt(i);
    if DigitOf(c) >= 0 {
      AlphabetAt(DigitOf(c));
    }
  }

  lemma AlphabetAt(i: digit)
    ensures |ALPHABET| == 91
    ensures ALPHABET[i] == if i < 10 then DIGITS[i] else if i < 36 then UPPER[i - 10]
                           else if i < 62 then LOWER[i - 36] else MARKS[i - 62]
  {
    Pieces();
    Marks();
  }

  // ---- the codec on digits ---------------------------------------------------

  /** A group carries 13 bits unless its low 13 bits are at most 88; then it carries 14. */
  function Width(v: nat): (w: nat)
    ensures w == 13 || w == 14
  {
    if v % 0x2000 > 88 then 13 else 14
  }

  /** The value of the next group and the choice of width, both read from the low bits. */
  lemma GroupBits(b: nat, w: nat, v: nat)
    requires w == Width(b) && v == b % Pow2(w)
    ensures v <= 8280 && v < Pow2(w) && Width(v) == w
  {
    WidthPowers();
    if w == 14 {
      assert v % 0x2000 == b % 0x2000 by { Mod14(b); }
    }
  }

  lemma Mod14(b: nat)
    ensures b % 0x4000 % 0x2000 == b % 0x2000
  {}

  lemma WidthPowers()
    ensures Pow2(13) == 0x2000 && Pow2(14) == 0x4000
  {}

  /** Digits still to be produced when the bit buffer holds the n bits of b. */
  function EncodeFrom(data: bytes, b: nat, n: nat): seq<digit>
    requires n <= 13 && b < Pow2(n)
    decreases |data|
  {
    if data == [] then Flush(b, n)
    else
      Push(b, n, data[0]);
      var b1, n1 := Merge(b, data[0], n), n + 8;
      if n1 > 13 then
        var w := Width(b1);
        var v := b1 % Pow2(w);
        GroupBits(b1, w, v);
        Pop(b1, n1, w);
        [v % 91, v / 91] + EncodeFrom(data[1..], ShiftRight(b1, w), n1 - w)
      else EncodeFrom(data[1..], b1, n1)
  }

  /** The last one or two digits. */
  function Flush(b: nat, n: nat): seq<digit>
    requires n <= 13 && b < Pow2(n)
  {
    Pow2Monotone(n, 13);
    WidthPowers();
    if n == 0 then []
    else if n > 7 || b > 90 then [b % 91, b / 91]
    else [b % 91]
  }

  function LowBits(b: nat, w: nat): nat { b % Pow2(w) }

  lemma Push(b: nat, n: nat, d: byte)
    requires b < Pow2(n)
    ensures Merge(b, d, n) < Pow2(n + 8)
  {
    Pow2Add(n, 8);
    Pow2Word();
    PushBound(b, d, Pow2(n), 256);
  }

  lemma PushBound(b: nat, d: nat, p: nat, q: nat)
    requires b < p && d < q
    ensures 0 <= b + d * p < p * q
  {
    Distribute(q - 1 - d, d, p);
    assert (q - 1 - d) * p >= 0 && d * p >= 0;
    Distribute(q - 1, 1, p);
  }

  lemma Pop(b: nat, n: nat, w: nat)
    requires b < Pow2(n) && w <= n
    ensures ShiftRight(b, w) < Pow2(n - w)
    ensures b == Merge(b % Pow2(w), ShiftRight(b, w), w)
  {
    Pow2Add(w, n - w);
    PopBound(b, Pow2(w), Pow2(n - w));
  }

  lemma PopBound(b: nat, p: nat, q: nat)
    requires p > 0 && b < p * q
    ensures b / p < q && b == b % p + b / p * p
  {
    var h := b / p;
    if h >= q {
      MulGrows(q, h, p);
      assert false;
    }
  }

  /** Bytes recovered when the decoder's bit buffer holds the n bits of b. */
  function DecodeFrom(s: seq<digit>, b: nat, n: nat): bytes
    requires n <= 7 && b < Pow2(n)
    decreases |s|
  {
    if s == [] then []
    else if |s| == 1 then [Merge(b, s[0], n) % 256]
    else
      var v: nat := s[0] as int + 91 * (s[1] as int);
      var b1, n1 := Merge(b, v, n), n + Width(v);
      var k := n1 / 8;
      MergeBound(b, v, n);
      Drain(b1, n1);
      LEBytes(b1, k) + DecodeFrom(s[2..], ShiftRight(b1, 8 * k), n1 % 8)
  }

  /** Bits of v placed above the n bits of b. */
  function Merge(b: nat, v: nat, n: nat): (r: nat)
  {
    assert v * Pow2(n) >= 0;
    b + v * Pow2(n)
  }

  lemma MergeBound(b: nat, v: nat, n: nat)
    requires b < Pow2(n) && v <= 8280
    ensures Merge(b, v, n) < Pow2(n + Width(v))
  {
    WidthPowers();
    Pow2Add(n, Width(v));
    PushBound(b, v, Pow2(n), Pow2(Width(v)));
  }

  lemma Drain(b: nat, n: nat)
    requires b < Pow2(n)
    ensures ShiftRight(b, 8 * (n / 8)) < Pow2(n % 8)
    ensures b == b % Pow256(n / 8) + ShiftRight(b, 8 * (n / 8)) * Pow256(n / 8)
  {
    Pop(b, n, 8 * (n / 8));
    Pow256Is(n / 8);
  }

  // ---- the round trip --------------------------------------------------------

  /** Putting the next byte on top of the pending bits appends it to the pending bytes. */
  lemma PendingGrows(b: nat, n: nat, c: nat, m: nat, d: byte)
    requires b < Pow2(n) && c < Pow2(m) && (n + m) % 8 == 0
    ensures LEBytes(Merge(c, Merge(b, d, n), m), (n + m) / 8 + 1)
         == LEBytes(Merge(c, b, m), (n + m) / 8) + [d]
  {
    hide LEBytes, Merge, Pow2;
    var k := (n + m) / 8;
    OnTop(b, n, c, m, d, k);
    LEBytesSplit(Merge(c, b, m), d, k, 1);
    OneByte(d);
  }

  lemma OnTop(b: nat, n: nat, c: nat, m: nat, d: nat, k: nat)
    requires b < Pow2(n) && c < Pow2(m) && n + m == 8 * k
    ensures Merge(c, b, m) < Pow256(k)
    ensures Merge(c, Merge(b, d, n), m) == Merge(c, b, m) + d * Pow256(k)
  {
    hide Pow2;
    Pow256Is(k);
    Pow2Add(m, n);
    assert Pow256(k) == Pow2(m) * Pow2(n);
    PushBound(c, b, Pow2(m), Pow2(n));
    Nested(c, b, d, Pow2(m), Pow2(n));
  }

  lemma OneByte(d: byte)
    ensures LEBytes(d, 1) == [d]
  {
    assert LEBytes(d / 256, 0) == [];
  }

  lemma Nested(c: nat, b: nat, d: nat, p: nat, q: nat)
    ensures c + (b + d * q) * p == (c + b * p) + d * (p * q)
  {
    Distribute(b, d * q, p);
    assert (d * q) * p == d * (p * q);
  }

  /** What stays in the decoder's buffer after it has taken a group and emitted whole bytes. */
  function Residue(c: nat, v: nat, m: nat): (r: nat)
    requires c < Pow2(m) && v <= 8280
    ensures r < Pow2((m + Width(v)) % 8)
  {
    MergeBound(c, v, m);
    Drain(Merge(c, v, m), m + Width(v));
    ShiftRight(Merge(c, v, m), 8 * ((m + Width(v)) / 8))
  }

  /** Moving one group from the encoder to the decoder leaves the pending bytes the same. */
  lemma GroupMoves(v: nat, w: nat, b2: nat, c: nat, m: nat, n: nat, c2: nat, m2: nat)
    requires v <= 8280 && w == Width(v) && v < Pow2(w) && c < Pow2(m) && m <= 7
    requires (n + w + m) % 8 == 0 && c2 == Residue(c, v, m) && m2 == (m + w) % 8
    ensures LEBytes(Merge(c, Merge(v, b2, w), m), (n + w + m) / 8)
         == LEBytes(Merge(c, v, m), (m + w) / 8) + LEBytes(Merge(c2, b2, m2), (n + m2) / 8)
  {
    hide LEBytes, Pow2, Pow256, ShiftRight;
    var c1, m1, k := Merge(c, v, m), m + w, (m + w) / 8;
    MergeBound(c, v, m);
    Drain(c1, m1);
    Pow2Add(m, w);
    Pow2Add(8 * k, m2);
    Pow256Is(k);
    assert m1 == 8 * k + m2;
    var lo := c1 % Pow256(k);
    GroupSum(v, b2, c, lo, c2, Pow2(m), Pow2(w), Pow256(k), Pow2(m2));
    LEBytesSplit(lo, Merge(c2, b2, m2), k, (n + m2) / 8);
    LEBytesMod(c1, k);
    assert (n + w + m) / 8 == k + (n + m2) / 8;
  }

  lemma GroupSum(v: nat, b: nat, c: nat, lo: nat, c2: nat, pm: nat, pw: nat, pk: nat, p2: nat)
    requires c + v * pm == lo + c2 * pk && pm * pw == pk * p2
    ensures c + (v + b * pw) * pm == lo + (c2 + b * p2) * pk
  {
    Nested(c, v, b, pm, pw);
    Regroup(lo, c2, b, pk, p2);
  }

  lemma Regroup(lo: nat, c: nat, b: nat, p: nat, q: nat)
    ensures (lo + c * p) + b * (p * q) == lo + (c + b * q) * p
  {
    Distribute(c, b * q, p);
    assert (b * q) * p == b * (p * q);
  }

  /** The tail: one or two digits carry exactly the pending bytes, no byte more or less. */
  lemma FlushRoundTrip(b: nat, n: nat, c: nat, m: nat)
    requires n <= 13 && b < Pow2(n) && m <= 7 && c < Pow2(m) && (n + m) % 8 == 0
    ensures DecodeFrom(Flush(b, n), c, m) == LEBytes(Merge(c, b, m), (n + m) / 8)
  {
    if n == 0 {
      assert m == 0 && LEBytes(Merge(c, b, m), 0) == [];
    } else if n > 7 || b > 90 {
      TwoDigitTail(b, n, c, m);
    } else {
      OneDigitTail(b, n, c, m);
    }
  }

  lemma TwoDigitTail(b: nat, n: nat, c: nat, m: nat)
    requires 0 < n <= 13 && b < Pow2(n) && m <= 7 && c < Pow2(m) && (n + m) % 8 == 0
    requires n > 7 || b > 90
    ensures DecodeFrom(Flush(b, n), c, m) == LEBytes(Merge(c, b, m), (n + m) / 8)
  {
    hide LEBytes, Merge, Pow2, ShiftRight;
    var s := Flush(b, n);
    assert s[2..] == [] && s[0] as int + 91 * (s[1] as int) == b;
    if n < 8 {
      SmallTail(b, n);
    }
    var k := (m + Width(b)) / 8;
    assert k == (n + m) / 8;
    assert DecodeFrom(s, c, m) == LEBytes(Merge(c, b, m), k) + [];
  }

  lemma OneDigitTail(b: nat, n: nat, c: nat, m: nat)
    requires 0 < n <= 7 && b <= 90 && b < Pow2(n) && m <= 7 && c < Pow2(m) && (n + m) % 8 == 0
    ensures DecodeFrom(Flush(b, n), c, m) == LEBytes(Merge(c, b, m), (n + m) / 8)
  {
    hide Pow2, LEBytes;
    assert n + m == 8;
    Pow2Add(m, n);
    Pow2Word();
    PushBound(c, b, Pow2(m), Pow2(n));
    OneByte(Merge(c, b, m));
    assert Flush(b, n) == [b];
  }

  lemma SmallTail(b: nat, n: nat)
    requires 0 < n <= 7 && b < Pow2(n) && b > 90
    ensures n == 7 && Width(b) == 13
  {
    Pow2Monotone(n, 7);
    assert Pow2(7) == 128 && Pow2(6) == 64;
    if n < 7 {
      Pow2Monotone(n, 6);
    }
  }

  /** Decoder and encoder in step: whatever bits each still holds, the pending bytes and the rest
      of the data come out exactly. */
  lemma {:induction false} RoundTripFrom(data: bytes, b: nat, n: nat, c: nat, m: nat)
    requires n <= 13 && b < Pow2(n) && m <= 7 && c < Pow2(m) && (n + m) % 8 == 0
    ensures DecodeFrom(EncodeFrom(data, b, n), c, m) == LEBytes(Merge(c, b, m), (n + m) / 8) + data
    decreases |data|
  {
    hide LEBytes, Merge, Pow2, ShiftRight, DecodeFrom, Width, EncodeFrom, Flush;
    if data == [] {
      FlushRoundTrip(b, n, c, m);
      assert EncodeFrom(data, b, n) == Flush(b, n) by { EncodeEnd(b, n); }
      assert LEBytes(Merge(c, b, m), (n + m) / 8) + [] == LEBytes(Merge(c, b, m), (n + m) / 8);
    } else {
      var b1, n1 := Merge(b, data[0], n), n + 8;
      Push(b, n, data[0]);
      PendingBytes(data, b, n, c, m);
      if n1 <= 13 {
        EncodeNarrow(data, b, n);
        RoundTripFrom(data[1..], b1, n1, c, m);
      } else {
        var w := Width(b1);
        var v, b2 := LowBits(b1, w), ShiftRight(b1, w);
        EncodeWide(data, b, n);
        var c2, m2 := Residue(c, v, m), (m + w) % 8;
        RoundTripFrom(data[1..], b2, n1 - w, c2, m2);
        GroupDecoded(v, w, b2, c, m, n1 - w, EncodeFrom(data[1..], b2, n1 - w), data[1..], c2, m2);
      }
    }
  }

  lemma EncodeEnd(b: nat, n: nat)
    requires n <= 13 && b < Pow2(n)
    ensures EncodeFrom([], b, n) == Flush(b, n)
  {}

  lemma PendingBytes(data: bytes, b: nat, n: nat, c: nat, m: nat)
    requires data != [] && b < Pow2(n) && c < Pow2(m) && (n + m) % 8 == 0
    ensures LEBytes(Merge(c, Merge(b, data[0], n), m), (n + 8 + m) / 8) + data[1..]
         == LEBytes(Merge(c, b, m), (n + m) / 8) + data
  {
    hide LEBytes, Merge, Pow2;
    PendingGrows(b, n, c, m, data[0]);
    assert (n + 8 + m) / 8 == (n + m) / 8 + 1;
    assert data == [data[0]] + data[1..];
  }

  lemma EncodeNarrow(data: bytes, b: nat, n: nat)
    requires data != [] && n + 8 <= 13 && b < Pow2(n) && Merge(b, data[0], n) < Pow2(n + 8)
    ensures EncodeFrom(data, b, n) == EncodeFrom(data[1..], Merge(b, data[0], n), n + 8)
  {
    hide Merge, Pow2, Flush;
  }

  lemma EncodeWide(data: bytes, b: nat, n: nat)
    requires data != [] && n <= 13 < n + 8 && b < Pow2(n) && Merge(b, data[0], n) < Pow2(n + 8)
    ensures var b1 := Merge(b, data[0], n);
            var w := Width(b1);
            var v, b2 := LowBits(b1, w), ShiftRight(b1, w);
            && 13 <= w <= 14 && v <= 8280 && v < Pow2(w) && Width(v) == w && b2 < Pow2(n + 8 - w)
            && b1 == Merge(v, b2, w)
            && EncodeFrom(data, b, n) == [v % 91, v / 91] + EncodeFrom(data[1..], b2, n + 8 - w)
  {
    hide Merge, Pow2, Flush, ShiftRight;
    var b1 := Merge(b, data[0], n);
    GroupBits(b1, Width(b1), LowBits(b1, Width(b1)));
    Pop(b1, n + 8, Width(b1));
  }

  /** Two digits give the whole bytes of the buffer they are merged into. */
  lemma FirstPair(v: nat, c: nat, m: nat, e: seq<digit>)
    requires v <= 8280 && c < Pow2(m) && m <= 7
    ensures var w := Width(v);
            Residue(c, v, m) < Pow2((m + w) % 8)
            && DecodeFrom([v % 91, v / 91] + e, c, m)
            == LEBytes(Merge(c, v, m), (m + w) / 8) + DecodeFrom(e, Residue(c, v, m), (m + w) % 8)
  {
    hide LEBytes, Merge, Pow2, ShiftRight, Width;
    var s := [v % 91, v / 91] + e;
    assert s[2..] == e && s[0] as int + 91 * (s[1] as int) == v;
    MergeBound(c, v, m);
    Drain(Merge(c, v, m), m + Width(v));
  }

  lemma GroupDecoded(v: nat, w: nat, b2: nat, c: nat, m: nat, n: nat, e: seq<digit>, tail: bytes, c2: nat, m2: nat)
    requires v <= 8280 && w == Width(v) && v < Pow2(w) && c < Pow2(m) && m <= 7
    requires (n + w + m) % 8 == 0 && c2 == Residue(c, v, m) && m2 == (m + w) % 8
    requires DecodeFrom(e, c2, m2) == LEBytes(Merge(c2, b2, m2), (n + m2) / 8) + tail
    ensures DecodeFrom([v % 91, v / 91] + e, c, m)
         == LEBytes(Merge(c, Merge(v, b2, w), m), (n + w + m) / 8) + tail
  {
    hide LEBytes, Merge, Pow2, ShiftRight, DecodeFrom, Residue, Width;
    FirstPair(v, c, m, e);
    GroupMoves(v, w, b2, c, m, n, c2, m2);
    var x, y := LEBytes(Merge(c, v, m), (m + w) / 8), LEBytes(Merge(c2, b2, m2), (n + m2) / 8);
    assert x + (y + tail) == (x + y) + tail;
  }

  // ---- text ------------------------------------------------------------------

  predicate IsSpace(c: char) {
    var o := c as int;
    o == 32 || 9 <= o <= 13
  }

  function CharOf(d: digit): char {
    AlphabetTable('0', d);
    ALPHABET[d]
  }

  function Chars(s: seq<digit>): (t: string)
    ensures |t| == |s|
  {
    if s == [] then [] else [CharOf(s[0])] + Chars(s[1..])
  }

  /** The text without its white space. */
  function Strip(text: string): string {
    if text == [] then []
    else (if IsSpace(text[0]) then [] else [text[0]]) + Strip(text[1..])
  }

  /** The digits of a text, white space skipped; None if any other foreign character occurs. */
  function Digits(text: string): Option<seq<digit>> {
    if text == [] then Some([])
    else
      match Digits(text[1..])
      case None => None
      case Some(rest) =>
        if IsSpace(text[0]) then Some(rest)
        else if DigitOf(text[0]) < 0 then None
        else
          AlphabetTable(text[0], 0);
          Some([DigitOf(text[0])] + rest)
  }

  function EncodeText(data: bytes): string {
    assert Pow2(0) == 1;
    Chars(EncodeFrom(data, 0, 0))
  }

  function DecodeText(text: string): Option<bytes> {
    assert Pow2(0) == 1;
    match Digits(text)
    case None => None
    case Some(s) => Some(DecodeFrom(s, 0, 0))
  }

  // ---- theorems --------------------------------------------------------------

  lemma {:induction false} DigitsOfChars(s: seq<digit>)
    ensures Digits(Chars(s)) == Some(s)
    ensures Strip(Chars(s)) == Chars(s)
  {
    hide CharOf, DigitOf, IsSpace;
    if s != [] {
      var t := Chars(s);
      assert t[0] == CharOf(s[0]) && t[1..] == Chars(s[1..]);
      assert [s[0]] + s[1..] == s;
      DigitsOfChars(s[1..]);
      CharIsDigit(s[0]);
    }
  }

  lemma CharIsDigit(d: digit)
    ensures !IsSpace(CharOf(d)) && DigitOf(CharOf(d)) == d
  {
    AlphabetTable(CharOf(d), d);
  }

  lemma {:induction false} DigitsIgnoreSpace(text: string)
    ensures Digits(Strip(text)) == Digits(text)
  {
    hide DigitOf, IsSpace;
    if text != [] {
      DigitsIgnoreSpace(text[1..]);
      var t := Strip(text);
      if IsSpace(text[0]) {
        assert t == Strip(text[1..]);
      } else {
        assert t[0] == text[0] && t[1..] == Strip(text[1..]);
      }
    }
  }

  /** Decoding undoes encoding for every byte sequence, with white space anywhere in the text. */
  lemma RoundTrip(data: bytes, text: string)
    requires Strip(text) == EncodeText(data)
    ensures DecodeText(text) == Some(data)
  {
    hide Digits, Strip, EncodeFrom, DecodeFrom, Chars;
    DigitsIgnoreSpace(text);
    DigitsOfChars(EncodeFrom(data, 0, 0));
    RoundTripFrom(data, 0, 0, 0, 0);
    assert LEBytes(Merge(0, 0, 0), 0) == [];
    assert [] + data == data;
  }

  lemma EncodedTextIsClean(data: bytes)
    ensures Strip(EncodeText(data)) == EncodeText(data)
    ensures DecodeText(EncodeText(data)) == Some(data)
  {
    DigitsOfChars(EncodeFrom(data, 0, 0));
    RoundTrip(data, EncodeText(data));
  }

  ghost predicate IsClean(text: string) {
    forall i | 0 <= i < |text| :: IsSpace(text[i]) || DigitOf(text[i]) >= 0
  }

  /** A text decodes exactly when every character is white space or in the alphabet. */
  lemma {:induction false} DecodesIffClean(text: string)
    ensures DecodeText(text).Some? <==> IsClean(text)
  {
    hide DigitOf, IsSpace, DecodeFrom;
    if text != [] {
      DecodesIffClean(text[1..]);
      assert forall i | 1 <= i < |text| :: text[i] == text[1..][i - 1];
      assert IsClean(text) <==> (IsSpace(text[0]) || DigitOf(text[0]) >= 0) && IsClean(text[1..]);
    }
  }

  /** No digit carries more than seven bits, so an encoding is never shorter than 8/7 of its data. */
  lemma {:induction false} EncodedLength(data: bytes, b: nat, n: nat)
    requires n <= 13 && b < Pow2(n)
    ensures 7 * |EncodeFrom(data, b, n)| >= 8 * |data| + n
    decreases |data|
  {
    hide Pow2, Merge, ShiftRight, Width;
    if data != [] {
      Push(b, n, data[0]);
      var b1, n1 := Merge(b, data[0], n), n + 8;
      if n1 > 13 {
        var w := Width(b1);
        Pop(b1, n1, w);
        EncodedLength(data[1..], ShiftRight(b1, w), n1 - w);
      } else {
        EncodedLength(data[1..], b1, n1);
      }
    }
  }

  /** Groups are greedy: one takes fourteen bits exactly when its low thirteen fit a pair of digits together
      with a fourteenth of either value. */
  lemma GroupsAreGreedy(b: nat)
    ensures Width(b) == 14 <==> forall bit | 0 <= bit <= 1 :: LowBits(b, 13) + bit * Pow2(13) < 91 * 91
  {
    WidthPowers();
    var low := LowBits(b, 13);
    if low + 1 * Pow2(13) < 91 * 91 {
      forall bit | 0 <= bit <= 1 ensures low + bit * Pow2(13) < 91 * 91 {}
    }
  }

  /** Zero bytes take a pair of digits for every fourteen bits, and for what is left one digit for up to
      seven bits and two for more: the shortest an encoding can be. */
  lemma {:induction false} ZerosEncoded(k: nat, n: nat)
    requires n <= 13
    ensures 0 < Pow2(n) && |EncodeFrom(Zeros(k), 0, n)| == ZeroDigits(8 * k + n)
    decreases k
  {
    hide Pow2, Flush, ZeroDigits, EncodeFrom;
    if k == 0 {
      SomeBits(n);
      EncodeEnd(0, n);
      ZerosFlushed(n);
    } else {
      ZeroTaken(k, n);
      if n + 8 <= 13 {
        ZerosEncoded(k - 1, n + 8);
      } else {
        ZerosEncoded(k - 1, n - 6);
        FourteenMore(8 * (k - 1) + n - 6);
      }
    }
  }

  lemma ZeroTaken(k: nat, n: nat)
    requires k > 0 && n <= 13
    ensures 0 < Pow2(n) && 0 < Pow2(n + 8)
    ensures n + 8 <= 13 ==> EncodeFrom(Zeros(k), 0, n) == EncodeFrom(Zeros(k - 1), 0, n + 8)
    ensures n + 8 > 13 ==> 0 < Pow2(n - 6) && |EncodeFrom(Zeros(k), 0, n)| == 2 + |EncodeFrom(Zeros(k - 1), 0, n - 6)|
  {
    hide Pow2, Flush, Width, ShiftRight, LowBits, Merge, EncodeFrom;
    SomeBits(n);
    SomeBits(n + 8);
    assert Zeros(k)[1..] == Zeros(k - 1) && Zeros(k)[0] == 0;
    if n + 8 <= 13 {
      EncodeNarrow(Zeros(k), 0, n);
    } else {
      EncodeWide(Zeros(k), 0, n);
      ZeroGroup();
    }
  }

  function ZeroDigits(bits: nat): nat {
    2 * (bits / 14) + if bits % 14 == 0 then 0 else if bits % 14 <= 7 then 1 else 2
  }

  lemma FourteenMore(bits: nat)
    ensures ZeroDigits(bits + 14) == ZeroDigits(bits) + 2
  {}

  lemma SomeBits(n: nat)
    ensures 0 < Pow2(n) && Merge(0, 0, n) == 0
  {}

  lemma ZeroGroup()
    ensures Width(0) == 14 && LowBits(0, 14) == 0 && ShiftRight(0, 14) == 0
  {}

  lemma ZerosFlushed(n: nat)
    requires n <= 13 && 0 < Pow2(n)
    ensures |Flush(0, n)| == ZeroDigits(n)
  {
    hide Pow2;
  }

  /** Two encodings, one of a group of fourteen bits and one of thirteen. */
  lemma KnownTexts()
    ensures EncodeText([0, 128]) == "002" && EncodeText([0x46, 0x42]) == "a62"
  {
    hide EncodeFrom, Chars, CharOf;
    SmallPowers();
    KnownDigits(0, 128, 0, 0, 2, 14);
    KnownDigits(0x46, 0x42, 36, 6, 2, 13);
    KnownChars(0, 0, 2);
    KnownChars(36, 6, 2);
    CharIs('0', 0);
    CharIs('2', 2);
    CharIs('6', 6);
    CharIs('a', 36);
  }

  lemma CharIs(c: char, d: digit)
    requires DigitOf(c) == d
    ensures CharOf(d) == c
  {
    AlphabetTable(c, d);
  }

  lemma SmallPowers()
    ensures Pow2(0) == 1 && Pow2(8) == 256 && Pow2(2) == 4 && Pow2(3) == 8 && Pow2(13) == 0x2000 && Pow2(14) == 0x4000
  {
    Pow2Word();
    WidthPowers();
  }

  lemma KnownDigits(x: byte, y: byte, d0: digit, d1: digit, d2: digit, w: nat)
    requires var b := x as int + 256 * y as int;
             w == Width(b) && LowBits(b, w) == d0 + 91 * d1 && ShiftRight(b, w) == d2 && d2 < Pow2(16 - w) && d2 <= 90
    ensures Pow2(0) == 1 && EncodeFrom([x, y], 0, 0) == [d0, d1, d2]
  {
    SmallPowers();
    FirstTwo(x, y);
    hide Merge, Pow2, EncodeFrom, LowBits, ShiftRight, Width;
    assert [x, y][1..] == [y] && [y][1..] == [];
    EncodeNarrow([x, y], 0, 0);
    EncodeWide([y], x, 8);
    EncodeEnd(d2, 16 - w);
    assert Flush(d2, 16 - w) == [d2];
  }

  lemma FirstTwo(x: byte, y: byte)
    ensures Merge(0, x, 0) == x && Merge(x, y, 8) == x as int + 256 * y as int
    ensures Merge(x, y, 8) < Pow2(16)
  {
    SmallPowers();
    Pow2Add(8, 8);
  }

  lemma KnownChars(a: digit, b: digit, c: digit)
    ensures Chars([a, b, c]) == [CharOf(a), CharOf(b), CharOf(c)]
  {
    hide CharOf;
    assert [a, b, c][1..] == [b, c] && [b, c][1..] == [c] && [c][1..] == [];
    assert Chars([c]) == [CharOf(c)] + Chars([]) && Chars([b, c]) == [CharOf(b)] + Chars([c]);
    assert Chars([a, b, c]) == [CharOf(a)] + Chars([b, c]);
  }

  lemma {:induction false} CharsAppend(s: seq<digit>, t: seq<digit>)
    ensures Chars(s + t) == Chars(s) + Chars(t)
  {
    hide CharOf;
    if s == [] {
      assert s + t == t;
    } else {
      assert (s + t)[1..] == s[1..] + t;
      CharsAppend(s[1..], t);
    }
  }

  // ---- the code --------------------------------------------------------------

  /** OR-ing a value above the n bits in use is the sum. */
  lemma OrIsMerge(b: nat, v: nat, n: nat)
    requires b < Pow2(n)
    ensures Or(b, ShiftLeft(v, n)) == Merge(b, v, n)
  {
    OrDisjoint(b, v, n);
  }

  method Encode(data: bytes) returns (out: string)
    ensures out == EncodeText(data)
  {
    hide Chars, Merge, Pow2, Or, Width, ShiftLeft, ShiftRight, LowBits, Flush, CharOf, EncodeFrom;
    var b: u32, n: u32 := 0, 0;
    ghost var done: seq<digit> := [];
    out := [];
    assert Pow2(0) == 1 && Chars([]) == [] by { Start(); }
    assert data[0..] == data;
    for i := 0 to |data|
      invariant n <= 13 && b < Pow2(n)
      invariant out == Chars(done)
      invariant EncodeFrom(data, 0, 0) == done + EncodeFrom(data[i..], b, n)
    {
      assert data[i..][0] == data[i] && data[i..][1..] == data[i + 1..];
      TakeByte(data[i..], b, n, done);
      b := Or(b, ShiftLeft(data[i], n));
      n := n as int + 8;
      if n > 13 {
        var w := Width(b);
        var v := LowBits(b, w);
        b := ShiftRight(b, w);
        n := n as int - w;
        out := out + [CharOf(v % 91)] + [CharOf(v / 91)];
        done := done + [v % 91, v / 91];
      }
    }
    assert data[|data|..] == [];
    LastDigits(b, n, done);
    if n > 0 {
      out := out + [CharOf(b % 91)];
      if n > 7 || b > 90 {
        out := out + [CharOf(b / 91)];
      }
    }
  }

  /** One byte of the data: the buffer takes it, and gives two digits when it holds more than 13 bits. */
  lemma TakeByte(rest: bytes, b: nat, n: nat, done: seq<digit>)
    requires rest != [] && n <= 13 && b < Pow2(n)
    ensures var b1, n1 := Or(b, ShiftLeft(rest[0], n)), n + 8;
            && b1 < 0x20_0000
            && if n1 <= 13 then
                 b1 < Pow2(n1) && done + EncodeFrom(rest, b, n) == done + EncodeFrom(rest[1..], b1, n1)
               else
                 var w := Width(b1);
                 var v, b2 := LowBits(b1, w), ShiftRight(b1, w);
                 && v <= 8280 && w <= n1 <= w + 13 && b2 < Pow2(n1 - w) && b2 <= b1
                 && done + EncodeFrom(rest, b, n) == (done + [v % 91, v / 91]) + EncodeFrom(rest[1..], b2, n1 - w)
                 && Chars(done + [v % 91, v / 91]) == Chars(done) + [CharOf(v % 91)] + [CharOf(v / 91)]
  {
    hide Chars, Merge, Pow2, Or, Width, ShiftRight, Flush, CharOf;
    OrIsMerge(b, rest[0], n);
    Push(b, n, rest[0]);
    var b1 := Merge(b, rest[0], n);
    BufferFits(b1, n + 8);
    if n + 8 > 13 {
      var w := Width(b1);
      var v := b1 % Pow2(w);
      GroupBits(b1, w, v);
      Pop(b1, n + 8, w);
      ShiftSmaller(b1, w);
      CharsOfPair(done, v % 91, v / 91);
      var more := EncodeFrom(rest[1..], ShiftRight(b1, w), n + 8 - w);
      assert done + ([v % 91, v / 91] + more) == (done + [v % 91, v / 91]) + more;
    }
  }

  lemma LastDigits(b: nat, n: nat, done: seq<digit>)
    requires n <= 13 && b < Pow2(n)
    ensures b < 0x2000
    ensures Chars(done + EncodeFrom([], b, n))
         == Chars(done) + if n == 0 then []
                          else if n > 7 || b > 90 then [CharOf(b % 91), CharOf(b / 91)]
                          else [CharOf(b % 91)]
  {
    hide Chars, Flush, CharOf, Pow2;
    CharsAppend(done, Flush(b, n));
    FlushChars(b, n);
  }

  lemma Start()
    ensures Pow2(0) == 1 && Chars([]) == []
  {}

  lemma BufferFits(b: nat, n: nat)
    requires b < Pow2(n) && n <= 21
    ensures b < 0x20_0000
  {
    Pow2Monotone(n, 21);
    assert Pow2(21) == 0x20_0000 by { Pow2Add(8, 13); Pow2Word(); WidthPowers(); }
  }

  lemma BufferBelow(b: nat, n: nat)
    requires b < Pow2(n) && n <= 13
    ensures b < 0x2000
  {
    Pow2Monotone(n, 13);
    WidthPowers();
  }

  lemma ShiftSmaller(b: nat, w: nat)
    ensures ShiftRight(b, w) <= b
  {
    var q := ShiftRight(b, w);
    if q > b {
      MulGrows(b + 1, q, Pow2(w));
      Distribute(b, 1, Pow2(w));
      MulAtLeast(1, Pow2(w));
      assert b * Pow2(w) >= b by { if b > 0 { MulGrows(1, Pow2(w), b); } }
    }
  }

  lemma CharsOfPair(done: seq<digit>, x: digit, y: digit)
    ensures Chars(done + [x, y]) == Chars(done) + [CharOf(x)] + [CharOf(y)]
  {
    CharsAppend(done, [x, y]);
    assert [x, y][1..] == [y] && [y][1..] == [];
  }

  lemma FlushChars(b: nat, n: nat)
    requires n <= 13 && b < Pow2(n)
    ensures b < 0x2000
    ensures Chars(Flush(b, n)) == if n == 0 then []
                                  else if n > 7 || b > 90 then [CharOf(b % 91), CharOf(b / 91)]
                                  else [CharOf(b % 91)]
  {
    hide CharOf;
    BufferBelow(b, n);
    CharsOfPair([], b % 91, b / 91);
    assert [] + [b % 91, b / 91] == [b % 91, b / 91];
    assert [b % 91][1..] == [];
  }

  ghost predicate IsTable(table: array<int>)
    reads table
  {
    table.Length == 256 && forall c: char | c as int < 256 :: table[c as int] == DigitOf(c)
  }

  /** The table is built once by walking the alphabet. */
  method DecodeTable() returns (table: array<int>)
    ensures fresh(table) && IsTable(table)
  {
    hide DigitOf, ALPHABET;
    table := new int[256](_ => -1);
    AlphabetTable('0', 0);
    for i := 0 to 91
      invariant forall c: char | c as int < 256 ::
        table[c as int] == if 0 <= DigitOf(c) < i then DigitOf(c) else -1
    {
      forall c: char ensures DigitOf(c) == i <==> c == ALPHABET[i] {
        AlphabetTable(c, i);
      }
      AlphabetIsAscii(i);
      table[ALPHABET[i] as int] := i;
    }
    forall c: char ensures -1 <= DigitOf(c) < 91 {
      AlphabetTable(c, 0);
    }
  }

  lemma AlphabetIsAscii(i: digit)
    ensures |ALPHABET| == 91 && 0 <= ALPHABET[i] as int < 256
  {
    AlphabetTable('0', i);
  }

  /** One table lookup; characters beyond the table are foreign. */
  method Lookup(table: array<int>, ch: char) returns (c: int)
    requires IsTable(table)
    ensures c == DigitOf(ch) && -1 <= c < 91
  {
    AlphabetTable(ch, 0);
    c := if ch as int < 256 then table[ch as int] else -1;
  }

  method Decode(text: string) returns (r: Option<bytes>)
    ensures r == DecodeText(text)
  {
    hide DigitOf, IsSpace, Merge, Pow2, Or, Width, ShiftLeft, ShiftRight, LEBytes;
    var table := DecodeTable();
    var v, b, n := -1, 0, 0;
    var out: bytes := [];
    assert text[0..] == text;
    Begin(text);
    for i := 0 to |text|
      invariant IsTable(table)
      invariant -1 <= v < 91 && 0 <= n <= 7 && 0 <= b < Pow2(n)
      invariant DecodeText(text) == Remaining(out, v, b, n, text[i..])
    {
      var ch := text[i];
      assert text[i..][0] == ch && text[i..][1..] == text[i + 1..];
      if IsSpace(ch) {
        continue;
      }
      var c := Lookup(table, ch);
      if c < 0 {
        return None;
      }
      NextDigit(text[i..], c);
      if v < 0 {
        FirstOfPair(out, c, b, n, text[i..]);
        v := c;
      } else {
        OnePair(out, v, c, b, n, text[i..]);
        v := v + c * 91;
        OrIsMerge(b, v, n);
        MergeBound(b, v, n);
        b := Or(b, ShiftLeft(v, n));
        n := n + Width(v);
        var emitted;
        emitted, b, n := DrainBytes(b, n);
        out := out + emitted;
        v := -1;
      }
    }
    assert text[|text|..] == [];
    if v >= 0 {
      OrIsMerge(b, v, n);
      out := out + [Or(b, ShiftLeft(v, n)) % 256];
    } else {
      assert out + [] == out;
    }
    r := Some(out);
  }

  lemma Begin(text: string)
    ensures Pow2(0) == 1 && DecodeText(text) == Remaining([], -1, 0, 0, text)
  {
    hide DecodeFrom, Digits;
    if Digits(text).Some? {
      var s := Digits(text).value;
      assert [] + s == s;
      assert [] + DecodeFrom(s, 0, 0) == DecodeFrom(s, 0, 0);
    }
  }

  lemma NextDigit(text: string, c: digit)
    requires text != [] && !IsSpace(text[0]) && DigitOf(text[0]) == c
    ensures Digits(text) == match Digits(text[1..])
                            case None => None
                            case Some(s) => Some([c] + s)
  {}

  lemma FirstOfPair(out: bytes, c: digit, b: nat, n: nat, text: string)
    requires n <= 7 && b < Pow2(n) && text != [] && !IsSpace(text[0]) && DigitOf(text[0]) == c
    ensures Remaining(out, -1, b, n, text) == Remaining(out, c, b, n, text[1..])
  {
    hide Pow2, DigitOf, IsSpace, DecodeFrom;
    NextDigit(text, c);
    if Digits(text[1..]).Some? {
      assert [] + ([c] + Digits(text[1..]).value) == [c] + Digits(text[1..]).value;
    }
  }

  /** What a decoder still owes, given its state and the text not yet read. */
  ghost function Remaining(out: bytes, v: int, b: nat, n: nat, text: string): Option<bytes>
    requires -1 <= v < 91 && n <= 7 && b < Pow2(n)
  {
    match Digits(text)
    case None => None
    case Some(s) => Some(out + DecodeFrom((if v >= 0 then [v] else []) + s, b, n))
  }

  lemma OnePair(out: bytes, x: digit, y: digit, b: nat, n: nat, text: string)
    requires n <= 7 && b < Pow2(n) && text != [] && !IsSpace(text[0]) && DigitOf(text[0]) == y
    ensures var v := x as int + 91 * (y as int);
            var b1, n1 := Merge(b, v, n), n + Width(v);
            && ShiftRight(b1, 8 * (n1 / 8)) < Pow2(n1 % 8)
            && Remaining(out, x, b, n, text)
               == Remaining(out + LEBytes(b1, n1 / 8), -1, ShiftRight(b1, 8 * (n1 / 8)), n1 % 8, text[1..])
  {
    hide Merge, Pow2, Width, ShiftRight, LEBytes, Digits, DigitOf, IsSpace;
    var v := x as int + 91 * (y as int);
    var b1, n1 := Merge(b, v, n), n + Width(v);
    MergeBound(b, v, n);
    Drain(b1, n1);
    NextDigit(text, y);
    if Digits(text[1..]).Some? {
      var s := Digits(text[1..]).value;
      var all := [x] + ([y] + s);
      assert all[2..] == s && all[0] == x && all[1] == y;
      var b2 := ShiftRight(b1, 8 * (n1 / 8));
      assert [] + s == s;
      assert out + (LEBytes(b1, n1 / 8) + DecodeFrom(s, b2, n1 % 8))
          == (out + LEBytes(b1, n1 / 8)) + DecodeFrom(s, b2, n1 % 8);
    }
  }

  /** The do-while loop that moves whole bytes out of the buffer. */
  method DrainBytes(b0: nat, n0: nat) returns (emitted: bytes, b: nat, n: nat)
    requires 8 <= n0 && b0 < Pow2(n0)
    ensures emitted == LEBytes(b0, n0 / 8) && n == n0 % 8 && b == ShiftRight(b0, 8 * (n0 / 8))
    ensures b < Pow2(n)
  {
    hide Pow2, ShiftRight, LEBytes;
    Drain(b0, n0);
    emitted, b, n := [b0 % 256], b0 / 256, n0 - 8;
    ghost var j := 1;
    FirstByte(b0);
    while n > 7
      invariant j >= 1 && n == n0 - 8 * j && n >= 0
      invariant emitted == LEBytes(b0, j) && b == ShiftRight(b0, 8 * j)
      decreases n
    {
      NextByte(b0, j);
      emitted := emitted + [b % 256];
      b, n := b / 256, n - 8;
      j := j + 1;
    }
    assert j == n0 / 8;
  }

  lemma FirstByte(b: nat)
    ensures LEBytes(b, 1) == [b % 256] && ShiftRight(b, 8) == b / 256
  {
    assert LEBytes(b / 256, 0) == [];
    Pow2Word();
  }

  lemma NextByte(b: nat, j: nat)
    ensures LEBytes(b, j + 1) == LEBytes(b, j) + [ShiftRight(b, 8 * j) % 256]
    ensures ShiftRight(b, 8 * (j + 1)) == ShiftRight(b, 8 * j) / 256
  {
    hide LEBytes;
    var q := ShiftRight(b, 8 * j);
    Pow256Is(j);
    PopBound2(b, Pow256(j));
    LEBytesSplit(b % Pow256(j), q, j, 1);
    LEBytesMod(b, j);
    LowByte(q);
    Pow2Add(8 * j, 8);
    Pow2Word();
    DivDiv(b, Pow2(8 * j), 256);
  }

  lemma PopBound2(b: nat, p: nat)
    requires p > 0
    ensures b == b % p + b / p * p
  {}

  lemma LowByte(q: nat)
    ensures LEBytes(q, 1) == [q % 256]
  {
    FirstByte(q);
  }

  lemma DivDiv(v: nat, a: nat, b: nat)
    requires a > 0 && b > 0
    ensures a * b > 0 && v / (a * b) == v / a / b
  {
    var q, r := v / a / b, (v / a) % b;
    var s := v % a;
    assert a * b > 0;
    assert v / a == q * b + r;
    DivSum(v, a, b, q, r, s);
    ModUnique(v, a * r + s, q, a * b);
  }

  lemma DivSum(v: nat, a: nat, b: nat, q: nat, r: nat, s: nat)
    requires v == a * (q * b + r) + s && r < b && s < a
    ensures v == (a * r + s) + q * (a * b) && 0 <= a * r + s < a * b
  {
    assert a * (q * b + r) == a * (q * b) + a * r;
    assert a * (q * b) == q * (a * b);
    MulGrows(r, b - 1, a);
    Distribute(b - 1, 1, a);
  }

  method Base91IsClean(text: string) returns (clean: bool)
    ensures clean <==> IsClean(text)
  {
    var table := DecodeTable();
    for i := 0 to |text|
      invariant IsTable(table)
      invariant forall k | 0 <= k < i :: IsSpace(text[k]) || DigitOf(text[k]) >= 0
    {
      if IsSpace(text[i]) {
        continue;
      }
      var c := Lookup(table, text[i]);
      if c < 0 {
        return false;
      }
    }
    clean := true;
  }
}
