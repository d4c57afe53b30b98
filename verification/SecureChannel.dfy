/** Sealed record framing (client/src/crypto/crypto.cpp:254-354) and the plain framing it replaces
    (client/include/net/common.h:256-286). */
module SecureChannel {
  import opened Words
  import opened Wire
  import Aead

  const MAX_RECORD: nat := 0x1000_0000       // 256 MiB
  const MAX_HANDSHAKE: nat := 0x1_0000       // 64 KiB
  const OVERHEAD: nat := 36                  // header and tag of a record

  datatype Msg = Msg(op: u16, status: i16, reqId: u64, payload: bytes)

  /** The payload length is a 32-bit argument of send. */
  ghost predicate Sendable(m: Msg) { |m.payload| < TWO32 }

  // ---- nonces ----------------------------------------------------------------

  function NonceFromCounter(ctr: u64): (nonce: bytes)
    ensures |nonce| == 12
  {
    LEBytes(ctr, 8) + [0, 0, 0, 0]
  }

  /** Two records use the same nonce exactly when their numbers agree modulo 2^64. */
  lemma NonceRepeats(i: nat, j: nat)
    ensures NonceFromCounter(i % TWO64) == NonceFromCounter(j % TWO64) <==> i % TWO64 == j % TWO64
  {
    hide LEBytes;
    Widths();
    var a, b := NonceFromCounter(i % TWO64), NonceFromCounter(j % TWO64);
    assert a[..8] == LEBytes(i % TWO64, 8) && b[..8] == LEBytes(j % TWO64, 8);
    if a == b {
      LEBytesInjective(i % TWO64, j % TWO64, 8);
    }
  }

  /** The counter is in the first eight bytes, little-endian. */
  lemma KnownNonce(ctr: byte)
    ensures NonceFromCounter(ctr) == [ctr, 0, 0, 0, 0, 0, 0, 0, 0, 0, 0, 0]
  {
    EightBytes(ctr);
  }

  /** So no nonce repeats within 2^64 records, whatever the starting count. */
  lemma NoncesFresh(start: nat, i: nat, j: nat)
    requires i < j < TWO64
    ensures NonceFromCounter((start + i) % TWO64) != NonceFromCounter((start + j) % TWO64)
  {
    NonceRepeats(start + i, start + j);
    assert (start + i) % TWO64 != (start + j) % TWO64;
  }

  // ---- one record ------------------------------------------------------------

  function Plain(m: Msg): (b: bytes)
    requires Sendable(m)
    ensures |b| == HEADER_SIZE + |m.payload|
  {
    PutHeader(Header(MAGIC, m.op, m.status, m.reqId, |m.payload|)) + m.payload
  }

  function Record(key: bytes, ctr: u64, m: Msg): (r: bytes)
    requires |key| == 32 && Sendable(m)
    ensures |r| == 4 + |m.payload| + OVERHEAD
  {
    var s := Aead.Seal(key, NonceFromCounter(ctr), [], Plain(m));
    LEBytes((|s.ct| + 16) % 0x1_0000_0000, 4) + s.ct + s.tag
  }

  /** What recv accepts as a decrypted record. */
  function Unframe(plain: bytes): Option<Msg>
    requires |plain| >= HEADER_SIZE
  {
    var h := TakeHeader(plain[..HEADER_SIZE]);
    if h.magic != MAGIC || h.length != |plain| - HEADER_SIZE then None
    else Some(Msg(h.op, h.status, h.reqId, plain[HEADER_SIZE..]))
  }

  lemma UnframePlain(m: Msg)
    requires Sendable(m)
    ensures Unframe(Plain(m)) == Some(m)
  {
    var p := Plain(m);
    var h := Header(MAGIC, m.op, m.status, m.reqId, |m.payload|);
    HeaderRoundTrip(h);
    assert p[..HEADER_SIZE] == PutHeader(h) && p[HEADER_SIZE..] == m.payload;
  }

  /** One recv on the bytes still to be read: the message and what follows, or failure. */
  function Receive(key: bytes, ctr: u64, s: bytes): Got<Msg>
    requires |key| == 32
  {
    match GetPod(s, 4)
    case Short => Short
    case Got(recLen, rest) =>
      if recLen < OVERHEAD || recLen > MAX_RECORD then Short
      else match GetRaw(rest, recLen)
        case Short => Short
        case Got(rec, after) =>
          match Aead.Open(key, NonceFromCounter(ctr), [], Aead.Sealed(rec[..recLen - 16], rec[recLen - 16..]))
          case None => Short
          case Some(plain) =>
            match Unframe(plain)
            case None => Short
            case Some(m) => Got(m, after)
  }

  /** A sent record is received, and nothing after it is touched, exactly when it is within the
      size the receiver accepts; a larger record is refused (also when its length wraps). */
  lemma ReceiveRecord(key: bytes, ctr: u64, m: Msg, after: bytes)
    requires |key| == 32 && Sendable(m)
    ensures Receive(key, ctr, Record(key, ctr, m) + after)
         == if |m.payload| + OVERHEAD <= MAX_RECORD then Got(m, after) else Short
  {
    hide Aead.Seal, Aead.Open, Unframe, Plain, LEBytes, NonceFromCounter;
    hide Pow256, LE;
    var s := Aead.Seal(key, NonceFromCounter(ctr), [], Plain(m));
    var n := |s.ct| + 16;
    var rec := s.ct + s.tag;
    assert Record(key, ctr, m) + after == LEBytes(n % 0x1_0000_0000, 4) + (rec + after);
    LengthField(n, rec + after);
    if n <= MAX_RECORD {
      RawAppend(rec, after);
      assert rec[..n - 16] == s.ct && rec[n - 16..] == s.tag;
      Aead.OpenIffSealed(key, NonceFromCounter(ctr), [], s, Plain(m));
      UnframePlain(m);
    }
  }

  /** Whatever is received is a record of the allowed size at the front of the stream, sealed under this key and
      counter, and what follows it is left. */
  lemma Received(key: bytes, ctr: u64, s: bytes, m: Msg, after: bytes)
    requires |key| == 32
    ensures Receive(key, ctr, s) == Got(m, after)
       <==> |m.payload| + OVERHEAD <= MAX_RECORD && s == Record(key, ctr, m) + after
  {
    hide Aead.Seal, Aead.Open, LEBytes, NonceFromCounter, Unframe, Plain, LE, Record;
    if |m.payload| + OVERHEAD <= MAX_RECORD {
      ReceiveRecord(key, ctr, m, after);
    }
    if Receive(key, ctr, s) == Got(m, after) {
      var recLen, rec := LE(s[..4]), s[4..][..LE(s[..4])];
      var sealed := Aead.Sealed(rec[..recLen - 16], rec[recLen - 16..]);
      var plain := Aead.Open(key, NonceFromCounter(ctr), [], sealed).value;
      Unframed(plain, m);
      Aead.OpenIffSealed(key, NonceFromCounter(ctr), [], sealed, plain);
      RecordOf(key, ctr, m, sealed);
      LengthWritten(s[..4]);
      assert sealed.ct + sealed.tag == rec;
      assert s == s[..4] + (rec + after);
    }
  }

  lemma Unframed(plain: bytes, m: Msg)
    requires |plain| >= HEADER_SIZE && Unframe(plain) == Some(m)
    ensures Sendable(m) && plain == Plain(m) && |plain| == HEADER_SIZE + |m.payload|
  {
    hide PutHeader, TakeHeader;
    HeaderOverlay(plain[..HEADER_SIZE]);
    assert plain == plain[..HEADER_SIZE] + plain[HEADER_SIZE..];
  }

  lemma RecordOf(key: bytes, ctr: u64, m: Msg, s: Aead.Sealed)
    requires |key| == 32 && Sendable(m) && s == Aead.Seal(key, NonceFromCounter(ctr), [], Plain(m))
    ensures Record(key, ctr, m) == LEBytes((|s.ct| + 16) % 0x1_0000_0000, 4) + (s.ct + s.tag)
  {
    hide LEBytes, Aead.Seal, Plain, NonceFromCounter;
  }

  lemma LengthWritten(b: bytes)
    requires |b| == 4
    ensures LE(b) < TWO32 && LEBytes(LE(b), 4) == b
  {
    Widths();
    LEBound(b);
    BytesOfLE(b);
  }

  /** The 32-bit length field of a record: one too large to be accepted, or wrapped to one too
      small, is refused; any other is read back as it was. */
  lemma LengthField(n: nat, rest: bytes)
    requires OVERHEAD <= n < TWO32 + OVERHEAD
    ensures GetPod(LEBytes(n % 0x1_0000_0000, 4) + rest, 4) == Got(n % 0x1_0000_0000, rest)
    ensures if n <= MAX_RECORD then n % 0x1_0000_0000 == n
            else n % 0x1_0000_0000 < OVERHEAD || n % 0x1_0000_0000 > MAX_RECORD
  {
    PodRoundTrip(n % 0x1_0000_0000, 4, rest);
    Widths();
  }

  /** A record cut anywhere before its end is not received. */
  lemma ReceiveCut(key: bytes, ctr: u64, m: Msg, n: nat)
    requires |key| == 32 && Sendable(m) && n < |Record(key, ctr, m)|
    ensures Receive(key, ctr, Record(key, ctr, m)[..n]) == Short
  {
    hide Aead.Seal, Aead.Open, Unframe, Plain, LEBytes, NonceFromCounter;
    var r := Record(key, ctr, m);
    var s := r[..n];
    var len := |m.payload| + OVERHEAD;
    if n >= 4 {
      var tail := s[4..];
      assert s == LEBytes(len % 0x1_0000_0000, 4) + tail;
      LengthField(len, tail);
    }
  }

  // ---- a whole conversation --------------------------------------------------

  function Next(ctr: u64): u64 { (ctr + 1) % 0x1_0000_0000_0000_0000 }

  /** The bytes produced by sending the messages in this order. */
  function Stream(key: bytes, ctr: u64, ms: seq<Msg>): bytes
    requires |key| == 32 && forall m | m in ms :: Sendable(m)
    decreases |ms|
  {
    if ms == [] then [] else Record(key, ctr, ms[0]) + Stream(key, Next(ctr), ms[1..])
  }

  /** Everything recv returns before its first failure. */
  function ReceiveAll(key: bytes, ctr: u64, s: bytes): seq<Msg>
    requires |key| == 32
    decreases |s|
  {
    match Receive(key, ctr, s)
    case Short => []
    case Got(m, rest) =>
      ReceiveShrinks(key, ctr, s);
      [m] + ReceiveAll(key, Next(ctr), rest)
  }

  lemma ReceiveShrinks(key: bytes, ctr: u64, s: bytes)
    requires |key| == 32 && Receive(key, ctr, s).Got?
    ensures |Receive(key, ctr, s).rest| < |s|
  {
    hide Aead.Open, Unframe, NonceFromCounter;
  }

  /** The messages up to the first one that is too large for the receiver. */
  function Acceptable(ms: seq<Msg>): seq<Msg> {
    if ms == [] || |ms[0].payload| + OVERHEAD > MAX_RECORD then [] else [ms[0]] + Acceptable(ms[1..])
  }

  /** Successive recv calls return the sent messages in wire order. */
  lemma {:induction false} ConversationReceived(key: bytes, ctr: u64, ms: seq<Msg>)
    requires |key| == 32 && forall m | m in ms :: Sendable(m)
    ensures ReceiveAll(key, ctr, Stream(key, ctr, ms)) == Acceptable(ms)
    ensures (forall m | m in ms :: |m.payload| + OVERHEAD <= MAX_RECORD) ==>
              ReceiveAll(key, ctr, Stream(key, ctr, ms)) == ms
    decreases |ms|
  {
    hide Receive, Record;
    if ms == [] {
      NothingToReceive(key, ctr, []);
    } else {
      var rest := Stream(key, Next(ctr), ms[1..]);
      ReceiveRecord(key, ctr, ms[0], rest);
      ConversationReceived(key, Next(ctr), ms[1..]);
      assert ms == [ms[0]] + ms[1..];
    }
  }

  lemma NothingToReceive(key: bytes, ctr: u64, s: bytes)
    requires |key| == 32 && |s| < 4
    ensures Receive(key, ctr, s) == Short
  {}

  ghost predicate IsPrefix<T>(a: seq<T>, b: seq<T>) { |a| <= |b| && a == b[..|a|] }

  /** If the connection dies anywhere, what was received is still a prefix of what was sent. */
  lemma {:induction false} CutConversation(key: bytes, ctr: u64, ms: seq<Msg>, n: nat)
    requires |key| == 32 && forall m | m in ms :: Sendable(m)
    requires n <= |Stream(key, ctr, ms)|
    ensures IsPrefix(ReceiveAll(key, ctr, Stream(key, ctr, ms)[..n]), ms)
    decreases |ms|
  {
    hide Receive, Record;
    if ms == [] {
      NothingToReceive(key, ctr, []);
    } else {
      var r := Record(key, ctr, ms[0]);
      var s := Stream(key, ctr, ms)[..n];
      if n < |r| {
        assert s == r[..n];
        ReceiveCut(key, ctr, ms[0], n);
      } else {
        var rest := Stream(key, Next(ctr), ms[1..])[..n - |r|];
        assert s == r + rest;
        ReceiveRecord(key, ctr, ms[0], rest);
        CutConversation(key, Next(ctr), ms[1..], n - |r|);
        assert ms == [ms[0]] + ms[1..];
      }
    }
  }

  /** Sending one more message appends its record under the next counter. */
  lemma {:induction false} StreamAppend(key: bytes, ctr: u64, ms: seq<Msg>, m: Msg)
    requires |key| == 32 && Sendable(m) && forall x | x in ms :: Sendable(x)
    ensures Stream(key, ctr, ms + [m])
         == Stream(key, ctr, ms) + Record(key, (ctr as int + |ms|) % 0x1_0000_0000_0000_0000, m)
    decreases |ms|
  {
    hide Record;
    if ms == [] {
      assert ms + [m] == [m] && [m][1..] == [];
    } else {
      var all, tail := ms + [m], ms[1..] + [m];
      assert all[1..] == tail && all[0] == ms[0];
      CounterAdvance(ctr, |ms| - 1);
      StreamAppend(key, Next(ctr), ms[1..], m);
    }
  }

  lemma CounterAdvance(ctr: u64, n: nat)
    ensures (Next(ctr) as int + n) % 0x1_0000_0000_0000_0000 == (ctr as int + 1 + n) % 0x1_0000_0000_0000_0000
  {}

  // ---- the unsealed framing used before the handshake completes ---------------

  function PlainRecord(m: Msg): bytes
    requires Sendable(m)
  {
    PutHeader(Header(MAGIC, m.op, m.status, m.reqId, |m.payload|)) + m.payload
  }

  function ReceivePlain(s: bytes): Got<Msg> {
    match GetRaw(s, HEADER_SIZE)
    case Short => Short
    case Got(raw, rest) =>
      var h := TakeHeader(raw);
      if h.magic != MAGIC || h.length > MAX_HANDSHAKE then Short
      else match GetRaw(rest, h.length)
        case Short => Short
        case Got(payload, after) => Got(Msg(h.op, h.status, h.reqId, payload), after)
  }

  lemma ReceivePlainRecord(m: Msg, after: bytes)
    requires Sendable(m)
    ensures ReceivePlain(PlainRecord(m) + after)
         == if |m.payload| <= MAX_HANDSHAKE then Got(m, after) else Short
  {
    hide TakeHeader, PutHeader;
    var h := Header(MAGIC, m.op, m.status, m.reqId, |m.payload|);
    assert PlainRecord(m) + after == PutHeader(h) + (m.payload + after);
    RawAppend(PutHeader(h), m.payload + after);
    HeaderRoundTrip(h);
    RawAppend(m.payload, after);
  }

  /** Whatever is received is an unsealed message of the allowed size at the front of the stream, the one
      returned, and what follows it is left. */
  lemma ReceivedPlain(s: bytes, m: Msg, after: bytes)
    ensures ReceivePlain(s) == Got(m, after)
       <==> Sendable(m) && |m.payload| <= MAX_HANDSHAKE && s == PlainRecord(m) + after
  {
    hide TakeHeader, PutHeader;
    if ReceivePlain(s) == Got(m, after) {
      HeaderOverlay(s[..HEADER_SIZE]);
      assert s == s[..HEADER_SIZE] + (m.payload + after);
    }
    if |m.payload| <= MAX_HANDSHAKE {
      ReceivePlainRecord(m, after);
    }
  }

  // ---- session keys ----------------------------------------------------------

  datatype Keys = Keys(tx: bytes, rx: bytes)

  /** HMAC-SHA256, of which nothing is known. */
  type Hmac = (bytes, bytes) -> bytes

  function Ascii(s: string): bytes { seq(|s|, i requires 0 <= i < |s| => s[i] as int % 256) }

  const SESSION: bytes := Ascii("FB-session-v2")
  const TO_SERVER: bytes := Ascii("client->server")
  const TO_CLIENT: bytes := Ascii("server->client")

  /** The two directional keys. */
  function DeriveSessionKeys(hmac: Hmac, authKey: bytes, nonceClient: bytes, nonceServer: bytes, isServer: bool): Keys
  {
    var master := hmac(authKey, nonceClient + nonceServer + SESSION);
    var kc2s, ks2c := hmac(master, TO_SERVER), hmac(master, TO_CLIENT);
    if isServer then Keys(ks2c, kc2s) else Keys(kc2s, ks2c)
  }

  /** Each side sends with the key the other side receives with. */
  lemma KeysCross(hmac: Hmac, authKey: bytes, nc: bytes, ns: bytes)
    ensures var client := DeriveSessionKeys(hmac, authKey, nc, ns, false);
            var server := DeriveSessionKeys(hmac, authKey, nc, ns, true);
            client.tx == server.rx && client.rx == server.tx
  {}

  /** Never the same result for two different inputs. */
  ghost predicate CollisionFree(hmac: Hmac) {
    forall k1, m1, k2, m2 :: hmac(k1, m1) == hmac(k2, m2) ==> k1 == k2 && m1 == m2
  }

  lemma LabelsDiffer()
    ensures TO_SERVER != TO_CLIENT
  {
    assert TO_SERVER[0] == 'c' as int && TO_CLIENT[0] == 's' as int;
  }

  /** As far as the hash has no collisions, two sides use one key for sending only if they are the same side
      of one session: of one secret and of the same two nonces; so the directions of a session have different
      keys, and no key of a session returns in another. */
  lemma KeysSeparate(hmac: Hmac, a1: bytes, c1: bytes, s1: bytes, server1: bool,
                     a2: bytes, c2: bytes, s2: bytes, server2: bool)
    requires CollisionFree(hmac) && |c1| == |c2|
    ensures DeriveSessionKeys(hmac, a1, c1, s1, server1).tx == DeriveSessionKeys(hmac, a2, c2, s2, server2).tx
       <==> a1 == a2 && c1 == c2 && s1 == s2 && server1 == server2
  {
    LabelsDiffer();
    hide Ascii;
    var m1, m2 := c1 + s1 + SESSION, c2 + s2 + SESSION;
    if m1 == m2 {
      assert |s1| == |s2| && m1[..|c1|] == c1 && m2[..|c1|] == c2;
      assert m1[|c1|..|c1| + |s1|] == s1 && m2[|c1|..|c1| + |s1|] == s2;
    }
  }

  // ---- the code --------------------------------------------------------------

  /** One direction of a reliable ordered byte stream: what was written, and how far it was read. */
  class ByteStream {
    var wire: bytes
    var at: nat
    var closed: bool

    ghost predicate Valid()
      reads this
    {
      at <= |wire|
    }

    ghost function Unread(): bytes
      requires Valid()
      reads this
    {
      wire[at..]
    }

    constructor ()
      ensures Valid() && wire == [] && at == 0 && !closed
    {
      wire, at, closed := [], 0, false;
    }

    /** A write may break off anywhere; after that the stream takes no more. */
    method Write(data: bytes) returns (ok: bool)
      requires Valid()
      modifies this
      ensures Valid() && at == old(at) && closed == !ok && (old(closed) ==> !ok)
      ensures ok ==> wire == old(wire) + data
      ensures !ok ==> old(wire) <= wire <= old(wire) + data && (old(closed) ==> wire == old(wire))
    {
      ok := false;
      if !closed {
        var n: nat := *;
        ok := n >= |data|;
        closed := !ok;
        wire := wire + data[..Min(n, |data|)];
      }
    }

    method Read(n: nat) returns (ok: bool, data: bytes)
      requires Valid()
      modifies this
      ensures Valid() && wire == old(wire) && closed == old(closed)
      ensures GetRaw(old(Unread()), n) == if ok then Got(data, Unread()) else Short
      ensures !ok ==> at == old(at)
    {
      if |wire| - at < n {
        return false, [];
      }
      data := wire[at..at + n];
      assert wire[at..][..n] == data && wire[at..][n..] == wire[at + n..];
      at := at + n;
      ok := true;
    }
  }

  class Channel {
    var txKey: bytes
    var rxKey: bytes
    var txCtr: u64
    var rxCtr: u64
    var active: bool
    ghost var sent: nat       // sealed records attempted since activation
    ghost var taken: nat      // sealed records taken off the stream since activation

    ghost predicate Valid()
      reads this
    {
      && |txKey| == 32 && |rxKey| == 32
      && txCtr == sent % TWO64 && rxCtr == taken % TWO64
    }

    constructor ()
      ensures Valid() && !active
    {
      txKey, rxKey := Zeros(32), Zeros(32);
      txCtr, rxCtr, active := 0, 0, false;
      sent, taken := 0, 0;
    }

    method Activate(tx: bytes, rx: bytes)
      requires |tx| == 32 && |rx| == 32
      modifies this
      ensures Valid() && active && txKey == tx && rxKey == rx && sent == 0 && taken == 0
    {
      txKey, rxKey := tx, rx;
      txCtr, rxCtr, active := 0, 0, true;
      sent, taken := 0, 0;
    }

    /** The bytes a message becomes. */
    static function Sent(sealed: bool, key: bytes, ctr: u64, m: Msg): bytes
      requires |key| == 32 && Sendable(m)
    {
      if sealed then Record(key, ctr, m) else PlainRecord(m)
    }

    /** Appends exactly one record under the next counter; a write that fails leaves a beginning of it, and
        the counter moves all the same. */
    method Send(stream: ByteStream, m: Msg) returns (ok: bool)
      requires Valid() && stream.Valid() && Sendable(m)
      modifies this, stream
      ensures Valid() && stream.Valid()
      ensures txKey == old(txKey) && rxKey == old(rxKey) && rxCtr == old(rxCtr) && taken == old(taken)
      ensures active == old(active) && stream.closed == !ok && (old(stream.closed) ==> !ok)
      ensures sent == old(sent) + if active then 1 else 0
      ensures ok ==> stream.wire == old(stream.wire) + Sent(active, txKey, old(txCtr), m)
      ensures !ok ==> old(stream.wire) <= stream.wire <= old(stream.wire) + Sent(active, txKey, old(txCtr), m)
      ensures stream.at == old(stream.at)
    {
      hide Record, PutHeader;
      if !active {
        ok := SendMessage(stream, m);
        return;
      }
      var lenbuf, rec := MakeRecord(txKey, txCtr, m);
      txCtr := Next(txCtr);
      sent := sent + 1;
      ok := stream.Write(lenbuf);
      if !ok {
        return;
      }
      ok := stream.Write(rec);
      assert old(stream.wire) + lenbuf + rec == old(stream.wire) + (lenbuf + rec);
    }

    static method MakeRecord(key: bytes, ctr: u64, m: Msg) returns (lenbuf: bytes, rec: bytes)
      requires |key| == 32 && Sendable(m)
      ensures lenbuf + rec == Record(key, ctr, m)
    {
      hide Aead.Seal, NonceFromCounter, PutHeader;
      var plain := Plain(m);
      var nonce := NonceFromCounter(ctr);
      var ct := new byte[|plain|];
      var tag := Aead.AeadEncrypt(key, nonce, [], plain, ct);
      rec := ct[..] + tag;
      lenbuf := LEBytes(|rec| % 0x1_0000_0000, 4);
      ghost var s := Aead.Seal(key, nonce, [], plain);
      assert lenbuf + rec == lenbuf + s.ct + s.tag;
    }

    static method SendMessage(stream: ByteStream, m: Msg) returns (ok: bool)
      requires stream.Valid() && Sendable(m)
      modifies stream
      ensures stream.Valid() && stream.closed == !ok && (old(stream.closed) ==> !ok)
      ensures ok ==> stream.wire == old(stream.wire) + PlainRecord(m)
      ensures !ok ==> old(stream.wire) <= stream.wire <= old(stream.wire) + PlainRecord(m)
      ensures stream.at == old(stream.at)
    {
      hide PutHeader;
      var h := PutHeader(Header(MAGIC, m.op, m.status, m.reqId, |m.payload|));
      ok := stream.Write(h);
      if ok && |m.payload| > 0 {
        ok := stream.Write(m.payload);
      }
      assert old(stream.wire) + h + m.payload == old(stream.wire) + (h + m.payload);
    }

    /** Returns precisely what Receive describes for the unread bytes. */
    method Recv(stream: ByteStream) returns (r: Option<Msg>)
      requires Valid() && stream.Valid()
      modifies this, stream
      ensures Valid() && stream.Valid() && stream.wire == old(stream.wire)
      ensures txKey == old(txKey) && rxKey == old(rxKey) && txCtr == old(txCtr) && sent == old(sent)
      ensures active == old(active)
      ensures active && r.Some? ==> Receive(rxKey, old(rxCtr), old(stream.Unread())) == Got(r.value, stream.Unread())
                                    && taken == old(taken) + 1
      ensures active && r.None? ==> Receive(rxKey, old(rxCtr), old(stream.Unread())) == Short
      ensures !active && r.Some? ==> ReceivePlain(old(stream.Unread())) == Got(r.value, stream.Unread())
      ensures !active && r.None? ==> ReceivePlain(old(stream.Unread())) == Short
    {
      hide Aead.Open, Unframe, NonceFromCounter;
      if !active {
        r := RecvMessage(stream);
        return;
      }
      var ok, lenbuf := stream.Read(4);
      if !ok {
        return None;
      }
      var recLen := LE(lenbuf);
      if recLen < OVERHEAD || recLen > MAX_RECORD {
        return None;
      }
      var rec;
      ok, rec := stream.Read(recLen);
      if !ok {
        return None;
      }
      var nonce := NonceFromCounter(rxCtr);
      rxCtr := Next(rxCtr);
      taken := taken + 1;
      var plainLen := recLen - 16;
      var plain := new byte[plainLen];
      ok := Aead.AeadDecrypt(rxKey, nonce, [], rec[..plainLen], rec[plainLen..], plain);
      if !ok {
        return None;
      }
      r := Unframe(plain[..]);
    }

    static method RecvMessage(stream: ByteStream) returns (r: Option<Msg>)
      requires stream.Valid()
      modifies stream
      ensures stream.Valid() && stream.wire == old(stream.wire)
      ensures r.Some? ==> ReceivePlain(old(stream.Unread())) == Got(r.value, stream.Unread())
      ensures r.None? ==> ReceivePlain(old(stream.Unread())) == Short
    {
      hide TakeHeader;
      var ok, raw := stream.Read(HEADER_SIZE);
      if !ok {
        return None;
      }
      var h := TakeHeader(raw);
      if h.magic != MAGIC || h.length > MAX_HANDSHAKE {
        return None;
      }
      var payload := [];
      if h.length > 0 {
        ok, payload := stream.Read(h.length);
        if !ok {
          return None;
        }
      }
      r := Some(Msg(h.op, h.status, h.reqId, payload));
    }
  }
}
