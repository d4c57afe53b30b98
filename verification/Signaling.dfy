/** Share tokens: the serialized payload, the sealed bundle, the offline blob and the cloud record
    (client/src/net/signaling.cpp), and the routing of a typed code (client/src/app/session.cpp:103-126). */
module Signaling {
  import opened Words
  import opened Wire
  import Aead
  import Base91

  type Key256 = k: bytes | |k| == 32 witness Zeros(32)
  type Nonce = n: bytes | |n| == 12 witness Zeros(12)

  const PAYLOAD_MAGIC: bytes := [0x46, 0x42, 0x5a, 0x4b, 0x31]   // FBZK1
  const OFFLINE_MAGIC: bytes := [0x46, 0x42, 0x4f, 0x46, 0x31]   // FBOF1
  const PAYLOAD_VERSION: nat := 2
  const SALT_SIZE: nat := 16

  datatype Token = Token(ip: bytes, port: u16, secret: bytes, folder: bytes, allowWrites: bool)

  // ---- the token payload -----------------------------------------------------

  function Serialize(t: Token): bytes {
    PAYLOAD_MAGIC + (LEBytes(PAYLOAD_VERSION, 4) + (PutStr(t.ip) + (LEBytes(t.port, 2) + (PutStr(t.folder)
    + (LEBytes(if t.allowWrites then 1 else 0, 1) + PutStr(t.secret))))))
  }

  function Usable(t: Token): Option<Token> {
    if t.ip != [] && t.port != 0 && t.secret != [] then Some(t) else None
  }

  predicate IsPayloadMagic(m: bytes) { m == PAYLOAD_MAGIC }

  /** Version 1 payloads carry no permission byte and are read as writable. */
  function Deserialize(plain: bytes): Option<Token> {
    match GetRaw(plain, 5)
    case Short => None
    case Got(magic, r0) =>
      if !IsPayloadMagic(magic) then None
      else match GetPod(r0, 4)
        case Short => None
        case Got(version, r1) =>
          if version != 1 && version != PAYLOAD_VERSION then None else DeserializeBody(version, r1)
  }

  function DeserializeBody(version: nat, r1: bytes): Option<Token> {
    match GetStr(r1)
    case Short => None
    case Got(ip, r2) => match GetPod(r2, 2)
      case Short => None
      case Got(port, r3) => match GetStr(r3)
        case Short => None
        case Got(folder, r4) => DeserializeTail(version, ip, port, folder, r4)
  }

  function DeserializeTail(version: nat, ip: bytes, port: nat, folder: bytes, r: bytes): Option<Token> {
    if version >= 2 then
      match GetPod(r, 1)
      case Short => None
      case Got(writes, rest) => DeserializeSecret(ip, port, folder, writes != 0, rest)
    else DeserializeSecret(ip, port, folder, true, r)
  }

  function DeserializeSecret(ip: bytes, port: nat, folder: bytes, writes: bool, r: bytes): Option<Token> {
    match GetStr(r)
    case Short => None
    case Got(secret, _) => Usable(Token(ip, port % 0x1_0000, secret, folder, writes))
  }

  /** What survives the 32-bit length prefixes. */
  function Truncated(t: Token): Token {
    Token(t.ip[..|t.ip| % TWO32], t.port, t.secret[..|t.secret| % TWO32], t.folder[..|t.folder| % TWO32], t.allowWrites)
  }

  ghost predicate WellFormed(t: Token) {
    && t.ip != [] && t.port != 0 && t.secret != []
    && |t.ip| < TWO32 && |t.folder| < TWO32 && |t.secret| < TWO32
  }

  lemma PayloadParsed(t: Token)
    ensures Deserialize(Serialize(t)) == Usable(Truncated(t))
  {
    hide LEBytes, PutStr, GetStr, GetPod, GetRaw;
    Widths();
    var s6 := PutStr(t.secret);
    var s5 := LEBytes(if t.allowWrites then 1 else 0, 1) + s6;
    var s4 := PutStr(t.folder) + s5;
    var s3 := LEBytes(t.port, 2) + s4;
    var s2 := PutStr(t.ip) + s3;
    var s1 := LEBytes(PAYLOAD_VERSION, 4) + s2;
    RawAppend(PAYLOAD_MAGIC, s1);
    PodRoundTrip(PAYLOAD_VERSION, 4, s2);
    StrRoundTrip(t.ip, s3);
    PodRoundTrip(t.port, 2, s4);
    StrRoundTrip(t.folder, s5);
    PodRoundTrip(if t.allowWrites then 1 else 0, 1, s6);
    StrRoundTrip(t.secret, []);
    assert s6 + [] == s6;
  }

  /** A payload of version 1 has no permission byte and is read as writable. */
  lemma OldPayloadParsed(t: Token)
    ensures Deserialize(PAYLOAD_MAGIC + (LEBytes(1, 4) + (PutStr(t.ip) + (LEBytes(t.port, 2) + (PutStr(t.folder)
                        + PutStr(t.secret))))))
         == Usable(Truncated(t).(allowWrites := true))
  {
    hide LEBytes, PutStr, GetStr, GetPod, GetRaw;
    Widths();
    var s5 := PutStr(t.secret);
    var s4 := PutStr(t.folder) + s5;
    var s3 := LEBytes(t.port, 2) + s4;
    var s2 := PutStr(t.ip) + s3;
    RawAppend(PAYLOAD_MAGIC, LEBytes(1, 4) + s2);
    PodRoundTrip(1, 4, s2);
    StrRoundTrip(t.ip, s3);
    PodRoundTrip(t.port, 2, s4);
    StrRoundTrip(t.folder, s5);
    StrRoundTrip(t.secret, []);
    assert s5 + [] == s5;
  }

  /** Where each field of a payload lies. */
  lemma KnownPayload()
    ensures Serialize(Token([9], 0x0102, [7], [8], true))
         == [0x46, 0x42, 0x5a, 0x4b, 0x31] + [2, 0, 0, 0] + [1, 0, 0, 0] + [9] + [2, 1] + [1, 0, 0, 0] + [8] + [1]
            + [1, 0, 0, 0] + [7]
  {
    hide LEBytes;
    Small4(PAYLOAD_VERSION);
    TwoBytes(0x0102);
    OneByteStr(9);
    OneByteStr(8);
    OneByteStr(7);
    assert LEBytes(1, 1) == [1] by { Base91.OneByte(1); }
  }

  lemma OneByteStr(x: byte)
    ensures PutStr([x]) == [1, 0, 0, 0] + [x]
  {
    hide LEBytes;
    Small4(1);
    assert [x][..1] == [x];
  }

  lemma TruncatedSame(t: Token)
    ensures Truncated(t) == t <==> |t.ip| < TWO32 && |t.folder| < TWO32 && |t.secret| < TWO32
  {
    Kept(t.ip);
    Kept(t.folder);
    Kept(t.secret);
  }

  lemma Kept(s: bytes)
    ensures s[..|s| % TWO32] == s <==> |s| < TWO32
  {
    if |s| < TWO32 {
      assert s[..|s|] == s;
    } else {
      assert |s| % TWO32 < TWO32 <= |s|;
    }
  }

  /** A payload reads back as the token it was made from exactly when the token is well formed. */
  lemma PayloadRoundTrip(t: Token)
    ensures Deserialize(Serialize(t)) == Some(t) <==> WellFormed(t)
  {
    hide Deserialize, Serialize;
    PayloadParsed(t);
    TruncatedSame(t);
  }

  // ---- the sealed bundle -----------------------------------------------------

  function Bundle(t: Token, blobKey: Key256, nonce: Nonce): bytes {
    var s := Aead.Seal(blobKey, nonce, [], Serialize(t));
    PAYLOAD_MAGIC + nonce + s.ct + s.tag
  }

  function OpenedBundle(blobKey: bytes, bundle: bytes): Option<Token> {
    if |blobKey| != 32 then None
    else if |bundle| < 33 || bundle[..5] != PAYLOAD_MAGIC then None
    else
      var n := |bundle| - 16;
      match Aead.Open(blobKey, bundle[5..17], [], Aead.Sealed(bundle[17..n], bundle[n..]))
      case None => None
      case Some(plain) => Deserialize(plain)
  }

  lemma BundleRoundTrip(t: Token, blobKey: Key256, nonce: Nonce)
    ensures OpenedBundle(blobKey, Bundle(t, blobKey, nonce)) == Deserialize(Serialize(t))
  {
    hide Aead.Seal, Aead.Open, Serialize, Deserialize;
    var plain := Serialize(t);
    var s := Aead.Seal(blobKey, nonce, [], plain);
    var b := Bundle(t, blobKey, nonce);
    var n := |b| - 16;
    assert b[..5] == PAYLOAD_MAGIC && b[5..17] == nonce && b[17..n] == s.ct && b[n..] == s.tag;
    Aead.OpenIffSealed(blobKey, nonce, [], s, plain);
  }

  // ---- the offline blob ------------------------------------------------------

  function OfflineText(t: Token, blobKey: Key256, nonce: Nonce): string {
    Base91.EncodeText(OFFLINE_MAGIC + blobKey + Bundle(t, blobKey, nonce))
  }

  function OfflineToken(text: string): Option<Token> {
    match Base91.DecodeText(text)
    case None => None
    case Some(raw) =>
      if |raw| < 37 || raw[..5] != OFFLINE_MAGIC then None
      else OpenedBundle(raw[5..37], raw[37..])
  }

  /** Four layers undone: text, container, cipher and payload.  White space pasted into the blob is
      harmless. */
  lemma OfflineRoundTrip(t: Token, blobKey: Key256, nonce: Nonce, text: string)
    requires Base91.Strip(text) == OfflineText(t, blobKey, nonce)
    ensures OfflineToken(text) == Some(t) <==> WellFormed(t)
  {
    hide Base91.EncodeText, Base91.DecodeText, Base91.Strip, Bundle, OpenedBundle, Serialize, Deserialize;
    var raw := OFFLINE_MAGIC + blobKey + Bundle(t, blobKey, nonce);
    Base91.RoundTrip(raw, text);
    assert raw[..5] == OFFLINE_MAGIC && raw[5..37] == blobKey && raw[37..] == Bundle(t, blobKey, nonce);
    BundleRoundTrip(t, blobKey, nonce);
    PayloadRoundTrip(t);
  }

  // ---- the cloud record ------------------------------------------------------

  datatype Split = BadLength | Split(lookupLen: nat, keyLen: nat)

  function CodeSplit(total: nat): (s: Split)
    ensures s.Split? <==> total == 6 || total == 16
    ensures s.Split? ==> s.lookupLen > 0 && s.keyLen > 0 && s.lookupLen + s.keyLen == total
  {
    if total == 6 then Split(4, 2) else if total == 16 then Split(8, 8) else BadLength
  }

  datatype CloudRecord = CloudRecord(lookupId: string, salt: string, wrapped: string, payload: string, owner: string)

  /** Argon2id with the fixed parameters: a key, or nothing when the derivation fails. */
  type Kdf = (string, bytes) -> Option<Key256>

  /** The random inputs of one sealing. */
  datatype Randoms = Randoms(blobKey: Key256, nonce: Nonce, salt: bytes, wrapNonce: Nonce, owner: bytes)

  function KeyPart(roomCode: string): string
    requires CodeSplit(|roomCode|).Split?
  {
    roomCode[CodeSplit(|roomCode|).lookupLen..]
  }

  function WrappedKey(wrapKey: Key256, blobKey: Key256, wrapNonce: Nonce): (w: bytes)
    ensures |w| == 60
  {
    var s := Aead.Seal(wrapKey, wrapNonce, [], blobKey);
    wrapNonce + s.ct + s.tag
  }

  function SealedRecord(kdf: Kdf, t: Token, roomCode: string, r: Randoms): Option<CloudRecord> {
    if CodeSplit(|roomCode|).BadLength? then None
    else match kdf(KeyPart(roomCode), r.salt)
      case None => None
      case Some(wrapKey) =>
        Some(CloudRecord(roomCode[..CodeSplit(|roomCode|).lookupLen], Base91.EncodeText(r.salt),
                         Base91.EncodeText(WrappedKey(wrapKey, r.blobKey, r.wrapNonce)),
                         Base91.EncodeText(Bundle(t, r.blobKey, r.nonce)), Base91.EncodeText(r.owner)))
  }

  function UnwrappedKey(wrapKey: Key256, wrapped: bytes): Option<bytes>
    requires |wrapped| == 60
  {
    Aead.Open(wrapKey, wrapped[..12], [], Aead.Sealed(wrapped[12..44], wrapped[44..]))
  }

  function OpenedRecord(kdf: Kdf, roomCode: string, saltText: string, wrappedText: string, payloadText: string):
    Option<Token>
  {
    if CodeSplit(|roomCode|).BadLength? then None
    else match (Base91.DecodeText(saltText), Base91.DecodeText(wrappedText), Base91.DecodeText(payloadText))
      case (Some(salt), Some(wrapped), Some(bundle)) =>
        if |salt| != SALT_SIZE || |wrapped| != 60 then None
        else (match kdf(KeyPart(roomCode), salt)
              case None => None
              case Some(wrapKey) =>
                match UnwrappedKey(wrapKey, wrapped)
                case None => None
                case Some(blobKey) => OpenedBundle(blobKey, bundle))
      case _ => None
  }

  lemma WrapRoundTrip(wrapKey: Key256, blobKey: Key256, wrapNonce: Nonce)
    ensures UnwrappedKey(wrapKey, WrappedKey(wrapKey, blobKey, wrapNonce)) == Some(blobKey)
  {
    hide Aead.Seal, Aead.Open;
    var s := Aead.Seal(wrapKey, wrapNonce, [], blobKey);
    var w := WrappedKey(wrapKey, blobKey, wrapNonce);
    assert w[..12] == wrapNonce && w[12..44] == s.ct && w[44..] == s.tag;
    Aead.OpenIffSealed(wrapKey, wrapNonce, [], s, blobKey);
  }

  /** Sealing succeeds for exactly the two code lengths (when the derivation does), and opening the
      record under the same code gives the token back exactly when the token is well formed. */
  lemma CloudRoundTrip(kdf: Kdf, t: Token, roomCode: string, r: Randoms)
    requires |r.salt| == SALT_SIZE
    ensures SealedRecord(kdf, t, roomCode, r).Some? <==>
              (|roomCode| == 6 || |roomCode| == 16) && kdf(KeyPart(roomCode), r.salt).Some?
    ensures SealedRecord(kdf, t, roomCode, r).Some? ==>
              var c := SealedRecord(kdf, t, roomCode, r).value;
              c.lookupId + KeyPart(roomCode) == roomCode
              && (OpenedRecord(kdf, roomCode, c.salt, c.wrapped, c.payload) == Some(t) <==> WellFormed(t))
  {
    hide Base91.EncodeText, Base91.DecodeText, WrappedKey, UnwrappedKey, Bundle, OpenedBundle, Serialize, Deserialize;
    if SealedRecord(kdf, t, roomCode, r).Some? {
      var wrapKey := kdf(KeyPart(roomCode), r.salt).value;
      Base91.EncodedTextIsClean(r.salt);
      Base91.EncodedTextIsClean(WrappedKey(wrapKey, r.blobKey, r.wrapNonce));
      Base91.EncodedTextIsClean(Bundle(t, r.blobKey, r.nonce));
      WrapRoundTrip(wrapKey, r.blobKey, r.wrapNonce);
      BundleRoundTrip(t, r.blobKey, r.nonce);
      PayloadRoundTrip(t);
    }
  }

  // ---- routing a typed code --------------------------------------------------

  predicate StartsWith(text: string, prefix: string) {
    |prefix| <= |text| && text[..|prefix|] == prefix
  }

  predicate IsWebCode(text: string) {
    StartsWith(text, "FBS2:") || StartsWith(text, "FBW2O:") || StartsWith(text, "FBW2A:")
  }

  ghost predicate LooksLikeRoomCode(text: string) {
    var s := Base91.Strip(text);
    CodeSplit(|s|).Split? && Base91.IsClean(s)
  }

  datatype Route = WebCode | RoomCode | OfflineBlob

  ghost function RouteOf(text: string): Route {
    if IsWebCode(text) then WebCode else if LooksLikeRoomCode(text) then RoomCode else OfflineBlob
  }

  /** Every offline blob is longer than any room code and starts with `a`, so it reaches the
      offline opener. */
  lemma OfflineBlobRouted(t: Token, blobKey: Key256, nonce: Nonce)
    ensures RouteOf(OfflineText(t, blobKey, nonce)) == OfflineBlob
    ensures |OfflineText(t, blobKey, nonce)| > 16
  {
    hide Bundle, Base91.EncodeText, Base91.EncodeFrom, Base91.Chars, Base91.Strip;
    var raw := OFFLINE_MAGIC + blobKey + Bundle(t, blobKey, nonce);
    var text := OfflineText(t, blobKey, nonce);
    BundleSize(t, blobKey, nonce);
    assert raw[0] == 0x46 && raw[1] == 0x42;
    BlobStart(raw);
    Base91.EncodedTextIsClean(raw);
    WebCodeStart(text);
  }

  lemma WebCodeStart(text: string)
    ensures IsWebCode(text) ==> text != [] && text[0] == 'F'
  {
    assert "FBS2:"[0] == 'F' && "FBW2O:"[0] == 'F' && "FBW2A:"[0] == 'F';
  }

  lemma BundleSize(t: Token, blobKey: Key256, nonce: Nonce)
    ensures |Bundle(t, blobKey, nonce)| >= 33
  {
    hide Aead.Seal, Serialize;
  }

  lemma BlobStart(raw: bytes)
    requires |raw| >= 70 && raw[0] == 0x46 && raw[1] == 0x42
    ensures |Base91.EncodeText(raw)| > 16 && Base91.EncodeText(raw)[0] == 'a'
  {
    hide Base91.CharOf, Pow2, Base91.EncodeFrom, Base91.Width, ShiftRight;
    EncodeStart(raw);
    Base91.Start();
    Base91.EncodedLength(raw, 0, 0);
    Base91.AlphabetAt(36);
    LetterA();
  }

  lemma LetterA()
    ensures Base91.CharOf(36) == 'a'
  {
    Base91.AlphabetAt(36);
  }

  lemma EncodeStart(raw: bytes)
    requires |raw| >= 2 && raw[0] == 0x46 && raw[1] == 0x42
    ensures Pow2(0) == 1
    ensures Base91.EncodeFrom(raw, 0, 0) != [] && Base91.EncodeFrom(raw, 0, 0)[0] == 36
  {
    hide ShiftRight;
    var r1 := raw[1..];
    assert Pow2(0) == 1;
    Pow2Word();
    Base91.WidthPowers();
    assert Base91.Merge(0, 0x46, 0) == 0x46;
    assert Base91.EncodeFrom(raw, 0, 0) == Base91.EncodeFrom(r1, 0x46, 8);
    assert Base91.Merge(0x46, 0x42, 8) == 0x4246;
    assert Base91.Width(0x4246) == 13 && 0x4246 % 0x2000 == 582;
  }

  /** A clean room code reaches the room lookup exactly when it does not happen to begin with a web
      prefix; the alphabet does not exclude that. */
  lemma RoomCodeRouted(code: string)
    requires CodeSplit(|code|).Split? && Base91.IsClean(code) && Base91.Strip(code) == code
    ensures RouteOf(code) == RoomCode <==> !IsWebCode(code)
  {}

  lemma {:induction false} NothingToStrip(text: string)
    requires forall i | 0 <= i < |text| :: !Base91.IsSpace(text[i])
    ensures Base91.Strip(text) == text
  {
    hide Base91.IsSpace;
    if text != [] {
      NothingToStrip(text[1..]);
      assert [text[0]] + text[1..] == text;
    }
  }

  /** A room code the generator can produce and the resolver refuses. */
  lemma MisroutedRoomCode()
    ensures var code := "FBS2:x";
            && CodeSplit(|code|).Split? && Base91.IsClean(code) && Base91.Strip(code) == code
            && RouteOf(code) == WebCode
  {
    hide Base91.Strip, Base91.DigitOf, Base91.IsSpace, LooksLikeRoomCode;
    var code := "FBS2:x";
    assert |code| == 6 && code[0] == 'F' && code[1] == 'B' && code[2] == 'S' && code[3] == '2'
        && code[4] == ':' && code[5] == 'x';
    MarkedDigits();
    NothingToStrip(code);
    assert code[..5] == "FBS2:";
  }

  lemma MarkedDigits()
    ensures forall c | c in {'F', 'B', 'S', '2', ':', 'x'} :: Base91.DigitOf(c) >= 0 && !Base91.IsSpace(c)
  {}

  /** The part of a code that names its record; a text of any other length names itself. */
  function LookupId(text: string): string {
    if CodeSplit(|text|).Split? then text[..CodeSplit(|text|).lookupLen] else text
  }

  /** The records a signalling backend holds, by their lookup id. */
  type Backend = map<string, CloudRecord>

  function TryBackend(kdf: Kdf, records: Backend, text: string): Option<Token> {
    if LookupId(text) !in records then None
    else
      var r := records[LookupId(text)];
      OpenedRecord(kdf, text, r.salt, r.wrapped, r.payload)
  }

  /** What a typed text resolves to: the first backend that opens, or the offline blob. */
  ghost function Resolved(kdf: Kdf, first: Backend, second: Backend, text: string): Option<Token> {
    match RouteOf(text)
    case WebCode => None
    case OfflineBlob => OfflineToken(text)
    case RoomCode =>
      var t := TryBackend(kdf, first, text);
      if t.Some? then t else TryBackend(kdf, second, text)
  }

  lemma {:induction false} StripShortens(text: string)
    ensures |Base91.Strip(text)| <= |text|
    ensures |Base91.Strip(text)| == |text| ==> Base91.Strip(text) == text
  {
    hide Base91.IsSpace;
    if text != [] {
      StripShortens(text[1..]);
      assert text == [text[0]] + text[1..];
    }
  }

  /** A text recognised as a room code is looked up under the id of that code exactly when it holds no
      white space: the code is recognised without it and looked up with it. */
  lemma SpacedCodeMisnamed(text: string)
    requires RouteOf(text) == RoomCode
    ensures LookupId(text) == LookupId(Base91.Strip(text)) <==> Base91.Strip(text) == text
  {
    hide Base91.IsClean, Base91.Strip, IsWebCode;
    StripShortens(text);
    var code := Base91.Strip(text);
    if code != text {
      assert |text| > |code|;
      assert |LookupId(code)| == CodeSplit(|code|).lookupLen <= 8;
      assert |LookupId(text)| == if |text| == 16 then 8 else |text|;
    }
  }

  lemma RecordId(kdf: Kdf, t: Token, code: string, r: Randoms)
    requires |r.salt| == SALT_SIZE && SealedRecord(kdf, t, code, r).Some?
    ensures CodeSplit(|code|).Split? && SealedRecord(kdf, t, code, r).value.lookupId == LookupId(code)
  {}

  /** Publishing and joining: whatever way a code is typed with white space in it, it leads to the token
      published under it exactly when it is typed without any and does not begin with a web prefix. */
  lemma PublishedCodeResolves(kdf: Kdf, t: Token, code: string, r: Randoms, text: string)
    requires |r.salt| == SALT_SIZE && WellFormed(t) && SealedRecord(kdf, t, code, r).Some?
    requires Base91.IsClean(code) && Base91.Strip(code) == code && Base91.Strip(text) == code
    ensures var rec := SealedRecord(kdf, t, code, r).value;
            Resolved(kdf, map[rec.lookupId := rec], map[], text) == Some(t) <==> text == code && !IsWebCode(code)
  {
    RecordId(kdf, t, code, r);
    TypedRoute(text, code);
    hide Base91.IsClean, Base91.Strip, IsWebCode, RouteOf, LookupId, Resolved, OpenedRecord, SealedRecord, WellFormed;
    CloudRoundTrip(kdf, t, code, r);
    ResolvedAlone(kdf, SealedRecord(kdf, t, code, r).value, text);
    if RouteOf(text) == RoomCode {
      SpacedCodeMisnamed(text);
    }
  }

  lemma TypedRoute(text: string, code: string)
    requires CodeSplit(|code|).Split? && Base91.IsClean(code) && Base91.Strip(text) == code == Base91.Strip(code)
    ensures RouteOf(text) == if IsWebCode(text) then WebCode else RoomCode
  {
    hide Base91.IsClean, Base91.Strip, IsWebCode;
  }

  lemma ResolvedAlone(kdf: Kdf, rec: CloudRecord, text: string)
    ensures Resolved(kdf, map[rec.lookupId := rec], map[], text) ==
              match RouteOf(text)
              case WebCode => None
              case OfflineBlob => OfflineToken(text)
              case RoomCode =>
                if LookupId(text) == rec.lookupId then OpenedRecord(kdf, text, rec.salt, rec.wrapped, rec.payload)
                else None
  {
    hide RouteOf, LookupId, OfflineToken, OpenedRecord;
  }

  /** Two ways to miss: a space inside the code, and ten behind a short one, which make it as long as a
      long one and name the record by six characters of code and two of space. */
  lemma SpacedRoomCodes(a: string, b: string, pad: string)
    requires |a + b| == 6 && Base91.IsClean(a + b) && Base91.Strip(a) == a && Base91.Strip(b) == b
    requires |pad| == 10 && forall i | 0 <= i < |pad| :: Base91.IsSpace(pad[i])
    requires !IsWebCode(a + " " + b) && !IsWebCode(a + b + pad)
    ensures RouteOf(a + " " + b) == RoomCode && LookupId(a + " " + b) == a + " " + b
    ensures RouteOf(a + b + pad) == RoomCode && LookupId(a + b + pad) == a + b + pad[..2]
    ensures LookupId(a + b) == (a + b)[..4]
  {
    hide Base91.Strip, Base91.DigitOf, Base91.IsSpace, Base91.IsClean, IsWebCode;
    assert Base91.IsSpace(" "[0]) by { SpaceIsSpace(); }
    OnlySpace(" ");
    OnlySpace(pad);
    StripAppend(a, b);
    StripAppend(a + " ", b);
    StripAppend(a, " ");
    StripAppend(a + b, pad);
    assert a + [] == a && a + b + [] == a + b;
    assert (a + b + pad)[..8] == a + b + pad[..2];
  }

  lemma SpaceIsSpace()
    ensures Base91.IsSpace(' ')
  {}

  /** For one, the code abcdef. */
  lemma SpacedAbcdef()
    ensures var pad := seq(10, _ => ' ');
            && RouteOf("abc" + " " + "def") == RoomCode && RouteOf("abc" + "def" + pad) == RoomCode
            && LookupId("abc" + "def" + pad) == "abc" + "def" + pad[..2] != LookupId("abc" + "def")
  {
    hide Base91.Strip, Base91.DigitOf, Base91.IsSpace, IsWebCode, RouteOf, LookupId;
    var pad := seq(10, _ => ' ');
    CodeLetters();
    SpaceIsSpace();
    var code := "abc" + "def";
    assert forall i | 0 <= i < |code| :: code[i] in {'a', 'b', 'c', 'd', 'e', 'f'};
    NothingToStrip("abc");
    NothingToStrip("def");
    WebCodeStart("abc" + " " + "def");
    WebCodeStart(code + pad);
    SpacedRoomCodes("abc", "def", pad);
  }

  lemma CodeLetters()
    ensures forall c | c in {'a', 'b', 'c', 'd', 'e', 'f'} :: Base91.DigitOf(c) >= 0 && !Base91.IsSpace(c)
  {}

  lemma {:induction false} StripAppend(a: string, b: string)
    ensures Base91.Strip(a + b) == Base91.Strip(a) + Base91.Strip(b)
  {
    hide Base91.IsSpace;
    if a == [] {
      assert a + b == b;
    } else {
      assert (a + b)[1..] == a[1..] + b;
      StripAppend(a[1..], b);
    }
  }

  lemma {:induction false} OnlySpace(text: string)
    requires forall i | 0 <= i < |text| :: Base91.IsSpace(text[i])
    ensures Base91.Strip(text) == []
  {
    hide Base91.IsSpace;
    if text != [] {
      OnlySpace(text[1..]);
    }
  }

  // ---- the code --------------------------------------------------------------

  method SerializeTokenPayload(t: Token) returns (b: bytes)
    ensures b == Serialize(t)
  {
    hide LEBytes, PutStr;
    var w := new Writer();
    w.Raw(PAYLOAD_MAGIC);
    w.Pod(PAYLOAD_VERSION, 4);
    w.Str(t.ip);
    w.Pod(t.port, 2);
    w.Str(t.folder);
    w.Pod(if t.allowWrites then 1 else 0, 1);
    w.Str(t.secret);
    b := w.b;
    var a, c, d, e, f, g := LEBytes(PAYLOAD_VERSION, 4), PutStr(t.ip), LEBytes(t.port, 2), PutStr(t.folder),
      LEBytes(if t.allowWrites then 1 else 0, 1), PutStr(t.secret);
    assert [] + PAYLOAD_MAGIC + a + c + d + e + f + g == PAYLOAD_MAGIC + (a + (c + (d + (e + (f + g)))));
  }

  method DeserializeTokenPayload(plain: bytes) returns (t: Option<Token>)
    ensures t == Deserialize(plain)
  {
    hide GetRaw, GetPod, GetStr, DeserializeBody, IsPayloadMagic, Reader.Rest, Reader.Valid;
    var r := new Reader(plain);
    var ok, magic := r.Raw(5);
    if !ok || !IsPayloadMagic(magic) { return None; }
    var version;
    ok, version := r.Pod(4);
    if !ok || (version != 1 && version != PAYLOAD_VERSION) { return None; }
    t := DeserializeMiddle(r, version);
  }

  method DeserializeMiddle(r: Reader, version: nat) returns (t: Option<Token>)
    requires r.Valid()
    modifies r
    ensures t == DeserializeBody(version, old(r.Rest()))
  {
    hide GetRaw, GetPod, GetStr, DeserializeTail, Reader.Rest, Reader.Valid;
    var ip, port, folder, ok;
    ok, ip := r.Str();
    if !ok { return None; }
    ok, port := r.Pod(2);
    if !ok { return None; }
    ok, folder := r.Str();
    if !ok { return None; }
    t := DeserializeEnd(r, version, ip, port, folder);
  }

  method DeserializeEnd(r: Reader, version: nat, ip: bytes, port: nat, folder: bytes) returns (t: Option<Token>)
    requires r.Valid()
    modifies r
    ensures t == DeserializeTail(version, ip, port, folder, old(r.Rest()))
  {
    hide GetRaw, GetPod, GetStr, Reader.Rest, Reader.Valid;
    var allowWrites, ok := true, true;
    if version >= 2 {
      var writes;
      ok, writes := r.Pod(1);
      if !ok { return None; }
      allowWrites := writes != 0;
    }
    var secret;
    ok, secret := r.Str();
    if !ok { return None; }
    t := Usable(Token(ip, port % 0x1_0000, secret, folder, allowWrites));
  }

  method SealToken(t: Token, blobKey: Key256, nonce: Nonce) returns (bundle: bytes)
    ensures bundle == Bundle(t, blobKey, nonce)
  {
    hide Aead.Seal, Serialize;
    var plain := SerializeTokenPayload(t);
    var ct := new byte[|plain|];
    var tag := Aead.AeadEncrypt(blobKey, nonce, [], plain, ct);
    bundle := PAYLOAD_MAGIC + nonce + ct[..] + tag;
  }

  method OpenBundle(blobKey: bytes, bundle: bytes) returns (t: Option<Token>)
    ensures t == OpenedBundle(blobKey, bundle)
  {
    hide Aead.Open, Deserialize;
    if |blobKey| != 32 { return None; }
    if |bundle| < 33 || bundle[..5] != PAYLOAD_MAGIC { return None; }
    var off := 5;
    var nonce := bundle[off..off + 12];
    off := off + 12;
    var ctLen := |bundle| - off - 16;
    var ct := bundle[off..off + ctLen];
    off := off + ctLen;
    var tag := bundle[off..off + 16];
    assert tag == bundle[|bundle| - 16..];
    var plain := new byte[|ct|];
    var ok := Aead.AeadDecrypt(blobKey, nonce, [], ct, tag, plain);
    if !ok { return None; }
    t := DeserializeTokenPayload(plain[..]);
  }

  method SealForOffline(t: Token, blobKey: Key256, nonce: Nonce) returns (blob: string)
    ensures blob == OfflineText(t, blobKey, nonce)
  {
    hide Bundle;
    var bundle := SealToken(t, blobKey, nonce);
    blob := Base91.Encode(OFFLINE_MAGIC + blobKey + bundle);
  }

  method OpenOfflineBlob(blob: string) returns (t: Option<Token>)
    ensures t == OfflineToken(blob)
  {
    hide OpenedBundle, Base91.DecodeText;
    var decoded := Base91.Decode(blob);
    if decoded.None? { return None; }
    var raw := decoded.value;
    if |raw| < 37 || raw[..5] != OFFLINE_MAGIC { return None; }
    t := OpenBundle(raw[5..37], raw[37..]);
  }

  method SealForCloud(kdf: Kdf, t: Token, roomCode: string, r: Randoms) returns (rec: Option<CloudRecord>)
    ensures rec == SealedRecord(kdf, t, roomCode, r)
  {
    hide Bundle, Base91.EncodeText, Aead.Seal;
    var split := CodeSplit(|roomCode|);
    if split.BadLength? { return None; }
    var bundle := SealToken(t, r.blobKey, r.nonce);
    var derived := kdf(KeyPart(roomCode), r.salt);
    if derived.None? { return None; }
    var ct := new byte[32];
    var tag := Aead.AeadEncrypt(derived.value, r.wrapNonce, [], r.blobKey, ct);
    var wrapped := r.wrapNonce + ct[..] + tag;
    var owner := Base91.Encode(r.owner);
    var salt := Base91.Encode(r.salt);
    var wrappedText := Base91.Encode(wrapped);
    var payload := Base91.Encode(bundle);
    rec := Some(CloudRecord(roomCode[..split.lookupLen], salt, wrappedText, payload, owner));
  }

  method OpenCloudRecord(kdf: Kdf, roomCode: string, saltText: string, wrappedText: string, payloadText: string)
    returns (t: Option<Token>)
    ensures t == OpenedRecord(kdf, roomCode, saltText, wrappedText, payloadText)
  {
    hide OpenedBundle, Base91.DecodeText, Aead.Open;
    var split := CodeSplit(|roomCode|);
    if split.BadLength? { return None; }
    var salt := Base91.Decode(saltText);
    if salt.None? || |salt.value| != SALT_SIZE { return None; }
    var wrapped := Base91.Decode(wrappedText);
    if wrapped.None? || |wrapped.value| != 60 { return None; }
    var bundle := Base91.Decode(payloadText);
    if bundle.None? { return None; }
    var derived := kdf(KeyPart(roomCode), salt.value);
    if derived.None? { return None; }
    var w := wrapped.value;
    var blobKey := new byte[32];
    var ok := Aead.AeadDecrypt(derived.value, w[..12], [], w[12..44], w[44..], blobKey);
    if !ok { return None; }
    t := OpenBundle(blobKey[..], bundle.value);
  }
}
