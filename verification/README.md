# Folder Buddies: verified models

Folder Buddies shares a folder between computers: a server exports it over encrypted streams, a client
mounts it behind a RAM cache, and browsers take part through a WebRTC data channel and a signalling room.
This project models the parts of it whose correctness is decided by careful code, and proves what they
promise. `dafny verify dfyconfig.toml` checks everything.

## What is modelled

| module | part of the system | main results |
|---|---|---|
| `Words` | bytes, little-endian words, AND/OR/XOR on numbers | used by all others |
| `Poly1305`, `ChaCha20`, `Aead` | the RFC 8439 cipher and authenticator | the five-limb arithmetic refines the one-line definition modulo 2^130-5, for any split into calls; the twenty rounds can be run backwards; opening inverts sealing and accepts nothing else; key and ciphertext come from different blocks of one stream |
| `Wire`, `SecureChannel` | payload format, headers, sealed records | exactly what was sealed is received; conversations arrive in order, cut ones as a prefix; nonces never repeat within 2^64 records |
| `Base91`, `Signaling` | the text codec and the nesting of tokens, bundles, blobs and records | round trips through all layers, with white space; which text is routed where, and when a typed code leads to what was published under it |
| `BlockStore` | the LRU block store | a two-level table and a linked list refine one list of entries in the order of last use; the byte count is exact |
| `RemoteFs`, `RamCache` | the exported filesystem and the cache before it | what the cache answers from its tables is what the filesystem would answer, request by request |
| `CacheRuns`, `ServedReads` | the same over runs: fetches in two halves, announcements on their way, replies lost | what is held is right unless it was stored disturbed or its announcement has yet to arrive; when a disturbed fetch is served, and the runs in which what is served is current all the same |
| `FetchProtocol` | single-flight fetches against closing handles | safety of every interleaving, draining, no lost wakeup, no deadlock |
| `ClientMux` | requests multiplexed over one connection | every interleaving answers a request with its own reply, and EIO only for a stated reason; nobody hangs when the connection dies |
| `ServerSessions`, `Broadcast` | sessions, shutdown, invalidation queues | counts and callbacks right in every interleaving; a clean stop; bounded in-order delivery |
| `QuicStream` | byte streams over QUIC | conservation of bytes across unlocked windows, one end of stream; reads get what was delivered, writers are flushed |
| `WebFiles`, `SignalingRoom` | files over a data channel, the signalling room | a buffered handle is a byte array; what a host is told is who is there |

Code that updates state in place is a class or a method with loops whose contract ties the new state to a
specification function; the properties of the specification are lemmas beside it. The concurrent protocols
are state machines, one locked section a step, with an invariant that every step keeps and lemmas about
every run; their locked sections appear again as methods that perform exactly the step.

## What turned out not to hold

Each of these is stated with the exact condition under which the code does meet the expectation.

- A room code may begin with a prefix that marks web codes and is then refused
  (`Signaling.RoomCodeRouted`, `Signaling.MisroutedRoomCode`).
- A room code with white space is recognised without it and looked up with it: it leads to what was published
  exactly when it holds none (`Signaling.SpacedCodeMisnamed`, `Signaling.PublishedCodeResolves`; for instance
  `Signaling.SpacedAbcdef`).
- A read of more than 1 MiB is answered in full by the cache and cut by the server
  (`RamCache.AnswersAgree`, `RamCache.LongRead`).
- A block fetched before a write and stored after it is served as current when the write left size and time as
  they were (`ServedReads.SplitFetch`, `ServedReads.LateByte`), and at any time through a handle whose version
  was captured across the same write (`ServedReads.SplitCapture`, `ServedReads.LateVersion`). What is held is
  right in the runs in which no answer is stored after a change has touched it (`CacheRuns.Coherence`), and what
  is served is right in those in which versions are not captured across a change and tell old bytes from new
  (`ServedReads.ServedCurrent`).
- A write whose reply is lost leaves old blocks in the cache, until the server's announcement of the path
  arrives (`ServedReads.LostWrite`).
- Attributes of directories go stale until they expire (`RamCache.DirectoryTimesGoStale`, `RamCache.StaleRoot`).
- With two replies to one request that differ in both, status and payload can come from different ones
  (`ClientMux.Answers`, `ClientMux.TornReply`).
- A reply that was delivered is answered with EIO when the connection is drained before the request is off the
  list (`ClientMux.Answers`, `ClientMux.DrainedReply`).
- A second call of stop returns while handlers are alive (`ServerSessions.ReturnsWithNone`,
  `ServerSessions.SecondStopTooEarly`).
- An empty write past the end makes a buffered file longer (`WebFiles.PutIsOverwrite`), and a truncation by
  path is not seen through a handle that has a buffer (`WebFiles.TruncateUnderHandle`).
- A client that arrives while the host's socket is closed but not yet detached stays listed with nobody
  listening to it (`SignalingRoom.Room.AttachClient`, `SignalingRoom.Stranded`).

The description in docs/how-it-works.md sends the client's nonce with the proof; the code sends it in the
first message (client/src/server/server.cpp:276-281). The model takes both nonces as given.

## What the cache results assume

`RamCache.Expected` and `RemoteFs.Ordinary` say it: names under open handles are not removed or renamed,
directories are neither renamed nor opened as files, UNLINK is for files and RMDIR for directories, writes
go through handles the cache has seen opened, and a read ends below 2^64. Paths have one spelling, OPEN
neither creates nor truncates (CREATE does), and the server answers reads in full. In the class a change by
another client and its announcement are one step, and a request that fails has changed nothing. In `CacheRuns`
neither is assumed: announcements arrive later, and a request may be carried out while its reply is lost. There
a request of the mounted folder that is answered and what the cache then drops are one step, and a fetch is
carried out by the server at one moment and stored at another.

## Model

| member | source | states |
|---|---|---|
| Poly1305.ClampLimbs | client/src/crypto/crypto.cpp:76-82 | loading five overlapping words, shifting and masking them one by one gives the 26-bit limbs of the clamped first key half |
| Poly1305.AndLimbs | client/src/crypto/crypto.cpp:77-81 | masking limb by limb is masking the number the limbs stand for, for any five limbs and masks |
| Poly1305.BlockLimbs | client/src/crypto/crypto.cpp:95-99 | the five limbs taken from a 16-byte block are its little-endian value |
| Poly1305.Columns | client/src/crypto/crypto.cpp:101-110 | the five column sums with the factors of 5 are congruent to the full product modulo 2^130-5 |
| Poly1305.ColumnBound | client/src/crypto/crypto.cpp:101-110 | no column sum of five products reaches 2^64 under the limb bounds the loop keeps; the carries are bounded in Mac.Carry |
| Poly1305.CarryPass | client/src/crypto/crypto.cpp:112-118 | one lazy carry pass keeps the residue modulo 2^130-5, for any columns |
| Poly1305.AbsorbAppend | client/src/crypto/crypto.cpp:94-122 | absorbing a concatenation of whole blocks is absorbing the parts in turn |
| Poly1305.PartialBlock | client/src/crypto/crypto.cpp:151-156 | a short last block padded with 1 and zeros and absorbed without the high bit is the section 2.5 recurrence of RFC 8439 with its marker |
| Poly1305.MarkedValue | client/src/crypto/crypto.cpp:153-154 | the padded buffer has the value of the partial block plus 2^(8 * length) |
| Poly1305.LastBlock | client/src/crypto/crypto.cpp:150-157 | with or without a partial block the reference accumulator of the whole message is reached |
| Poly1305.AccumulateWhole | client/src/crypto/crypto.cpp:94-122 | the reference recurrence splits at any whole number of blocks |
| Poly1305.FinalCarryBounds | client/src/crypto/crypto.cpp:158-164 | from the loop bounds one more carry pass brings every limb below 2^26, the one that takes the last carry included |
| Poly1305.FinalSubtract | client/src/crypto/crypto.cpp:166-179 | adding 5 and testing bit 130 decides the single subtraction needed: the selected limbs are the value modulo 2^130-5 |
| Poly1305.MaskSelect | client/src/crypto/crypto.cpp:172-179 | AND with an all-ones or all-zeros mask and OR picks exactly one of the two words |
| Poly1305.RepackWords | client/src/crypto/crypto.cpp:181-184 | the ORs of the shifted limbs never collide: each packed word is a sum |
| Poly1305.RepackValue | client/src/crypto/crypto.cpp:181-184 | the packed words, and what the packing drops above 2^128, make up the value of the limbs |
| Poly1305.AddPad | client/src/crypto/crypto.cpp:186-189 | adding the pad word by word with the carry in 64 bits gives the little-endian bytes of the sum modulo 2^128 |
| Poly1305.LowWord | client/src/crypto/crypto.cpp:112-116 | truncating a 64-bit column to 32 bits first keeps its low 26 bits |
| Poly1305.JoinHighBit | client/src/crypto/crypto.cpp:99 | the OR of the top limb and the high bit is their sum |
| Poly1305.Mac.constructor | client/src/crypto/crypto.cpp:76-87 | a fresh authenticator has absorbed nothing, with the clamped multiplier and the pad of its key |
| Poly1305.Mac.Blocks | client/src/crypto/crypto.cpp:89-124 | any number of blocks leaves bounded limbs congruent modulo 2^130-5 to the recurrence (acc + block + marker) * r |
| Poly1305.Mac.Step | client/src/crypto/crypto.cpp:95-121 | one turn of the loop: residue and bounds kept, every 32- and 64-bit intermediate in range |
| Poly1305.Mac.Products | client/src/crypto/crypto.cpp:101-110 | the five 64-bit column sums are computed without overflow and make up the product modulo 2^130-5 |
| Poly1305.Mac.Carry | client/src/crypto/crypto.cpp:112-118 | the carries fit 32 bits; the carried limbs keep the loop bounds and are congruent to the columns |
| Poly1305.Mac.Update | client/src/crypto/crypto.cpp:126-148 | whatever the split into calls, the authenticator has absorbed the concatenation |
| Poly1305.Mac.Finish | client/src/crypto/crypto.cpp:150-195 | returns the reference tag of everything fed so far |
| Poly1305.Mac.MarkEnd | client/src/crypto/crypto.cpp:151-155 | the buffer holds the partial block, a 1 and zeros |
| Poly1305.Mac.Reduce | client/src/crypto/crypto.cpp:158-194 | from bounded limbs the output is ((acc mod 2^130-5) + pad) mod 2^128, little-endian |
| Poly1305.Mac.Select | client/src/crypto/crypto.cpp:166-179 | the masked choice leaves the fully reduced limbs |
| Poly1305.Mac.AddWords | client/src/crypto/crypto.cpp:186-189 | the four words plus the pad, modulo 2^128 |
| ChaCha20.RotateIsSum | client/src/crypto/crypto.cpp:10 | a left rotation of a 32-bit word is the sum of its two moved parts |
| ChaCha20.RotateBack | client/src/crypto/crypto.cpp:10 | rotating on by the remaining distance gives the word back |
| ChaCha20.QuarterInvertible | client/src/crypto/crypto.cpp:23-28 | the quarter round of section 2.1 of RFC 8439 can be run backwards |
| ChaCha20.RoundUndone | client/src/crypto/crypto.cpp:23-28 | on four words of the state too, whichever they are |
| ChaCha20.ScheduleUndone | client/src/crypto/crypto.cpp:38-47 | any sequence of quarter rounds on any columns can be run backwards |
| ChaCha20.RoundsUndone | client/src/crypto/crypto.cpp:37-47 | so can any number of double rounds |
| ChaCha20.WorkingStatesDiffer | client/src/crypto/crypto.cpp:30-47 | blocks of different key, counter or nonce never reach the same state after the twenty rounds |
| ChaCha20.Core.QuarterInPlace | client/src/crypto/crypto.cpp:23-28 | on four words of the state in place: the quarter round, and nothing else changes |
| ChaCha20.Core.DoubleRound | client/src/crypto/crypto.cpp:38-47 | column and diagonal rounds in the order of section 2.3 of RFC 8439 |
| ChaCha20.Core.Block | client/src/crypto/crypto.cpp:30-49 | the 64-byte keystream block of key, counter and nonce |
| ChaCha20.StreamSplit | client/src/crypto/crypto.cpp:59-65 | a stream can be taken up at any block: the rest of the input under the counter moved on, wrapping at 2^32, gives the rest of the output |
| ChaCha20.XorStreamInvolution | client/src/crypto/crypto.cpp:51-66 | applying the stream twice gives the input back |
| ChaCha20.ChaCha20Xor | client/src/crypto/crypto.cpp:51-66 | fills the output array: byte i is input byte i XOR byte i mod 64 of block counter + i / 64, the counter wrapping at 2^32; the rest of the array stays |
| ChaCha20.XorBlock | client/src/crypto/crypto.cpp:61-64 | XORs one block of keystream into its place in the output array and leaves the rest |
| Aead.OpenIffSealed | client/src/crypto/crypto.cpp:233-252 | a ciphertext and tag open to p exactly when they are what sealing p gives, for every key, nonce, associated data and length |
| Aead.OneStream | client/src/crypto/crypto.cpp:215-240 | one-time key and ciphertext are cut from one keystream: encrypting 64 zeros and then the plaintext from block 0 on shows the key in the first 32 bytes and the ciphertext from byte 64 on |
| Aead.KeyBlockUnused | client/src/crypto/crypto.cpp:215-240 | no byte is encrypted with a block whose state after the rounds is that of the block the key is cut from, exactly for plaintexts of up to 2^32 - 1 blocks |
| Aead.CipherByte | client/src/crypto/crypto.cpp:233-240 | byte i of the ciphertext is byte i of the plaintext XOR byte i mod 64 of block 1 + i / 64, the counter wrapping at 2^32 |
| Aead.MacDataLayout | client/src/crypto/crypto.cpp:199-213 | both covered parts begin at multiples of 16 and are filled up with zeros, and their lengths are the last 16 bytes |
| Aead.MacDataInjective | client/src/crypto/crypto.cpp:199-213 | the padded, length-suffixed authenticator input determines associated data and ciphertext |
| Aead.PolyTag | client/src/crypto/crypto.cpp:199-213 | feeding the pieces and paddings one by one gives the tag of section 2.8 of RFC 8439 |
| Aead.MakePolyKey | client/src/crypto/crypto.cpp:215-223 | the one-time key is the first half of keystream block 0 |
| Aead.CtEqual | client/src/crypto/crypto.cpp:225-229 | true exactly for equal byte strings |
| Aead.AeadEncrypt | client/src/crypto/crypto.cpp:233-240 | ciphertext array and tag are the sealed form |
| Aead.AeadDecrypt | client/src/crypto/crypto.cpp:242-252 | true exactly for the tag encryption makes, then the array holds the plaintext; false leaves it untouched |
| Wire.PodRoundTrip | client/include/net/common.h:150-151 | a fixed-width number reads back modulo its width and leaves the rest |
| Wire.StrRoundTrip | client/include/net/common.h:152-182 | a string reads back whole exactly when its length is below 2^32, and its first length-mod-2^32 bytes otherwise |
| Wire.HeaderRoundTrip | client/include/net/common.h:102-109 | writing a message header and reading it back is the identity, negative status included |
| Wire.HeaderOverlay | client/include/net/common.h:102-109 | every 20 bytes are a header: overlaying the record on them and writing it out gives them back |
| Wire.KnownHeader | client/include/net/common.h:102-109 | where each field of a header lies, little-endian, a negative status as two's complement |
| Wire.Writer.Str | client/include/net/common.h:152-156 | appends the length prefix and that many bytes |
| Wire.Writer.Raw | client/include/net/common.h:145-149 | appends exactly the bytes |
| Wire.Writer.Pod | client/include/net/common.h:150-151 | appends the little-endian bytes of the value |
| Wire.Reader.Raw | client/include/net/common.h:167-172 | takes exactly n bytes or fails without moving |
| Wire.Reader.Pod | client/include/net/common.h:173-174 | takes a number of the given width or fails without moving |
| Wire.Reader.Str | client/include/net/common.h:175-190 | takes a length-prefixed string or fails having moved past the length at most |
| SecureChannel.NonceRepeats | client/src/crypto/crypto.cpp:259-275 | two records share a nonce exactly when their numbers agree modulo 2^64 |
| SecureChannel.KnownNonce | client/src/crypto/crypto.cpp:258-261 | the counter is in the first bytes of the nonce, little-endian, and the rest is zero |
| SecureChannel.NoncesFresh | client/src/crypto/crypto.cpp:274-275 | no nonce repeats within 2^64 records from any start |
| SecureChannel.ReceiveRecord | client/src/crypto/crypto.cpp:316-353 | a sent record is received and nothing after it touched exactly when payload plus 36 is at most 256 MiB; a wrapped length is refused |
| SecureChannel.Received | client/src/crypto/crypto.cpp:334-353 | what is received from any bytes is exactly a record of the allowed size at their front, sealed under this key and counter; what follows it is left |
| SecureChannel.LengthField | client/src/crypto/crypto.cpp:329-339 | the 32-bit length field of an oversized record is out of the accepted range, wrapped or not |
| SecureChannel.ReceiveCut | client/src/crypto/crypto.cpp:334-353 | a record cut anywhere is not received |
| SecureChannel.ConversationReceived | client/src/crypto/crypto.cpp:316-353 | successive receives return the sent messages in wire order, up to the first the receiver refuses |
| SecureChannel.CutConversation | client/src/crypto/crypto.cpp:334-353 | if the stream ends anywhere, what was received is a prefix of what was sent |
| SecureChannel.StreamAppend | client/src/crypto/crypto.cpp:316-332 | sending one more message appends its record under the next counter |
| SecureChannel.ReceivePlainRecord | client/include/net/common.h:269-284 | an unencrypted message is received exactly when its payload is at most 64 KiB |
| SecureChannel.ReceivedPlain | client/include/net/common.h:271-277 | what is received unsealed from any bytes is exactly an unsealed message of at most 64 KiB at their front; what follows it is left |
| SecureChannel.KeysCross | client/include/crypto/auth.h:38-46 | each side sends with the key the other receives with |
| SecureChannel.KeysSeparate | client/include/crypto/auth.h:38-46 | as far as the hash has no collisions, two sides send with one key exactly if they are the same side of sessions of one secret and the same two nonces |
| SecureChannel.ByteStream.Write | client/src/crypto/crypto.cpp:359-375 | appends the bytes, or breaks off after some of them and closes the stream |
| SecureChannel.ByteStream.Read | client/src/crypto/crypto.cpp:359-375 | takes the oldest unread bytes, or fails when there are too few |
| SecureChannel.Channel.Send | client/src/crypto/crypto.cpp:316-332 | appends one record under the current counter; a write that fails leaves a beginning of the record, and the counter advances by one modulo 2^64 all the same |
| SecureChannel.Channel.MakeRecord | client/src/crypto/crypto.cpp:320-330 | length field and sealed record are the bytes of the record format |
| SecureChannel.Channel.Recv | client/src/crypto/crypto.cpp:334-353 | returns what one receive of the format gives for the unread bytes |
| SecureChannel.Channel.SendMessage | client/include/net/common.h:279-284 | the unencrypted form: header then payload, or a beginning of that |
| SecureChannel.Channel.RecvMessage | client/include/net/common.h:271-277 | the unencrypted form of receiving, with the 64 KiB limit |
| SecureChannel.Channel.Activate | client/include/crypto/auth.h:38-46 | both counters start at zero under the given keys |
| Base91.AlphabetTable | client/include/crypto/base91.h:10-12 | every digit's character decodes to it, and only characters of the alphabet decode |
| Base91.GroupBits | client/src/crypto/base91.cpp:31-40 | value and width of the next group are read from the low bits; the width is recovered from the value alone |
| Base91.GroupsAreGreedy | client/src/crypto/base91.cpp:31-40 | a group takes fourteen bits exactly when its low thirteen fit a pair of digits together with a fourteenth of either value |
| Base91.FlushRoundTrip | client/src/crypto/base91.cpp:45-48 | the last one or two digits carry exactly the pending bytes, no byte more or less |
| Base91.RoundTripFrom | client/src/crypto/base91.cpp:22-82 | encoder and decoder in step: from any pair of bit buffers the pending bytes and the rest of the data come out |
| Base91.RoundTrip | client/src/crypto/base91.cpp:22-82 | decoding undoes encoding for every byte sequence, with white space anywhere in the text |
| Base91.EncodedTextIsClean | client/src/crypto/base91.cpp:84-91 | an encoding contains only characters of the alphabet |
| Base91.DecodesIffClean | client/src/crypto/base91.cpp:52-91 | a text decodes exactly when every character is white space or in the alphabet |
| Base91.EncodedLength | client/src/crypto/base91.cpp:22-50 | an encoding is never shorter than 8/7 of its data |
| Base91.ZerosEncoded | client/src/crypto/base91.cpp:22-48 | n zero bytes take two digits for every fourteen bits, and one or two for the rest, which is the lower bound up to rounding |
| Base91.KnownTexts | client/src/crypto/base91.cpp:22-48 | two encodings, one of a group of fourteen bits and one of thirteen |
| Base91.Encode | client/src/crypto/base91.cpp:22-50 | the loop over the bit buffer (at most 13 bits between bytes) produces the reference encoding |
| Base91.Decode | client/src/crypto/base91.cpp:52-82 | the loop (at most 7 bits between pairs) produces the reference decoding, or none for a foreign character |
| Base91.DrainBytes | client/src/crypto/base91.cpp:71-75 | the do-while loop moves whole bytes out and leaves fewer than 8 bits |
| Base91.DecodeTable | client/src/crypto/base91.cpp:9-18 | the table holds every digit at its character and -1 elsewhere |
| Base91.Base91IsClean | client/src/crypto/base91.cpp:84-91 | true exactly for white space and alphabet characters |
| Signaling.PayloadParsed | client/src/net/signaling.cpp:60-93 | a serialized token parses to what its 32-bit length prefixes kept of it, when that is usable |
| Signaling.PayloadRoundTrip | client/src/net/signaling.cpp:60-93 | a payload reads back as its token exactly when the token is well formed: address and secret not empty, port not zero, lengths below 2^32 |
| Signaling.OldPayloadParsed | client/src/net/signaling.cpp:73-93 | a payload of version 1, without the permission byte, is read as writable |
| Signaling.KnownPayload | client/src/net/signaling.cpp:60-71 | where each field of a payload lies |
| Signaling.BundleRoundTrip | client/src/net/signaling.cpp:109-150 | opening a sealed bundle under its key gives the token back |
| Signaling.OfflineRoundTrip | client/src/net/signaling.cpp:282-306 | an offline blob opens to its token, with white space pasted in anywhere |
| Signaling.WrapRoundTrip | client/src/net/signaling.cpp:321-370 | the wrapped blob key unwraps under the same derived key |
| Signaling.CloudRoundTrip | client/src/net/signaling.cpp:308-372 | sealing succeeds for exactly the two code lengths when the derivation does, and the record opens under the same code to the token |
| Signaling.CodeSplit | client/src/net/signaling.cpp:236-244 | exactly the lengths 6 and 16 split, into two parts that add up to the whole |
| Signaling.OfflineBlobRouted | client/src/app/session.cpp:103-126 | every offline blob is longer than a room code and begins with none of the web prefixes, so it reaches the offline opener |
| Signaling.RoomCodeRouted | client/src/app/session.cpp:103-126 | a clean room code reaches the room lookup exactly when it does not begin with a web prefix |
| Signaling.MisroutedRoomCode | client/src/app/session.cpp:104-107 | a six-character code the generator can make begins with such a prefix and is refused |
| Signaling.SpacedCodeMisnamed | client/src/net/signaling.cpp:271-275 | a text recognised as a room code is looked up under the id of that code exactly when it holds no white space |
| Signaling.PublishedCodeResolves | client/src/app/session.cpp:103-126 | through publishing, routing, lookup and opening: a text that is a published code but for white space resolves to its token exactly when it holds none and the code does not begin with a web prefix |
| Signaling.TypedRoute | client/src/app/session.cpp:103-126 | a text that is a clean code but for white space is a web code or a room code, never an offline blob |
| Signaling.SpacedRoomCodes | client/src/app/session.cpp:108-115 | a space inside a code, or ten behind a short one, which makes it as long as a long one: both are recognised, and both name a record other than the code does |
| Signaling.SpacedAbcdef | client/src/app/session.cpp:108-115 | the texts abc def and abcdef with ten spaces are such |
| Signaling.SerializeTokenPayload | client/src/net/signaling.cpp:60-71 | the writer calls produce the payload format |
| Signaling.DeserializeTokenPayload | client/src/net/signaling.cpp:73-93 | the reader calls accept exactly the payload format, version 1 read as writable |
| Signaling.DeserializeMiddle | client/src/net/signaling.cpp:80-92 | the fields after the version, in their order |
| Signaling.SealToken | client/src/net/signaling.cpp:109-124 | magic, nonce, ciphertext and tag of the serialized token |
| Signaling.OpenBundle | client/src/net/signaling.cpp:126-150 | the error paths and the token are those of the bundle format |
| Signaling.SealForOffline | client/src/net/signaling.cpp:282-292 | the text of magic, blob key and bundle |
| Signaling.OpenOfflineBlob | client/src/net/signaling.cpp:294-306 | the error paths and the token are those of the offline format |
| Signaling.SealForCloud | client/src/net/signaling.cpp:308-340 | the record of the code, or none for a bad length or a failed derivation |
| Signaling.OpenCloudRecord | client/src/net/signaling.cpp:342-372 | the error paths and the token are those of the record format |
| BlockStore.EvictKeepsMostRecent | client/src/fs/ram_cache.cpp:427-442 | eviction keeps the longest run of most recently used blocks that fits the budget |
| BlockStore.NewestSurvives | client/src/fs/ram_cache.cpp:471-478 | a block just stored stays whenever it fits at all |
| BlockStore.GetByLastUse | client/src/fs/ram_cache.cpp:444-458 | a lookup keeps the blocks in the order of their last use, a hit being the latest of its block |
| BlockStore.PutByLastUse | client/src/fs/ram_cache.cpp:459-479 | so does an insertion, and every block it evicts was used before every block it keeps |
| BlockStore.LeastRecentlyUsed | client/src/fs/ram_cache.cpp:418-479 | so does every run of lookups, insertions and purges |
| BlockStore.PurgeMembers | client/src/fs/ram_cache.cpp:418-426 | a purge removes exactly the blocks of the path |
| BlockStore.GetMembers | client/src/fs/ram_cache.cpp:443-458 | a lookup adds nothing and leaves only blocks of the asked version for the file |
| BlockStore.HeldStill | client/src/fs/ram_cache.cpp:444-458 | a lookup that hits leaves every other lookup of the file as it was |
| BlockStore.PutMembers | client/src/fs/ram_cache.cpp:459-479 | an insertion adds at most the new block and leaves no more bytes than the budget |
| BlockStore.DropLinked | client/src/fs/ram_cache.cpp:421-439 | removing a list node and its block keeps list and table in step and subtracts exactly its bytes |
| BlockStore.TouchLinked | client/src/fs/ram_cache.cpp:454 | moving a node to the front keeps list and table in step and is the move of the entry |
| BlockStore.InsertLinked | client/src/fs/ram_cache.cpp:471-477 | a node in front of the list with its block keeps them in step and adds exactly its bytes |
| BlockStore.FlatDrop | client/src/fs/ram_cache.cpp:435-436 | a block erased from its file, and the file when it is emptied, is one key less in the whole store |
| BlockStore.FlatInsert | client/src/fs/ram_cache.cpp:466-477 | a block placed in its file is one key more |
| BlockStore.ViewAnswers | client/src/fs/ram_cache.cpp:446-453 | the questions asked of the two-level table are answered as the list of entries answers them |
| BlockStore.Store.constructor | client/src/fs/ram_cache.cpp:239-244 | an empty store |
| BlockStore.Store.PurgeFileLocked | client/src/fs/ram_cache.cpp:418-426 | drops every block of the path, keeps the order of the rest, and the byte count is the sum of what is left |
| BlockStore.Store.PurgeBlocks | client/src/fs/ram_cache.cpp:421-424 | the loop over the blocks of the file, in any order |
| BlockStore.Store.EvictToBudgetLocked | client/src/fs/ram_cache.cpp:427-442 | drops least recently used blocks, and no more than needed |
| BlockStore.Store.DropLast | client/src/fs/ram_cache.cpp:429-440 | drops exactly the least recently used block, and its file when empty |
| BlockStore.Store.BlockGetLocked | client/src/fs/ram_cache.cpp:443-458 | hit exactly when the block is stored under the asked version; the hit moves to the front; a version mismatch drops the file |
| BlockStore.Store.BlockPutLocked | client/src/fs/ram_cache.cpp:459-479 | stores the block under its version unless it is there, dropping a stale file first and evicting to the budget after |
| BlockStore.Store.Insert | client/src/fs/ram_cache.cpp:466-477 | the new block is the most recent one |
| RemoteFs.ParentOfJoin | client/src/fs/ram_cache.cpp:135-146 | the parent of a joined path is the directory, and the name comes back |
| RemoteFs.JoinOfParent | client/src/fs/ram_cache.cpp:135-146 | an absolute path without empty components is its name joined to its parent |
| RemoteFs.WriteThenRead | client/src/server/server.cpp:432-473 | what is written through a handle is what a read there returns, through it or any other handle on the file; the rest of the file is the overwritten one |
| RemoteFs.OverwriteBytes | client/src/server/server.cpp:451-473 | byte by byte after a write: what was put, else what was there, else zero |
| RemoteFs.TruncateThenRead | client/src/server/server.cpp:529-540 | a file has the length it is truncated to, filled with zeros, and nothing else can be truncated |
| RemoteFs.CreateThenRead | client/src/server/server.cpp:400-431 | CREATE makes a file or takes the one there, emptied only on demand, and opens it, exactly if the name is a file or free in a directory |
| RemoteFs.OpenThenRead | client/src/server/server.cpp:400-431 | OPEN opens exactly files and changes none |
| RemoteFs.RenameMoves | client/src/server/server.cpp:518-528 | a renamed file is under its new name all it was under the old one, in place of any file there, and the old name is gone |
| RemoteFs.RemoveThenGone | client/src/server/server.cpp:507-517 | exactly files and directories nothing is in can be removed, and are then gone |
| RemoteFs.MkdirThenEmpty | client/src/server/server.cpp:496-506 | MKDIR makes an empty directory, exactly where nothing was, in a directory |
| RemoteFs.AttributesSet | client/src/server/server.cpp:566-601 | CHMOD and UTIMENS set the one attribute, as GETATTR tells, and leave the others |
| RemoteFs.ServeFrame | client/src/server/server.cpp:362-601 | a request changes the bytes, nodes and directory names it is about and no others; a failed one changes nothing |
| RemoteFs.ServeSound | client/src/server/server.cpp:400-481 | handles stay on existing files while names under them are left alone, and handle numbers are never reused |
| RemoteFs.Remote.Request | client/src/fs/ram_cache.cpp:290-292 | one forwarded request: the answer and the filesystem after it; a fault before it took effect and a directory that cannot be read are counted |
| RamCache.TruthKept | client/src/fs/ram_cache.cpp:734-862 | if what a request may have made untrue is dropped, the rest of the tables stays true of the filesystem after it |
| RamCache.BlocksAfter | client/src/fs/ram_cache.cpp:698-703 | blocks of untouched files stay true |
| RamCache.MetaAfter | client/src/fs/ram_cache.cpp:303-325 | cached attributes and absences of untouched paths stay true |
| RamCache.DirsAfter | client/src/fs/ram_cache.cpp:328-344 | cached listings of directories whose names did not change stay true |
| RamCache.HandlesAfter | client/src/fs/ram_cache.cpp:353-369 | the path of every tracked handle stays the one it was opened on |
| RamCache.ForgettingEnough | client/src/fs/ram_cache.cpp:734-862 | every handler drops nothing but what it has to, and all of that |
| RamCache.StepTrue | client/src/fs/ram_cache.cpp:734-862 | after any expected request the tables its handler leaves are true of the filesystem |
| RamCache.NewHandle | client/src/fs/ram_cache.cpp:750-754 | the number of a new handle occurs in no table and no queued job |
| RamCache.NoneMoved | client/src/fs/ram_cache.cpp:397-402 | without an open handle on the old name a rename moves no handle |
| RamCache.AnnouncedEnough | client/src/fs/ram_cache.cpp:272-278 | the paths the server announces make another client's cache forget enough for any request |
| RamCache.CachedIsPlain | client/src/fs/ram_cache.cpp:608-671 | a successful answer from the cache is the plain one, for reads of up to 1 MiB and for attributes of anything but directories |
| RamCache.AnswersAgree | client/src/fs/ram_cache.cpp:627-641 | a read through the block cache and a plain one agree exactly when the request or the rest of the file is within 1 MiB |
| RamCache.Piece | client/src/fs/ram_cache.cpp:628-640 | one turn of the read loop continues the bytes, or the file has no more |
| RamCache.FetchedBlock | client/src/fs/ram_cache.cpp:505-525 | the answer to a fetch is the block it is stored as; past 2^44 blocks the 64-bit offset wraps and nothing is claimed |
| RamCache.LongRead | client/src/fs/ram_cache.cpp:627-641 | a file of 1 MiB and a byte, read as a whole, is answered differently |
| RamCache.DirectoryTimesGoStale | client/src/fs/ram_cache.cpp:744-862 | for every request that succeeds and every directory with cached attributes: they are dropped exactly if the request is about the directory itself, and those left are the plain ones exactly if the request changes no name in the directory or the time happens to be the same |
| RamCache.StaleRoot | client/src/fs/ram_cache.cpp:816-829 | MKDIR of /a at time 5 leaves time 0 cached for the root |
| RamCache.ReadAheadPattern | client/src/fs/ram_cache.cpp:581-591 | read-ahead follows sequential reading only, opens with the second read in a row, doubles and stops at 32 blocks |
| RamCache.Trim | client/src/fs/ram_cache.cpp:346-350 | sheds entries down to the target and changes none |
| RamCache.RamCache.constructor | client/src/fs/ram_cache.cpp:263-279 | a new cache knows nothing, which is true |
| RamCache.RamCache.MetaLookup | client/src/fs/ram_cache.cpp:295-302 | hit exactly when the entry is no older than 2 s; an expired entry is dropped |
| RamCache.RamCache.MetaStore | client/src/fs/ram_cache.cpp:303-308 | the entry is stored and the absence dropped; the other entries stay while there are fewer than 8192, and then half of that stays |
| RamCache.RamCache.MetaErase | client/src/fs/ram_cache.cpp:309-313 | attributes and absence of the path are dropped, nothing else |
| RamCache.RamCache.NegLookup | client/src/fs/ram_cache.cpp:314-320 | hit exactly when the absence is no older than 1 s |
| RamCache.RamCache.NegStore | client/src/fs/ram_cache.cpp:321-325 | the absence is stored; the others stay while there are fewer than 4096, and then half of that stays |
| RamCache.RamCache.DirLookup | client/src/fs/ram_cache.cpp:328-335 | hit exactly when the listing is no older than 5 s |
| RamCache.RamCache.DirStore | client/src/fs/ram_cache.cpp:336-340 | the listing is stored; the others stay while there are fewer than 1024, and then half of that stays |
| RamCache.RamCache.DirErase | client/src/fs/ram_cache.cpp:341-344 | the listing of the path is dropped, nothing else |
| RamCache.RamCache.InvalidateFile | client/src/fs/ram_cache.cpp:698-703 | attributes, absence, captured versions and blocks of the path are dropped, nothing else |
| RamCache.RamCache.BlockFetch | client/src/fs/ram_cache.cpp:481-534 | returns the current block of the file on success, asks the remote exactly on a miss with a known handle, and stores what it fetched |
| RamCache.RamCache.EnsureVersion | client/src/fs/ram_cache.cpp:537-569 | a version is captured with the handle: the one it has, without asking, while it is no older than 2 s; else from the table, without asking, or from exactly one request |
| RamCache.RamCache.CurrentAttr | client/src/fs/ram_cache.cpp:548-557 | true attributes of a path, from the table without asking while they are no older than 2 s, else from exactly one request |
| RamCache.RamCache.ScheduleReadAhead | client/src/fs/ram_cache.cpp:571-606 | unless the budget is zero: the pattern moves on, and as many fetches of the blocks that follow are queued as window, half the budget, 32 and the room in a queue of 512 allow |
| RamCache.RamCache.QueueAhead | client/src/fs/ram_cache.cpp:597-605 | the loop queues fetches of consecutive blocks while there is room |
| RamCache.RamCache.ReadPattern | client/src/fs/ram_cache.cpp:577-591 | the handle's pattern and window after a read |
| RamCache.RamCache.ReadBlocks | client/src/fs/ram_cache.cpp:623-641 | the read loop returns file[off .. min(off + size, length)), or the status of a fault; with all its blocks held under the version it asks nothing |
| RamCache.RamCache.DoRead | client/src/fs/ram_cache.cpp:608-646 | a successful read returns those bytes of the file, in full when the cache is on and knows the handle; without faults only an unknown handle fails; with a captured version and all blocks held the remote is not asked |
| RamCache.RamCache.DoGetattr | client/src/fs/ram_cache.cpp:649-671 | success tells the attributes, ENOENT that the path is absent, and both are remembered; what the tables hold is answered from them without asking, anything else takes exactly one request, and any other failure is a fault |
| RamCache.RamCache.DoReaddir | client/src/fs/ram_cache.cpp:673-695 | a listing in the table and no older than 5 s is the answer and the remote is not asked; otherwise exactly one request is made, success names exactly the children and is remembered with their attributes, and a failure is a fault or ENOENT for what is no directory |
| RamCache.RamCache.LearnChildren | client/src/fs/ram_cache.cpp:684-693 | the loop stores the attributes of every line of a listing, and loses none while there is room |
| RamCache.RamCache.Forget | client/src/fs/ram_cache.cpp:744-862 | each operation's invalidations, in the source's order |
| RamCache.RamCache.ForgetRenamed | client/src/fs/ram_cache.cpp:831-847 | the invalidations of a rename |
| RamCache.RamCache.DoMutation | client/src/fs/ram_cache.cpp:744-862 | the remote's own answer is returned, and the cache stays true |
| RamCache.RamCache.Settle | client/src/fs/ram_cache.cpp:750-783 | a success is followed by its invalidations, a new handle is remembered, a released one forgotten whatever the answer |
| RamCache.RamCache.Request | client/src/fs/ram_cache.cpp:734-862 | every operation keeps the cache true and answers as the remote would, up to the bounds stated above; READ, GETATTR and READDIR fail only by a fault or as the remote would |
| RamCache.RamCache.InvalidateCallback | client/src/fs/ram_cache.cpp:273-277 | an announced path loses its file knowledge and the listings of itself and its parent |
| RamCache.RamCache.OtherClient | client/src/fs/ram_cache.cpp:272-278 | a change by another client followed by its announcements keeps the cache true and drops exactly what they name |
| RamCache.RamCache.RunJob | client/src/fs/ram_cache.cpp:600-604 | a prefetch job, whenever it runs, keeps the cache true, asks the remote exactly on a miss with an open handle, and leaves the filesystem as it was |
| CacheRuns.FactKept | client/src/server/server.cpp:362-601 | what a request does not touch stays right: a block, attributes, an absence, a listing |
| CacheRuns.TouchedIsAnnounced | client/src/server/server.cpp:429-595 | whatever a request may make wrong is about a path the server announces for it |
| CacheRuns.SettledForgets | client/src/fs/ram_cache.cpp:744-862 | after its own request the cache holds nothing new and nothing the request touched |
| CacheRuns.SettledKeeps | client/src/fs/ram_cache.cpp:744-862 | and all it held that the request is not about |
| CacheRuns.AnnouncedDrops | client/src/fs/ram_cache.cpp:272-278 | an announcement drops exactly what the cache holds about the path |
| CacheRuns.StoredHolds | client/src/fs/ram_cache.cpp:453-479 | storing an answer adds that answer and nothing else |
| CacheRuns.BlockRight | client/src/fs/ram_cache.cpp:500-525 | what a fetch returns is the current block of the file its handle is on, under whatever version it was asked for |
| CacheRuns.KeepsHandles | client/src/fs/ram_cache.cpp:353-402 | every step leaves the tracked handles on the files they were opened on |
| CacheRuns.KeepsInv | client/src/fs/ram_cache.cpp:481-703 | every step keeps what is held of a kind right or about to be announced, and every answer on its way that no change has touched right: own requests, requests whose reply is lost, requests of others, announcements, the two halves of a fetch, captures, expiry |
| CacheRuns.Run | client/src/fs/ram_cache.cpp:734-862 | so does every run in which no answer of that kind is stored disturbed |
| CacheRuns.Coherence | client/src/fs/ram_cache.cpp:734-862 | after any such run from an empty cache every cached block is the current block of its file, cached attributes of files are theirs, missing paths are missing, and listings name exactly what is there, unless an announcement about the path has yet to arrive; each kind on the condition for its own answers alone |
| ServedReads.BlockSpared | client/src/server/server.cpp:451-473 | a write leaves the bytes of a block as they were exactly when it makes the file no longer within the block and puts no other byte into it |
| ServedReads.OnlyBlock | client/src/fs/ram_cache.cpp:443-479 | a block stored in a table that holds nothing of its file is found under its own version and no other, and only if it fits the budget |
| ServedReads.WriteDone | client/src/fs/ram_cache.cpp:762-772 | a write of the mounted folder, at the server and in the cache |
| ServedReads.LateBlock | client/src/fs/ram_cache.cpp:481-526 | a fetch asked for before a write and stored after it, whatever the cache held: the block is found under the version it was asked for, and is right exactly when the write spares it |
| ServedReads.SplitFetch | client/src/fs/ram_cache.cpp:498-526 | it is found under the new version of the file, and wrong, exactly when the write leaves size and time as they were and puts another byte into the block, which fits the budget |
| ServedReads.SplitCapture | client/src/fs/ram_cache.cpp:547-569 | when the version of the handle is captured across the same write, it is found through the handle, and wrong, exactly when the write puts another byte into it |
| ServedReads.LateByte | client/src/fs/ram_cache.cpp:498-526 | a run from an empty cache: writing 2 over a file of one byte 1 at the same time leaves the 1 to be found under the new version |
| ServedReads.LateVersion | client/src/fs/ram_cache.cpp:547-569 | another: at whatever time, a version captured across the write finds it too |
| ServedReads.LostWrite | client/src/clients/client.cpp:256-302 | a write that is carried out while its reply is lost leaves a cached block right exactly when it spares the block, and the announcement of the path drops it |
| ServedReads.VersionGone | client/src/fs/ram_cache.cpp:392-402 | a request that changes the bytes of an open file takes the captured version from its handles, or is announced |
| ServedReads.KeepsApart | client/src/fs/ram_cache.cpp:436-570 | every step keeps the blocks held or on their way under a version of the present bytes right, and the captured versions among those |
| ServedReads.RunApart | client/src/fs/ram_cache.cpp:436-570 | so does every run |
| ServedReads.ServedCurrent | client/src/fs/ram_cache.cpp:608-646 | whatever block fetches are disturbed: after any run in which no attributes are stored or captured disturbed, and no version the file takes on is one that blocks of its older bytes are kept under, a block found through any handle is the current one, unless an announcement about the file has yet to arrive |
| FetchProtocol.KeepsSingleFlight | client/src/fs/ram_cache.cpp:481-517 | fetches in flight and the threads that own them stay in one-to-one correspondence |
| FetchProtocol.KeepsCounted | client/src/fs/ram_cache.cpp:370-381 | the count of a handle stays the number of its reads at the host |
| FetchProtocol.KeepsWakeups | client/src/fs/ram_cache.cpp:382-391 | whoever sleeps waits for something still to happen: no wakeup is lost |
| FetchProtocol.KeepsClosed | client/src/fs/ram_cache.cpp:382-391 | a closer past its wait, and a forwarded RELEASE, mean that the handle is closing and drained |
| FetchProtocol.StoppedForGood | client/src/fs/ram_cache.cpp:370-391 | a closing handle stays closing and its reads only become fewer |
| FetchProtocol.DrainedForGood | client/src/fs/ram_cache.cpp:370-391 | a closing handle without reads stays without |
| FetchProtocol.Run | client/src/fs/ram_cache.cpp:481-518 | the invariant holds after every interleaving |
| FetchProtocol.Safety | client/src/fs/ram_cache.cpp:481-518 | in every interleaving no two fetches of one block are at the host and a released handle has no read there |
| FetchProtocol.ReadAdmitted | client/src/fs/ram_cache.cpp:370-376 | in every interleaving a read on a handle that was opened, and that nobody has begun to close, is let through and counted, however many are at the host |
| FetchProtocol.MissClaims | client/src/fs/ram_cache.cpp:481-498 | in every interleaving a thread that does not find its block fetches it exactly if nobody else is at it, and waits otherwise |
| FetchProtocol.ReleasedForGood | client/src/fs/ram_cache.cpp:775-783 | once RELEASE is forwarded no read on the handle starts in any continuation |
| FetchProtocol.ClosingDrains | client/src/fs/ram_cache.cpp:382-391 | the reads on a closing handle never grow in any continuation |
| FetchProtocol.NoDeadlock | client/src/fs/ram_cache.cpp:484-497 | while a thread is in the protocol one that is awake is; a sleeper has a thread at work that will wake it |
| FetchProtocol.FinishWakes | client/src/fs/ram_cache.cpp:515-517 | the end of a fetch leaves nobody asleep on a block |
| FetchProtocol.LastReadWakes | client/src/fs/ram_cache.cpp:377-381 | the end of the last read leaves no closer asleep |
| FetchProtocol.Tables.FhAdd | client/src/fs/ram_cache.cpp:353-358 | a new handle, not closing and without reads |
| FetchProtocol.Tables.Look | client/src/fs/ram_cache.cpp:484-497 | claims the fetch exactly on a miss nobody is fetching |
| FetchProtocol.Tables.FhBeginRead | client/src/fs/ram_cache.cpp:370-376 | admits a read exactly on a known handle that is not closing |
| FetchProtocol.Tables.FhEndRead | client/src/fs/ram_cache.cpp:377-381 | uncounts the read and wakes closers after the last |
| FetchProtocol.Tables.FinishFetch | client/src/fs/ram_cache.cpp:515-517 | gives the fetch up and wakes everyone who waits |
| FetchProtocol.Tables.FhBeginClose | client/src/fs/ram_cache.cpp:382-391 | marks the handle closing and tells whether to wait |
| FetchProtocol.Tables.FhRemove | client/src/fs/ram_cache.cpp:359-362 | forgets the handle |
| ClientMux.KeepsDistinct | client/src/clients/client.cpp:273-279 | request numbers stay distinct and below the counter |
| ClientMux.KeepsTable | client/src/clients/client.cpp:275-301 | the table lists exactly the requests between registration and removal |
| ClientMux.KeepsReader | client/src/clients/client.cpp:241-255 | a record the reader holds belongs to the number of the reply it received |
| ClientMux.KeepsDrained | client/src/clients/client.cpp:256-265 | after the drain every listed record is done and the connection is dead |
| ClientMux.KeepsHonest | client/src/clients/client.cpp:248-305 | a record that is done is what a reply to its number said, EIO included, unless it was listed at the drain, and then it is EIO; requests answer what their records said |
| ClientMux.Run | client/src/clients/client.cpp:226-306 | the wiring of numbers, table and reader holds after every interleaving |
| ClientMux.Answers | client/src/clients/client.cpp:226-306 | numbers are never reused; a request listed at the drain answers EIO; any other answers the status, EIO included, of a reply to its own number, never an invalidation, and the payload of one; of the same one when any two replies to this number agree in one of the two |
| ClientMux.RunHonest | client/src/clients/client.cpp:226-306 | so it is after every interleaving, with the requests that were listed when it drained |
| ClientMux.RunRefused | client/src/clients/client.cpp:268-302 | a request ends without an answer only after it found the connection dead, could not be sent, or stopped waiting while its record was not done |
| ClientMux.AliveUntil | client/src/clients/client.cpp:226-262 | and a connection is dead only after a disconnect or the end of the reader |
| ClientMux.OnlyReply | client/src/clients/client.cpp:226-306 | in every interleaving: a request that has ended without any of those, was not listed at the drain and got one reply has answered exactly that reply |
| ClientMux.ReplyReturned | client/src/clients/client.cpp:236-306 | in any state: a reply to a request that waits is found, delivered and returned, status and payload, whatever else is listed, and no other request notices |
| ClientMux.DrainedReply | client/src/clients/client.cpp:256-265 | a run in which a reply is delivered and EIO answered, because the connection is drained before the request is off the list |
| ClientMux.NobodyHangs | client/src/clients/client.cpp:256-297 | after the drain whoever waits finds its record done |
| ClientMux.NoneRegistered | client/src/clients/client.cpp:277-278 | after the drain nothing is registered in any continuation |
| ClientMux.TornReply | client/src/clients/client.cpp:293-305 | any two replies to one number that differ in both status and payload can lead to an answer that is neither |
| ClientMux.Conn.TakeId | client/src/clients/client.cpp:273-274 | the next number and a fresh record |
| ClientMux.Conn.Register | client/src/clients/client.cpp:275-279 | lists the record unless the connection has died |
| ClientMux.Conn.Unlist | client/src/clients/client.cpp:298-301 | takes the number off the table |
| ClientMux.Conn.FindPending | client/src/clients/client.cpp:241-246 | finds the record of a listed number |
| ClientMux.Conn.Complete | client/src/clients/client.cpp:248-254 | status, payload and done flag in one section |
| ClientMux.Conn.FailAll | client/src/clients/client.cpp:256-265 | every listed record fails and the reader is gone |
| ClientMux.Conn.FailListed | client/src/clients/client.cpp:258-264 | the loop fails every listed record and no other |
| ServerSessions.KeepsRegistered | client/src/server/server.cpp:319-339 | active streams stay the live handlers and the count their number |
| ServerSessions.KeepsCounts | client/src/server/server.cpp:347-351 | the count of a client stays positive and the number of its live authenticated streams |
| ServerSessions.CountedStreams | client/src/server/server.cpp:347-351 | only counting in and out change who is counted, one stream of one client at a time |
| ServerSessions.KeepsOwed | client/src/server/server.cpp:355 | callbacks made and still owed stay the number of changes |
| ServerSessions.ClientsChange | client/src/server/server.cpp:616-624 | first arrivals minus last departures stay the number of clients with a session |
| ServerSessions.KeepsStopping | client/src/server/server.cpp:223-246 | what is registered after a snapshot is in it, after the closing closed, after the wait gone |
| ServerSessions.Run | client/src/server/server.cpp:223-255 | the invariant holds after every interleaving |
| ServerSessions.SessionsAndCallbacks | client/src/server/server.cpp:319-356 | in every interleaving: connection count, session counts and reports are right |
| ServerSessions.EveryStreamServed | client/src/server/server.cpp:319-345 | in every interleaving the registered streams are those launched while the server ran, but for the ones whose handler could not start or has finished: none is turned away or given up |
| ServerSessions.StopIsClean | client/src/server/server.cpp:223-255 | a stop that found the server running closes all that is registered, waits until nothing is, and then clears no session |
| ServerSessions.NothingNew | client/src/server/server.cpp:319-327 | nothing is registered after a stop has begun, in any continuation |
| ServerSessions.ReturnsWithNone | client/src/server/server.cpp:223-255 | for every reachable state and every call of stop: when it returns no stream is registered exactly if the call found the server running or none was registered when it began |
| ServerSessions.SecondStopTooEarly | client/src/server/server.cpp:224 | a run of one launch and two calls after which the second has returned and the stream is registered |
| ServerSessions.Server.LaunchStream | client/src/server/server.cpp:319-327 | registers the stream exactly when the server is running, else closes it |
| ServerSessions.Server.AddSession | client/src/server/server.cpp:347-351 | tells exactly whether the stream is the client's first |
| ServerSessions.Server.DropSession | client/src/server/server.cpp:615-624 | tells exactly whether it was the client's last |
| ServerSessions.Server.Unregister | client/src/server/server.cpp:627-632 | takes the stream off and tells whether none is left |
| ServerSessions.Server.BeginStop | client/src/server/server.cpp:224 | only the call that finds the server running goes on |
| ServerSessions.Server.CloseAll | client/src/server/server.cpp:236-241 | the loop closes every stream of the snapshot and no other |
| Broadcast.SubShrink | client/src/server/server.cpp:701 | leaving out one more element of a subsequence gives a subsequence |
| Broadcast.KeepsInv | client/src/server/server.cpp:636-706 | every step keeps the queue bounded, the newest broadcasts in it, and the deliveries in order |
| Broadcast.Run | client/src/server/server.cpp:636-706 | the invariant and the tally of drops hold after every interleaving |
| Broadcast.History | client/src/server/server.cpp:695-706 | every broadcast made before a session is told to stop reaches its queue, in order |
| Broadcast.Drains | client/src/server/server.cpp:645-665 | the worker alone empties the queue: from any state it delivers all that was kept, in one step for what it has taken and two for each entry |
| Broadcast.Delivery | client/src/server/server.cpp:636-706 | in every interleaving: the queue is at most 256 and the newest broadcasts, deliveries come in the order of the broadcasts made before the session is told to stop, and nothing is lost exactly when no broadcast found the queue full |
| Broadcast.Broadcaster.RegisterSession | client/src/server/server.cpp:644-671 | a new session with an empty queue |
| Broadcast.Broadcaster.UnregisterSession | client/src/server/server.cpp:673-688 | off the list and told to stop; the others stay |
| Broadcast.Broadcaster.BroadcastInvalidate | client/src/server/server.cpp:695-706 | the path is queued once at every registered session and nowhere else |
| Broadcast.Broadcaster.TakeFront | client/src/server/server.cpp:654-655 | the worker takes the oldest entry |
| QuicStream.KeepsTx | client/src/net/native_quic.cpp:135-144 | bytes accepted from writers stay those handed over plus those queued, across the unlock between copy and pop |
| QuicStream.KeepsFin | client/src/net/native_quic.cpp:417-429 | the end of the stream stays announced once at most, with nothing left to send |
| QuicStream.KeepsRx | client/src/net/native_quic.cpp:119-134 | bytes delivered stay those taken by reads, then those a reader holds, then those queued |
| QuicStream.KeepsReads | client/src/net/native_quic.cpp:119-134 | a read succeeds with exactly what it asked for and fails only on a closed stream |
| QuicStream.Run | client/src/net/native_quic.cpp:119-152 | the invariant holds after every interleaving |
| QuicStream.Conservation | client/src/net/native_quic.cpp:119-152 | in every interleaving: what was handed over is a prefix of what was written while the stream was open, all of it once the end is announced, which happens at most once; what reads took is a prefix of what was delivered |
| QuicStream.Reads | client/src/net/native_quic.cpp:118-136 | in every interleaving, in terms of what was delivered and what earlier reads took: a turn of a read ends it with the next bytes when there are enough, closed or not; with all that is left, and failing, when there are not and the stream is closed; else it waits |
| QuicStream.History | client/src/net/native_quic.cpp:118-157 | what was delivered and what was accepted are the bytes of the steps of the run |
| QuicStream.Flushes | client/src/net/native_quic.cpp:405-469 | from any state between its turns the worker alone hands over all that was written, in a turn a chunk and one more, and announces the end exactly if the stream has been closed |
| QuicStream.NothingAfterFin | client/src/net/native_quic.cpp:405-432 | after the end is announced nothing is handed over in any continuation |
| QuicStream.StreamState.WriteBytes | client/src/net/native_quic.cpp:135-144 | appends exactly on an open stream |
| QuicStream.StreamState.CopyChunk | client/src/net/native_quic.cpp:417-422 | copies up to 64 KiB from the front and decides on the end |
| QuicStream.StreamState.PopChunk | client/src/net/native_quic.cpp:426-429 | pops what was copied, whatever was appended meanwhile |
| QuicStream.StreamState.TakeAvailable | client/src/net/native_quic.cpp:127-131 | takes up to the missing bytes in order and tells whether the read is over |
| QuicStream.DatagramQueue.FlushQuic | client/src/net/native_quic.cpp:434-469 | without a failure datagrams reach ICE in the order they were generated, none lost, at most one waiting; all of them unless ICE turns one away |
| WebFiles.FrameRoundTrip | client/src/clients/web_compat.cpp:553-566 | a frame parses back to its number and payload |
| WebFiles.GatherChunks | client/src/clients/web_compat.cpp:1095-1105 | the chunks of a transfer add up to its data |
| WebFiles.TransferRoundTrip | client/src/clients/web_compat.cpp:762-777 | they do so with frames of other transfers anywhere between |
| WebFiles.RangeIsSlice | client/src/clients/web_compat.cpp:696-703 | a ranged download is the slice a read asks for |
| WebFiles.PutAt | client/src/clients/web_compat.cpp:1484-1485 | after a write every byte is the one put, else the old one, else zero |
| WebFiles.PutIsOverwrite | client/src/clients/web_compat.cpp:1484-1485 | it is the write of a plain file exactly unless it is empty and past the end |
| WebFiles.TruncateUnderHandle | client/src/clients/web_compat.cpp:1509-1519 | a truncation by path shows through an open handle exactly when the handle has no buffer or one of that size |
| WebFiles.Host.Download | client/src/clients/web_compat.cpp:690-720 | sends the asked range chunk by chunk, or an error for a missing file |
| WebFiles.Host.UploadStart | client/src/clients/web_compat.cpp:722-731 | the file is emptied and opened |
| WebFiles.Host.OnBinary | client/src/clients/web_compat.cpp:762-777 | a frame of a running upload is appended to its file; anything else changes nothing |
| WebFiles.Host.UploadEnd | client/src/clients/web_compat.cpp:742-747 | the output file is closed |
| WebFiles.Client.Fetch | client/src/clients/web_compat.cpp:1061-1085 | the bytes of the range; EIO exactly if there is no such file or the link loses something |
| WebFiles.Client.UploadFile | client/src/clients/web_compat.cpp:1086-1109 | success, exactly if the link loses nothing, leaves the host's file equal to the data; a failure leaves a beginning of it or the old file |
| WebFiles.Client.SendBin | client/src/clients/web_compat.cpp:1097-1103 | one chunk is appended to the file of the upload |
| WebFiles.Client.Open | client/src/clients/web_compat.cpp:1378-1408 | the handle shows an empty file when truncating, else what the host has; it is dirty exactly when truncating or creating a file found missing |
| WebFiles.Client.Load | client/src/clients/web_compat.cpp:1434-1445 | fills the buffer without changing what any handle shows; a buffer that is there is kept without asking the host |
| WebFiles.Client.Read | client/src/clients/web_compat.cpp:1409-1453 | returns the asked slice of what the handle shows; from the buffer, when there is one, without asking the host, and else fails only without such a file or by a loss of the link |
| WebFiles.Client.Write | client/src/clients/web_compat.cpp:1454-1486 | the handle shows the written bytes with zero-filled gaps, other handles are unchanged; with a buffer it fails only past 2^64 |
| WebFiles.Client.Release | client/src/clients/web_compat.cpp:1487-1498 | after a dirty handle the host's file is what the handle showed, exactly if the link loses nothing; a clean one changes nothing |
| SignalingRoom.SentOne | databases/cloudflare/worker.mjs:305-335 | what a host believes after one more message |
| SignalingRoom.ToldNothing | databases/cloudflare/worker.mjs:303-304 | a socket nothing was sent to believes nobody present |
| SignalingRoom.Room.constructor | databases/cloudflare/worker.mjs:271-277 | an empty room |
| SignalingRoom.Room.AttachHost | databases/cloudflare/worker.mjs:297-312 | a second host is closed; a first one comes to believe exactly the listed clients present, and every reachable client learns of it |
| SignalingRoom.Room.AnnounceClients | databases/cloudflare/worker.mjs:304-308 | the loop announces every client once |
| SignalingRoom.Room.AttachClient | databases/cloudflare/worker.mjs:314-322 | the client is listed and announced; nobody listens to it exactly when the host's socket is closed and not yet detached |
| SignalingRoom.Room.DetachHost | databases/cloudflare/worker.mjs:324-330 | only the current host is detached, and every reachable client learns of it |
| SignalingRoom.Room.DetachClient | databases/cloudflare/worker.mjs:332-336 | only the listed socket of the peer is detached, and a reachable host is told |
| SignalingRoom.Room.BumpMessage | databases/cloudflare/worker.mjs:338-346 | at most 250 messages of a socket are accepted; the next one closes it |
| SignalingRoom.Room.OnHostMessage | databases/cloudflare/worker.mjs:348-374 | a host's signal goes to the client it names and no one else, exactly when it is a signal of the allowed sizes and the client can be reached; anything else of the host, and anything past 250 messages, closes it |
| SignalingRoom.Room.OnClientMessage | databases/cloudflare/worker.mjs:357-374 | a client's signal goes to the host under the client's own name only; anything else of it, and anything past 250 messages, closes it |
| SignalingRoom.Stranded | databases/cloudflare/worker.mjs:314-352 | a run: a host sends what is not JSON, a client arrives, and is listed with nobody listening to it |

## Left out

- SHA-256, HMAC, Argon2id and the random generator: arbitrary functions and inputs; nothing is claimed about secrecy, forgery or timing.
- Sockets, FUSE, ProjFS, Qt, ICE, picoquic, HTTP and Firebase: streams are byte sequences and remotes are maps.
- Encrypting in place: `chacha20_xor` is modelled with input and output apart.
- Payload parsing in front of each file operation: requests are values, so the branches for malformed payloads are not modelled.
- File times other than modification, owners, link counts, block counts and directory sizes in attributes; the order of listings; access modes of handles.
- Allocation failure while a block is stored, the memory detection and the size of the budget, which is arbitrary at every use.
- Cached directory attributes and cached listing attributes are not claimed to be current, and neither are reads through handles of removed files.
- RamCache.RamCache.DoReaddir: claims the names and not the attributes of a cached listing, because the code keeps those until they expire.
- RamCache.RamCache.Request: takes a whole request as one step, because a fetch split by a write can store old bytes; `CacheRuns` and `ServedReads` take it apart.
- RemoteFs.Remote.Request: a faulty answer means that nothing was done, because the class would otherwise hold what an announcement has yet to drop; `CacheRuns` has the lost reply as a step.
- The moment between a change at the server and the forgetting that follows its reply, when the reply is not lost: another request of the same mounted folder may be answered from the tables in it, while the first has not returned.
- ClientMux.Answers: request numbers are unbounded, so their wrap after 2^64 requests is not modelled, and the two reads of a finished record are each atomic.
- The choice of a connection among several and the ten-second limit: a wait may end at any time.
- Starting a server again after a stop, the accept loop and the handshake steps before a stream is authenticated.
- Broadcast.Delivery: a broadcast reaches all queues in one step, because the registry lock is held throughout.
- Two readers of one QUIC stream at a time, and the connection's own flow control.
- WebFiles.Client.Release: one peer and one handle to a file; sizes and offsets are exact numbers although the messages carry them as doubles.
- The browser application, its copies of the codec and of the preview cache, the GUI and the command line.
- Listing, directory creation and removal over the data channel, and lookups other than whether a path exists.
- The rate limits and stored records of the signalling worker, and network loss between a room and its sockets.
