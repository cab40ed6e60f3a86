# apns-simulator, modelled in Dafny

A model of the core of uniqush/apns-simulator, a mock of the Apple Push
Notification service gateway, with proofs about what it does:

- **conn.go** — `APNSConn` decodes one push notification from the peer's byte
  stream in command format 0 or 1 (the legacy formats) or 2 (the binary
  provider API frame of items). It also writes the 6-byte error-response
  packet back.
- **simulator.go** — `APNSNormalSimulator.Reply` chooses a status from the
  payload and token lengths.
- **main.go** — `handleClient` loops over the notifications of one
  connection. For each one it draws a random status and then does one of
  three things: replies, stays silent, or drops the connection. Draws
  modulo 100 from 51 to 54 give status 0, like draws of 50 or below.
- **devtokengen/main.go** — `DevtokenGenerator` produces fake device tokens
  from a counter seeded once at random, and prints them as hexadecimal.

The decoder is modelled as conn.go writes it. Three defects of the format-2
decoder are kept and proved as consequences:

- the `didRead` map is never written;
- the `bytesRead` counter is never advanced;
- the item switch has no `default` case.

Together they mean that no format-2 frame is ever accepted. A repeated item is
never reported. Of a frame's declared length, only whether it is zero matters:
a length of 0 fails at once with the missing-token error, and any other length
is never reached, so the decoder reads on into the next notification. The
value of an unknown item is read as the next item header.

Files:

- `wrappers.dfy` — `Option` and `Result`.
- `bytes.dfy` — bytes, `u16`/`u32` and their big-endian encodings.
- `conn.dfy` — the decoder, as pure functions over the unread stream and as
  the class `APNSConn`, whose methods read step by step from a read position
  and are proved equal to those functions.
- `conn_lemmas.dfy` — the decoder's properties, with the encoders they are
  stated against.
- `simulator.dfy`, `server.dfy`, `devtokengen.dfy`.

The peer's stream is a finite sequence of bytes. A read that needs more bytes
than are left fails, as a read from a closed connection does, and it consumes
what was left, as `io.ReadFull` does. The weak random generator of main.go is
an infinite sequence of draws `draw: nat -> nat`, taken in order. The
`rand.Int63()` draw in `GenToken` is a parameter `seed`. `big.Int` is a `nat`,
and its `Bytes()` is `MinimalBytes`.

## Model

| member | source | states |
|---|---|---|
| Conn.APNSConn.ReadNotification | conn.go:43-61 | reads the command byte, then the format it names; the result and the stream left unread are exactly those of `Decode` on the unread stream; an unknown command fails after one byte |
| Conn.APNSConn.ProcessLegacyV0Notification | conn.go:78-103 | reads token length, token, payload length, payload into the notification; result and unread stream are those of `LegacyV0` |
| Conn.APNSConn.ProcessLegacyV1Notification | conn.go:64-76 | reads identifier and expiry, then the format-0 body; agrees with `LegacyV1` |
| Conn.APNSConn.ReadByteSlice | conn.go:105-123 | reads exactly `length` bytes, or fails with the read error and consumes the rest of the stream; agrees with `ReadBytes` |
| Conn.APNSConn.ReadByte | conn.go:46-49 | binary.Read of one byte: the next byte, or a read error that consumes the stream; agrees with `ReadU8` |
| Conn.APNSConn.ReadUint16 | conn.go:80-83 | binary.Read of a big-endian uint16; agrees with `ReadU16` |
| Conn.APNSConn.ReadUint32 | conn.go:66-69 | binary.Read of a big-endian uint32; agrees with `ReadU32` |
| Conn.APNSConn.ProcessItem | conn.go:160-207 | one arm of the item switch: the length check, then the value read into its field; an unknown id reads nothing; agrees with `ItemValue` |
| Conn.APNSConn.ProcessBinaryProviderAPINotification | conn.go:134-216 | the format-2 decoder as written: the loop invariant keeps `didRead` empty and `bytesRead` at 0, and the result and unread stream are those of `Frame` |
| Conn.APNSConn.Reply | conn.go:218-234 | appends to the output exactly the packet `EncodeResponse` gives: command 8, the status byte, the big-endian identifier |
| Conn.ItemValue | conn.go:160-207 | every arm of the item switch leaves a suffix of the stream unread |
| Conn.EncodeResponse | conn.go:218-234 | the reply packet is 6 bytes: command 8, the status, and 4 bytes whose big-endian value is the identifier |
| ConnLemmas.LegacyRoundTrip | conn.go:64-103 | a format-0 or format-1 notification followed by any bytes decodes to exactly its fields, and exactly its encoding is consumed |
| ConnLemmas.FormatZeroDecodes | conn.go:78-103 | a format-0 notification takes 5 framing bytes plus token and payload, and decodes with identifier, expiry and priority 0 |
| ConnLemmas.FormatOneDecodes | conn.go:64-76 | a format-1 notification is command 1, identifier, expiry, then the format-0 body (13 framing bytes), and decodes to its fields |
| ConnLemmas.DecodedIsEncoding | conn.go:43-103 | conversely, whatever is decoded is a legacy-shaped notification whose encoding is exactly the bytes consumed; nothing is returned half filled |
| ConnLemmas.ReadU16Inverse | conn.go:80-83 | a successful uint16 read consumed exactly the encoding of the value it returned |
| ConnLemmas.ReadU32Inverse | conn.go:66-69 | a successful uint32 read consumed exactly the encoding of the value it returned |
| ConnLemmas.ReadBytesInverse | conn.go:113-123 | a successful slice read returned `length` bytes, and the stream is those bytes followed by what is left |
| ConnLemmas.V0BodyOfDecoded | conn.go:78-103 | a successful format-0 body read set only the two lengths, the token and the payload, and consumed exactly their encoding |
| ConnLemmas.V1BodyOfDecoded | conn.go:64-76 | a successful format-1 read set only identifier, expiry and the body fields, and consumed exactly their encoding |
| ConnLemmas.TruncatedDecodeFails | conn.go:43-123 | a stream cut anywhere before the end of a notification that decodes fails with a read error, and the whole cut stream is consumed |
| ConnLemmas.LegacyTruncationFails | conn.go:64-123 | every proper prefix of a legacy encoding fails with a read error |
| ConnLemmas.ItemsOutcome | conn.go:142-207 | the item loop as written ends only in an error; that error is never a repeated item; a read error leaves nothing unread |
| ConnLemmas.FrameNeverDecodes | conn.go:134-216 | as written, no format-2 frame decodes to a notification, on any input |
| ConnLemmas.DecodedAreLegacy | conn.go:43-61 | every notification that is returned came with command 0 or 1 |
| ConnLemmas.EmptyFrameMissingToken | conn.go:136-211 | a frame of declared length 0 fails with the missing-token error right after the length field |
| ConnLemmas.NeverDuplicateItem | conn.go:142-154 | as written, no input draws the "read twice" error |
| ConnLemmas.ReadErrorConsumesAll | conn.go:43-123 | a decode that fails with a read error has used up the whole stream |
| ConnLemmas.TokenItemRead | conn.go:161-171 | a token item of length 1 to 100 stores its value as the device token, replacing any earlier one |
| ConnLemmas.PayloadItemRead | conn.go:172-179 | a payload item of length up to 2048 stores its value as the payload, replacing any earlier one |
| ConnLemmas.RepeatedTokenOverwrites | conn.go:142-171 | as written, a second token item is not rejected; its value overwrites the first |
| ConnLemmas.RepeatedPayloadOverwrites | conn.go:142-179 | as written, a second payload item is not rejected; its value overwrites the first |
| ConnLemmas.WellFormedFrameOverruns | conn.go:144-145 | as written, a frame holding a token and a payload does not end at its declared length: the decoder reads the following bytes as more items |
| ConnLemmas.UnknownItemNotSkipped | conn.go:160-207 | as written, an item with an unknown id is not skipped; its value bytes are read as the next item header |
| ConnLemmas.ItemLengthChecked | conn.go:155-206 | each item's declared length is checked before its value is read; each bad length gets its own error and leaves the value unread |
| ConnLemmas.PriorityValueChecked | conn.go:196-206 | a priority item is accepted exactly when its value is 5 or 10 |
| ConnLemmas.UnknownCommandRejected | conn.go:57-59 | a command byte above 2 is rejected, and nothing after it is read |
| ConnLemmas.ResponseRoundTrip | conn.go:218-234 | reading back the reply packet recovers the status and the identifier |
| ConnLemmas.ResponseDecodeExact | conn.go:218-234 | every well-formed reply packet is the encoding of what it decodes to |
| Simulator.BoundsStatus | simulator.go:21-25 | status 7 exactly when the payload is over the bound; 5 exactly when the payload fits and the token has the wrong length; 0 exactly otherwise |
| Simulator.APNSNormalSimulator.Reply | simulator.go:12-28 | a bound at zero or below becomes 256 or 32 and stays set; the response carries the notification's identifier and the status `BoundsStatus` gives; there is never an error |
| Server.DeriveStatus | main.go:24-32 | the status is at most 9; it is 0 exactly when the draw modulo 100 is below 55; otherwise it names the band of five above 50 that the draw falls in |
| Server.Decide | main.go:24-44 | drop exactly when the draw modulo 100 is 95 or more; no reply exactly when the status is 0 and the second draw is not a multiple of 5; a reply carries the notification's identifier and a status of at most 8 |
| Server.HandleClient | main.go:14-46 | the loop's replies and how it ends are exactly those of `Session` |
| Server.SessionReplies | main.go:14-46 | every reply has a status of at most 8 and the identifier of a notification that was read; there are never more replies than notifications |
| Server.DropLeavesUnanswered | main.go:38-41 | a dropped connection always leaves at least one notification unanswered |
| Server.EveryNotificationAnswered | main.go:14-46 | when every draw lands in the reply bands, each notification gets one reply, in order, with the status its draw gives, and the loop ends on the failed read |
| DevTokenGen.ExpandBytes | devtokengen/main.go:22-30 | the bytes are returned unchanged when they already have the minimum length; otherwise they are right-aligned in the minimum length behind zeros |
| DevTokenGen.ExpandBytesKeepsValue | devtokengen/main.go:22-30 | padding never changes the big-endian number the bytes stand for |
| DevTokenGen.MinimalBytes | devtokengen/main.go:40 | `big.Int.Bytes()`: empty exactly for 0, and otherwise with no leading zero byte |
| DevTokenGen.MinimalBytesValue | devtokengen/main.go:40 | the minimal encoding spells out its number |
| DevTokenGen.MinimalBytesUnique | devtokengen/main.go:40 | the minimal encoding is the only encoding without a leading zero byte |
| DevTokenGen.MinimalBytesFits | devtokengen/main.go:40 | the counter's bytes fit in k bytes exactly when the counter is below 256 to the power k |
| DevTokenGen.TokenLength | devtokengen/main.go:22-41 | a token is exactly the token length exactly when its counter fits in that many bytes; otherwise it is longer |
| DevTokenGen.Int63CountersFit | devtokengen/main.go:36-40 | every counter up to 2^63, which covers the first counter GenToken seeds from rand.Int63(), gives a token of exactly 32 bytes |
| DevTokenGen.TokenValue | devtokengen/main.go:32-41 | a token spells out its counter, and is as long as the token length or the counter's bytes, whichever is longer |
| DevTokenGen.DevtokenGenerator.GenToken | devtokengen/main.go:32-41 | the token length defaults to 32; the counter is seeded once, then incremented; the token is the counter's bytes padded to the token length |
| DevTokenGen.DevTokenToString | devtokengen/main.go:43-46 | two lower-case hex digits per byte |
| DevTokenGen.DevTokenToStringRoundTrip | devtokengen/main.go:43-46 | the hex text of a token reads back as exactly that token |
| DevTokenGen.GenerateTokens | devtokengen/main.go:64-72 | `count` lines; line i reads back as a token of at least 32 bytes that spells seed + 1 + i: consecutive counters from one random seed |

## Left out

- `main` in main.go is not part of this model: the TLS listener, the accept loop and the goroutine per connection. Concurrency between connections is not modelled.
- `readNotification` and `replyNotification`, which `handleClient` calls, are not part of this model. `HandleClient` takes the notifications that were read successfully, in order; the read after the last one fails. It returns the replies instead of writing them.
- Server.HandleClient: the `status = 255` before a drop is kept as an assignment, but it is never observable. Logging and timestamps are not modelled.
- Conn.APNSConn.Reply: write errors on the connection are not modelled; every write succeeds.
- `APNSNotificaton.String` and `APNSConn.Close` are not modelled: they only format text and close the socket.
- The `APNSSimulator` interface is represented by its one implementation, `APNSNormalSimulator`. `Reply` in simulator.go is not called by `handleClient`, and the model keeps them separate too.
- The mismatch check in `readByteSlice` (conn.go:119-121) cannot fire after a successful `io.ReadFull`, so the model has no branch for it.
- The format-2 decoder never fills in `tokenLen` or `payloadLen`, and neither does the model.
- DevTokenGen.DevtokenGenerator.GenToken: the token's value and length are stated in `TokenValue` rather than in GenToken's own contract; the method's contract names the token as `TokenFor` of the new counter.
- DevTokenGen.GenerateTokens: the command-line flags and the output template of devtokengen's `main` are not modelled. Each line's index is its position in the returned sequence.
- `rand.Int63()` and `weakrand.Int()` are inputs (`seed`, `draw`). Their distribution is not modelled.
