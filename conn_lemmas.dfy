/**
 * What the decoder of conn.go does, stated over all inputs: the two legacy
 * formats round-trip and reject every truncation, an unknown command byte
 * is rejected after one byte, and the format-2 decoder, as written, accepts
 * no frame at all, never reports a repeated item, checks each item's length
 * before reading its value, and does not skip the value of an unknown item.
 * The error-response packet round-trips.
 */
module ConnLemmas {
  import opened Wrappers
  import opened Bytes
  import opened Conn

  // ---------------------------------------------------------------------
  // Encoders, the inverse direction the lemmas are stated against.

  /** A notification the legacy formats can carry, as the decoder fills it in. */
  predicate LegacyShaped(n: Notification)
  {
    && (n.command == 0 || n.command == 1)
    && n.tokenLen == |n.devToken| && n.payloadLen == |n.payload|
    && n.priority == 0
    && (n.command == 0 ==> n.id == 0 && n.expiry == 0)
  }

  /** The body shared by formats 0 and 1: token length, token, payload length, payload. */
  function V0Body(token: seq<byte>, payload: seq<byte>): (r: seq<byte>)
    requires |token| < 0x1_0000 && |payload| < 0x1_0000
    ensures |r| == 4 + |token| + |payload|
  {
    U16Bytes(|token|) + token + U16Bytes(|payload|) + payload
  }

  /** The bytes a provider sends for `n` with command 0 or 1. */
  function EncodeLegacy(n: Notification): (r: seq<byte>)
    requires LegacyShaped(n)
    ensures |r| == (if n.command == 0 then 5 else 13) + |n.devToken| + |n.payload|
  {
    [n.command]
    + (if n.command == 1 then U32Bytes(n.id) + U32Bytes(n.expiry) else [])
    + V0Body(n.devToken, n.payload)
  }

  /** One format-2 item: id, big-endian length, value. */
  function Item(itemId: byte, value: seq<byte>): (r: seq<byte>)
    requires |value| < 0x1_0000
    ensures |r| == 3 + |value|
  {
    [itemId] + U16Bytes(|value|) + value
  }

  // ---------------------------------------------------------------------
  // Reads of what was written.

  lemma ReadU16Of(v: u16, rest: seq<byte>)
    ensures ReadU16(U16Bytes(v) + rest) == Parsed(Ok(v), rest)
  {
    var s := U16Bytes(v) + rest;
    assert s[..2] == U16Bytes(v);
    assert s[2..] == rest;
  }

  lemma ReadU32Of(v: u32, rest: seq<byte>)
    ensures ReadU32(U32Bytes(v) + rest) == Parsed(Ok(v), rest)
  {
    var s := U32Bytes(v) + rest;
    assert s[..4] == U32Bytes(v);
    assert s[4..] == rest;
  }

  lemma ReadBytesOf(value: seq<byte>, rest: seq<byte>, what: string)
    requires |value| < 0x1_0000
    ensures ReadBytes(value + rest, |value|, what) == Parsed(Ok(value), rest)
  {
    assert (value + rest)[..|value|] == value;
    assert (value + rest)[|value|..] == rest;
  }

  // ---------------------------------------------------------------------
  // Formats 0 and 1.

  lemma V0BodyDecodes(token: seq<byte>, payload: seq<byte>, tail: seq<byte>, notif: Notification)
    requires |token| < 0x1_0000 && |payload| < 0x1_0000
    ensures LegacyV0(V0Body(token, payload) + tail, notif)
         == Parsed(Ok(notif.(tokenLen := |token|, devToken := token, payloadLen := |payload|, payload := payload)), tail)
  {
    var s := V0Body(token, payload) + tail;
    assert s == U16Bytes(|token|) + (token + (U16Bytes(|payload|) + (payload + tail)));
    ReadU16Of(|token|, token + (U16Bytes(|payload|) + (payload + tail)));
    ReadBytesOf(token, U16Bytes(|payload|) + (payload + tail), "deviceToken");
    ReadU16Of(|payload|, payload + tail);
    ReadBytesOf(payload, tail, "payload");
  }

  /**
   * Formats 0 and 1 round-trip: the documented fields followed by anything
   * at all decode to exactly those fields (identifier, expiry and priority
   * staying 0 in format 0), and exactly the encoding is consumed, 5 or 13
   * bytes plus the token and the payload.
   */
  lemma LegacyRoundTrip(n: Notification, tail: seq<byte>)
    requires LegacyShaped(n)
    ensures Decode(EncodeLegacy(n) + tail) == Parsed(Ok(n), tail)
  {
    var body := V0Body(n.devToken, n.payload);
    var notif := Blank.(command := n.command);
    if n.command == 0 {
      assert EncodeLegacy(n) + tail == [0] + (body + tail);
      V0BodyDecodes(n.devToken, n.payload, tail, notif);
    } else {
      assert EncodeLegacy(n) + tail == [1] + (U32Bytes(n.id) + (U32Bytes(n.expiry) + (body + tail)));
      ReadU32Of(n.id, U32Bytes(n.expiry) + (body + tail));
      ReadU32Of(n.expiry, body + tail);
      V0BodyDecodes(n.devToken, n.payload, tail, notif.(id := n.id, expiry := n.expiry));
    }
  }

  /** The format-0 instance of the round trip, with its exact byte count. */
  lemma FormatZeroDecodes(token: seq<byte>, payload: seq<byte>, tail: seq<byte>)
    requires |token| < 0x1_0000 && |payload| < 0x1_0000
    ensures var n := Notification(0, 0, 0, |token|, token, |payload|, payload, 0);
            && |EncodeLegacy(n)| == 5 + |token| + |payload|
            && Decode(EncodeLegacy(n) + tail) == Parsed(Ok(n), tail)
  {
    LegacyRoundTrip(Notification(0, 0, 0, |token|, token, |payload|, payload, 0), tail);
  }

  /** The format-1 instance: identifier and expiry come first, 13 bytes of framing in all. */
  lemma FormatOneDecodes(id: u32, expiry: u32, token: seq<byte>, payload: seq<byte>, tail: seq<byte>)
    requires |token| < 0x1_0000 && |payload| < 0x1_0000
    ensures var n := Notification(1, id, expiry, |token|, token, |payload|, payload, 0);
            && EncodeLegacy(n) == [1] + U32Bytes(id) + U32Bytes(expiry) + V0Body(token, payload)
            && |EncodeLegacy(n)| == 13 + |token| + |payload|
            && Decode(EncodeLegacy(n) + tail) == Parsed(Ok(n), tail)
  {
    LegacyRoundTrip(Notification(1, id, expiry, |token|, token, |payload|, payload, 0), tail);
  }

  // A successful read took exactly the encoding of what it returned.

  lemma ReadU16Inverse(s: seq<byte>)
    requires ReadU16(s).result.Ok?
    ensures s == U16Bytes(ReadU16(s).result.value) + ReadU16(s).rest
  {
    U16BytesOfValue(s[..2]);
    assert s == s[..2] + s[2..];
  }

  lemma ReadU32Inverse(s: seq<byte>)
    requires ReadU32(s).result.Ok?
    ensures s == U32Bytes(ReadU32(s).result.value) + ReadU32(s).rest
  {
    U32BytesOfValue(s[..4]);
    assert s == s[..4] + s[4..];
  }

  lemma ReadBytesInverse(s: seq<byte>, length: u16, what: string)
    requires ReadBytes(s, length, what).result.Ok?
    ensures var p := ReadBytes(s, length, what);
            |p.result.value| == length && s == p.result.value + p.rest
  {
    assert s == s[..length] + s[length..];
  }

  lemma V0BodyOfDecoded(s: seq<byte>, notif: Notification)
    requires LegacyV0(s, notif).result.Ok?
    ensures var p := LegacyV0(s, notif); var n := p.result.value;
            && n == notif.(tokenLen := |n.devToken|, devToken := n.devToken, payloadLen := |n.payload|, payload := n.payload)
            && s == V0Body(n.devToken, n.payload) + p.rest
  {
    var tl := ReadU16(s);
    ReadU16Inverse(s);
    var tok := ReadBytes(tl.rest, tl.result.value, "deviceToken");
    ReadBytesInverse(tl.rest, tl.result.value, "deviceToken");
    var pl := ReadU16(tok.rest);
    ReadU16Inverse(tok.rest);
    var pay := ReadBytes(pl.rest, pl.result.value, "payload");
    ReadBytesInverse(pl.rest, pl.result.value, "payload");
    assert s == U16Bytes(|tok.result.value|) + (tok.result.value + (U16Bytes(|pay.result.value|) + (pay.result.value + pay.rest)));
  }

  lemma V1BodyOfDecoded(s: seq<byte>, notif: Notification)
    requires LegacyV1(s, notif).result.Ok?
    ensures var p := LegacyV1(s, notif); var n := p.result.value;
            && n == notif.(id := n.id, expiry := n.expiry, tokenLen := |n.devToken|, devToken := n.devToken,
                           payloadLen := |n.payload|, payload := n.payload)
            && s == U32Bytes(n.id) + U32Bytes(n.expiry) + V0Body(n.devToken, n.payload) + p.rest
  {
    var id := ReadU32(s);
    var ex := ReadU32(id.rest);
    var n0 := notif.(id := id.result.value, expiry := ex.result.value);
    var p := LegacyV0(ex.rest, n0);
    assert LegacyV1(s, notif) == p;
    V0BodyOfDecoded(ex.rest, n0);
    var n := p.result.value;
    assert n.id == id.result.value && n.expiry == ex.result.value;
    ReadU32Inverse(s);
    ReadU32Inverse(id.rest);
    var a, b, c := U32Bytes(n.id), U32Bytes(n.expiry), V0Body(n.devToken, n.payload);
    assert s == a + (b + (c + p.rest));
    Assoc4(a, b, c, p.rest);
  }

  lemma Assoc4(a: seq<byte>, b: seq<byte>, c: seq<byte>, d: seq<byte>)
    ensures a + (b + (c + d)) == a + b + c + d
  {
  }

  lemma V0Encoded(s: seq<byte>)
    requires |s| > 0 && s[0] == 0 && Decode(s).result.Ok?
    ensures var p := Decode(s);
            LegacyShaped(p.result.value) && s == EncodeLegacy(p.result.value) + p.rest
  {
    var r := s[1..];
    assert Decode(s) == LegacyV0(r, Blank.(command := 0));
    assert s == [0] + r;
    V0Shaped(r);
  }

  lemma V0Shaped(r: seq<byte>)
    requires LegacyV0(r, Blank.(command := 0)).result.Ok?
    ensures var p := LegacyV0(r, Blank.(command := 0));
            LegacyShaped(p.result.value) && [0] + r == EncodeLegacy(p.result.value) + p.rest
  {
    V0BodyOfDecoded(r, Blank.(command := 0));
    var p := LegacyV0(r, Blank.(command := 0));
    var n := p.result.value;
    assert LegacyShaped(n);
    var c := V0Body(n.devToken, n.payload);
    assert EncodeLegacy(n) == [0] + [] + c;
    ConsEmptyAssoc(0, c, p.rest);
  }

  lemma V1Encoded(s: seq<byte>)
    requires |s| > 0 && s[0] == 1 && Decode(s).result.Ok?
    ensures var p := Decode(s);
            LegacyShaped(p.result.value) && s == EncodeLegacy(p.result.value) + p.rest
  {
    var r := s[1..];
    assert Decode(s) == LegacyV1(r, Blank.(command := 1));
    assert s == [1] + r;
    V1Shaped(r);
  }

  lemma V1Shaped(r: seq<byte>)
    requires LegacyV1(r, Blank.(command := 1)).result.Ok?
    ensures var p := LegacyV1(r, Blank.(command := 1));
            LegacyShaped(p.result.value) && [1] + r == EncodeLegacy(p.result.value) + p.rest
  {
    V1BodyOfDecoded(r, Blank.(command := 1));
    var p := LegacyV1(r, Blank.(command := 1));
    var n := p.result.value;
    assert LegacyShaped(n);
    var a, b, c := U32Bytes(n.id), U32Bytes(n.expiry), V0Body(n.devToken, n.payload);
    assert EncodeLegacy(n) == [1] + (a + b) + c;
    ConsAssoc(1, a, b, c, p.rest);
  }

  lemma ConsEmptyAssoc(x: byte, c: seq<byte>, d: seq<byte>)
    ensures [x] + (c + d) == [x] + [] + c + d
  {
  }

  lemma ConsAssoc(x: byte, a: seq<byte>, b: seq<byte>, c: seq<byte>, d: seq<byte>)
    ensures [x] + (a + b + c + d) == [x] + (a + b) + c + d
  {
  }

  /**
   * Conversely, whatever ReadNotification returns is the legacy encoding of
   * exactly that notification, followed by the unread rest of the stream:
   * a notification is never returned partly filled.
   */
  lemma DecodedIsEncoding(s: seq<byte>)
    requires Decode(s).result.Ok?
    ensures var p := Decode(s);
            LegacyShaped(p.result.value) && s == EncodeLegacy(p.result.value) + p.rest
  {
    if s[0] == 0 {
      V0Encoded(s);
    } else if s[0] == 1 {
      V1Encoded(s);
    } else {
      FrameNeverDecodes(s[1..]);
    }
  }

  // Reads of a prefix: they agree with the reads of the whole, or run dry.

  lemma ReadU16Prefix(t: seq<byte>, k: nat)
    requires ReadU16(t).result.Ok? && k <= |t|
    ensures ReadU16(t[..k]) == if k < 2 then Parsed(Err(ReadFailed), []) else Parsed(ReadU16(t).result, t[2..][..k - 2])
  {
    if k >= 2 {
      assert t[..k][2..] == t[2..][..k - 2];
    }
  }

  lemma ReadU32Prefix(t: seq<byte>, k: nat)
    requires ReadU32(t).result.Ok? && k <= |t|
    ensures ReadU32(t[..k]) == if k < 4 then Parsed(Err(ReadFailed), []) else Parsed(ReadU32(t).result, t[4..][..k - 4])
  {
    if k >= 4 {
      assert t[..k][4..] == t[4..][..k - 4];
    }
  }

  lemma ReadBytesPrefix(t: seq<byte>, k: nat, length: u16, what: string)
    requires ReadBytes(t, length, what).result.Ok? && k <= |t|
    ensures ReadBytes(t[..k], length, what)
         == if k < length then Parsed(Err(SliceReadFailed(what)), [])
            else Parsed(ReadBytes(t, length, what).result, t[length..][..k - length])
  {
    if k >= length {
      assert t[..k][..length] == t[..length];
      assert t[..k][length..] == t[length..][..k - length];
    }
  }

  lemma V0Prefix(t: seq<byte>, k: nat, notif: Notification)
    requires LegacyV0(t, notif).result.Ok?
    requires k < |t| - |LegacyV0(t, notif).rest|
    ensures var p := LegacyV0(t[..k], notif);
            p.result.Err? && IsReadError(p.result.error) && p.rest == []
  {
    V0BodyOfDecoded(t, notif);
    ReadU16Prefix(t, k);
    if k >= 2 {
      var tl := U16At(t);
      var t1, k1 := t[2..], k - 2;
      ReadBytesPrefix(t1, k1, tl, "deviceToken");
      if k1 >= tl {
        var t2, k2 := t1[tl..], k1 - tl;
        ReadU16Prefix(t2, k2);
        if k2 >= 2 {
          var pl := U16At(t2);
          ReadBytesPrefix(t2[2..], k2 - 2, pl, "payload");
        }
      }
    }
  }

  lemma V1Prefix(t: seq<byte>, k: nat, notif: Notification)
    requires LegacyV1(t, notif).result.Ok?
    requires k < |t| - |LegacyV1(t, notif).rest|
    ensures var p := LegacyV1(t[..k], notif);
            p.result.Err? && IsReadError(p.result.error) && p.rest == []
  {
    ReadU32Prefix(t, k);
    if k >= 4 {
      var t1, k1 := t[4..], k - 4;
      ReadU32Prefix(t1, k1);
      if k1 >= 4 {
        var n0 := notif.(id := U32At(t), expiry := U32At(t1));
        V0Prefix(t1[4..], k1 - 4, n0);
      }
    }
  }

  /**
   * A short read never yields a notification: cut the stream anywhere
   * before the end of a notification that decodes, and the decode fails
   * with a read error, having used up the whole cut stream.
   */
  lemma TruncatedDecodeFails(t: seq<byte>, k: nat)
    requires Decode(t).result.Ok?
    requires k < |t| - |Decode(t).rest|
    ensures var p := Decode(t[..k]);
            p.result.Err? && IsReadError(p.result.error) && p.rest == []
  {
    if k >= 1 {
      assert t[..k][1..] == t[1..][..k - 1];
      var notif := Blank.(command := t[0]);
      if t[0] == 0 {
        V0Prefix(t[1..], k - 1, notif);
      } else if t[0] == 1 {
        V1Prefix(t[1..], k - 1, notif);
      } else {
        assert t == [2] + t[1..];
        FrameNeverDecodes(t[1..]);
      }
    }
  }

  /** In particular, every proper prefix of a legacy encoding fails with a read error. */
  lemma LegacyTruncationFails(n: Notification, k: nat)
    requires LegacyShaped(n)
    requires k < |EncodeLegacy(n)|
    ensures var p := Decode(EncodeLegacy(n)[..k]);
            p.result.Err? && IsReadError(p.result.error) && p.rest == []
  {
    LegacyRoundTrip(n, []);
    assert EncodeLegacy(n) + [] == EncodeLegacy(n);
    TruncatedDecodeFails(EncodeLegacy(n), k);
  }

  // ---------------------------------------------------------------------
  // Format 2, as written.

  /**
   * The item loop as written ends only in an error; no error it reports is
   * a repeated item; and when it is a read error, the loop has read the
   * stream to its end.
   */
  lemma {:induction false} ItemsOutcome(s: seq<byte>, notif: Notification)
    ensures var p := Items(s, notif);
            && p.result.Err?
            && !p.result.error.DuplicateItem?
            && (IsReadError(p.result.error) ==> p.rest == [])
    decreases |s|
  {
    if |s| >= 3 {
      var step := ItemValue(s[0], U16At(s[1..]), s[3..], notif);
      assert s[1..][2..] == s[3..];
      if step.result.Ok? {
        ItemsOutcome(step.rest, step.result.value);
      }
    }
  }

  /** As written, a format-2 frame never decodes to a notification, on any finite input. */
  lemma FrameNeverDecodes(s: seq<byte>)
    ensures Decode([2] + s).result.Err?
  {
    assert ([2] + s)[1..] == s;
    if |s| >= 4 && U32At(s) != 0 {
      ItemsOutcome(s[4..], Blank.(command := 2));
    }
  }

  /** So every notification ReadNotification returns came in format 0 or 1. */
  lemma DecodedAreLegacy(s: seq<byte>)
    requires Decode(s).result.Ok?
    ensures Decode(s).result.value.command in {0, 1}
  {
    if s[0] == 2 {
      assert s == [2] + s[1..];
      FrameNeverDecodes(s[1..]);
    }
  }

  /** As written, a frame whose length field is 0 fails with "Missing device token" right after it. */
  lemma EmptyFrameMissingToken(tail: seq<byte>)
    ensures Decode([2] + U32Bytes(0) + tail) == Parsed(Err(MissingDeviceToken), tail)
  {
    assert ([2] + U32Bytes(0) + tail)[1..] == U32Bytes(0) + tail;
    ReadU32Of(0, tail);
  }

  /** As written, no input ever draws the "Cannot read %d twice" error. */
  lemma NeverDuplicateItem(s: seq<byte>)
    ensures !(Decode(s).result.Err? && Decode(s).result.error.DuplicateItem?)
  {
    if |s| >= 5 && s[0] == 2 && U32At(s[1..]) != 0 {
      assert s[1..][4..] == s[5..];
      ItemsOutcome(s[5..], Blank.(command := 2));
    }
  }

  /** A read error anywhere in a decode means the rest of the stream was swallowed. */
  lemma ReadErrorConsumesAll(s: seq<byte>)
    requires Decode(s).result.Err? && IsReadError(Decode(s).result.error)
    ensures Decode(s).rest == []
  {
    if |s| >= 5 && s[0] == 2 && U32At(s[1..]) != 0 {
      assert s[1..][4..] == s[5..];
      ItemsOutcome(s[5..], Blank.(command := 2));
    }
  }

  lemma ItemHeader(itemId: byte, length: u16, rest: seq<byte>, notif: Notification)
    ensures Items([itemId] + U16Bytes(length) + rest, notif)
         == var step := ItemValue(itemId, length, rest, notif);
            if step.result.Err? then step else Items(step.rest, step.result.value)
  {
    var s := [itemId] + U16Bytes(length) + rest;
    assert s[1..] == U16Bytes(length) + rest;
    ReadU16Of(length, rest);
  }

  /** A device-token item of legal length is read into the token, replacing whatever was there. */
  lemma TokenItemRead(token: seq<byte>, rest: seq<byte>, notif: Notification)
    requires 0 < |token| <= 100
    ensures Items(Item(ItemDeviceToken, token) + rest, notif) == Items(rest, notif.(devToken := token))
  {
    assert Item(ItemDeviceToken, token) + rest == [ItemDeviceToken] + U16Bytes(|token|) + (token + rest);
    ItemHeader(ItemDeviceToken, |token|, token + rest, notif);
    ReadBytesOf(token, rest, "deviceToken");
  }

  /** A payload item of legal length is read into the payload, replacing whatever was there. */
  lemma PayloadItemRead(payload: seq<byte>, rest: seq<byte>, notif: Notification)
    requires |payload| <= 2048
    ensures Items(Item(ItemPayload, payload) + rest, notif) == Items(rest, notif.(payload := payload))
  {
    assert Item(ItemPayload, payload) + rest == [ItemPayload] + U16Bytes(|payload|) + (payload + rest);
    ItemHeader(ItemPayload, |payload|, payload + rest, notif);
    ReadBytesOf(payload, rest, "payload");
  }

  /**
   * As written, a repeated device-token item is not rejected: the second
   * value overwrites the first and the loop goes on.
   */
  lemma RepeatedTokenOverwrites(first: seq<byte>, second: seq<byte>, rest: seq<byte>, notif: Notification)
    requires 0 < |first| <= 100 && 0 < |second| <= 100
    ensures Items(Item(ItemDeviceToken, first) + Item(ItemDeviceToken, second) + rest, notif)
         == Items(rest, notif.(devToken := second))
  {
    assert Item(ItemDeviceToken, first) + Item(ItemDeviceToken, second) + rest
        == Item(ItemDeviceToken, first) + (Item(ItemDeviceToken, second) + rest);
    TokenItemRead(first, Item(ItemDeviceToken, second) + rest, notif);
    TokenItemRead(second, rest, notif.(devToken := first));
  }

  /** The same for a repeated payload item. */
  lemma RepeatedPayloadOverwrites(first: seq<byte>, second: seq<byte>, rest: seq<byte>, notif: Notification)
    requires |first| <= 2048 && |second| <= 2048
    ensures Items(Item(ItemPayload, first) + Item(ItemPayload, second) + rest, notif)
         == Items(rest, notif.(payload := second))
  {
    assert Item(ItemPayload, first) + Item(ItemPayload, second) + rest
        == Item(ItemPayload, first) + (Item(ItemPayload, second) + rest);
    PayloadItemRead(first, Item(ItemPayload, second) + rest, notif);
    PayloadItemRead(second, rest, notif.(payload := first));
  }

  /**
   * As written, a well-formed frame holding a token and a payload is not
   * accepted when its declared length is used up: the decoder goes on and
   * reads whatever follows (the next notification) as further items.
   */
  lemma WellFormedFrameOverruns(token: seq<byte>, payload: seq<byte>, tail: seq<byte>)
    requires 0 < |token| <= 100 && |payload| <= 2048
    ensures var items := Item(ItemDeviceToken, token) + Item(ItemPayload, payload);
            Decode([2] + U32Bytes(|items|) + items + tail)
            == Items(tail, Blank.(command := 2, devToken := token, payload := payload))
  {
    var items := Item(ItemDeviceToken, token) + Item(ItemPayload, payload);
    var s := [2] + U32Bytes(|items|) + items + tail;
    assert s[1..] == U32Bytes(|items|) + (Item(ItemDeviceToken, token) + (Item(ItemPayload, payload) + tail));
    ReadU32Of(|items|, Item(ItemDeviceToken, token) + (Item(ItemPayload, payload) + tail));
    TokenItemRead(token, Item(ItemPayload, payload) + tail, Blank.(command := 2));
    PayloadItemRead(payload, tail, Blank.(command := 2, devToken := token));
  }

  /**
   * As written, an item with an unknown id has no default case: its value
   * bytes are not skipped, and the loop reads them as the next item header.
   */
  lemma UnknownItemNotSkipped(itemId: byte, length: u16, rest: seq<byte>, notif: Notification)
    requires itemId == 0 || itemId > 5
    ensures Items([itemId] + U16Bytes(length) + rest, notif) == Items(rest, notif)
  {
    var step := ItemValue(itemId, length, rest, notif);
    assert step.result == Ok(notif) && step.rest == rest;
    ItemHeader(itemId, length, rest, notif);
  }

  /**
   * Each item's declared length is checked right after its 3-byte header,
   * before any of its value is read: on a bad length the decoder stops with
   * the value still unread.
   */
  lemma ItemLengthChecked(itemId: byte, length: u16, rest: seq<byte>, notif: Notification)
    ensures var p := Items([itemId] + U16Bytes(length) + rest, notif);
      && (itemId == ItemDeviceToken && length == 0 ==> p == Parsed(Err(TokenTooShort), rest))
      && (itemId == ItemDeviceToken && length > 100 ==> p == Parsed(Err(TokenTooLong(length)), rest))
      && (itemId == ItemPayload && length > 2048 ==> p == Parsed(Err(PayloadTooLong(length)), rest))
      && (itemId == ItemNotificationIdentifier && length != 4 ==> p == Parsed(Err(BadIdentifierLength(length)), rest))
      && (itemId == ItemExpirationDate && length != 4 ==> p == Parsed(Err(BadExpiryLength(length)), rest))
      && (itemId == ItemPriority && length != 1 ==> p == Parsed(Err(BadPriorityLength(length)), rest))
  {
    ItemHeader(itemId, length, rest, notif);
  }

  /** A priority item of length 1 is accepted exactly when its value is 5 or 10. */
  lemma PriorityValueChecked(value: byte, rest: seq<byte>, notif: Notification)
    ensures Items(Item(ItemPriority, [value]) + rest, notif)
         == if value == 5 || value == 10 then Items(rest, notif.(priority := value))
            else Parsed(Err(BadPriorityValue(value)), rest)
  {
    assert Item(ItemPriority, [value]) + rest == [ItemPriority] + U16Bytes(1) + ([value] + rest);
    ItemHeader(ItemPriority, 1, [value] + rest, notif);
    assert ([value] + rest)[1..] == rest;
  }

  // ---------------------------------------------------------------------
  // The command byte.

  /** A command byte other than 0, 1 and 2 is rejected, and nothing after it is read. */
  lemma UnknownCommandRejected(command: byte, tail: seq<byte>)
    requires command > 2
    ensures Decode([command] + tail) == Parsed(Err(UnknownCommand), tail)
  {
    assert ([command] + tail)[1..] == tail;
  }

  // ---------------------------------------------------------------------
  // The error-response packet.

  /** Reading back what Reply writes recovers the status and the identifier. */
  lemma ResponseRoundTrip(res: Response)
    ensures DecodeResponse(EncodeResponse(res)) == Some(res)
  {
  }

  /** And an error-response packet is exactly the encoding of what it decodes to. */
  lemma ResponseDecodeExact(s: seq<byte>)
    requires DecodeResponse(s).Some?
    ensures EncodeResponse(DecodeResponse(s).value) == s
  {
    U32BytesOfValue(s[2..]);
    assert s == [s[0], s[1]] + s[2..];
  }
}
