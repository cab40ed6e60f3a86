/**
 * The connection side of the mock APNs gateway (conn.go): decoding one
 * notification from the peer's byte stream in any of the three command
 * formats, and writing an error-response packet back.
 *
 * The peer's stream is a finite sequence of bytes; a read that needs more
 * bytes than are left fails, as a read from a closed connection does, and
 * (like io.ReadFull) consumes whatever was left. The pure functions below
 * say what one decode does to the unread part of the stream; the class
 * APNSConn performs the same reads step by step on a read position and is
 * proved to agree with them.
 *
 * The format-2 decoder is modelled as conn.go writes it, not as it was
 * evidently meant to work: `didRead` is never written and `bytesRead` is
 * never advanced, and an item with an unknown id has no `default` case.
 */
module Conn {
  import opened Wrappers
  import opened Bytes

  // Item ids of the format-2 (binary provider API) frame.
  const ItemDeviceToken: byte := 1
  const ItemPayload: byte := 2
  const ItemNotificationIdentifier: byte := 3
  const ItemExpirationDate: byte := 4
  const ItemPriority: byte := 5

  // Bounds the format-2 decoder enforces on item lengths.
  const MaxTokenItemLen: u16 := 100
  const MaxPayloadItemLen: u16 := 2048

  /** Command byte of the error-response packet. */
  const ReplyCommand: byte := 8

  /** One decoded notification (APNSNotificaton). */
  datatype Notification = Notification(
    command: byte,
    id: u32,
    expiry: u32,
    tokenLen: u16,
    devToken: seq<byte>,
    payloadLen: u16,
    payload: seq<byte>,
    priority: byte)

  /** The zero value that `new(APNSNotificaton)` starts every decode from. */
  const Blank := Notification(0, 0, 0, 0, [], 0, [], 0)

  /** One error response (APNSResponse). */
  datatype Response = Response(id: u32, status: byte)

  /** The errors ReadNotification returns, one constructor per distinct error value. */
  datatype Error =
    | ReadFailed                      // binary.Read ran out of stream
    | SliceReadFailed(what: string)   // readByteSlice ran out of stream ("deviceToken" or "payload")
    | UnknownCommand
    | DuplicateItem(itemId: byte)
    | TokenTooShort
    | TokenTooLong(length: u16)
    | PayloadTooLong(length: u16)
    | BadIdentifierLength(length: u16)
    | BadExpiryLength(length: u16)
    | BadPriorityLength(length: u16)
    | BadPriorityValue(value: byte)
    | MissingDeviceToken
    | MissingPayload

  /** Errors that come from the stream running dry rather than from a check on the data. */
  predicate IsReadError(e: Error)
  {
    e.ReadFailed? || e.SliceReadFailed?
  }

  /** Go's `m[k]` on a map of booleans: false for a key that is absent. */
  function Lookup(m: map<byte, bool>, k: byte): bool
  {
    k in m && m[k]
  }

  /** What a read does: its result, and the part of the stream still unread afterwards. */
  datatype Parsed<+T> = Parsed(result: Result<T, Error>, rest: seq<byte>)

  /** `p` left a suffix of `s` unread: reads only move forward. */
  predicate Consumes<T>(s: seq<byte>, p: Parsed<T>)
  {
    |p.rest| <= |s| && p.rest == s[|s| - |p.rest|..]
  }

  /** Passes a failed read on, keeping its error and what it left unread. */
  function Fail<T, U>(p: Parsed<T>): Parsed<U>
    requires p.result.Err?
  {
    Parsed(Err(p.result.error), p.rest)
  }

  // ---------------------------------------------------------------------
  // Primitive reads (binary.Read of a big-endian integer, io.ReadFull).
  // A short read consumes everything that is left.

  function ReadU8(s: seq<byte>): Parsed<byte>
  {
    if |s| < 1 then Parsed(Err(ReadFailed), []) else Parsed(Ok(s[0]), s[1..])
  }

  function ReadU16(s: seq<byte>): Parsed<u16>
  {
    if |s| < 2 then Parsed(Err(ReadFailed), []) else Parsed(Ok(U16At(s)), s[2..])
  }

  function ReadU32(s: seq<byte>): Parsed<u32>
  {
    if |s| < 4 then Parsed(Err(ReadFailed), []) else Parsed(Ok(U32At(s)), s[4..])
  }

  /** readByteSlice: exactly `length` bytes, or an error naming what was being read. */
  function ReadBytes(s: seq<byte>, length: u16, what: string): Parsed<seq<byte>>
  {
    if |s| < length then Parsed(Err(SliceReadFailed(what)), [])
    else Parsed(Ok(s[..length]), s[length..])
  }

  // ---------------------------------------------------------------------
  // The decoder, one function per function of conn.go.

  /** processLegacyV0Notification: token length, token, payload length, payload. */
  function LegacyV0(s: seq<byte>, notif: Notification): Parsed<Notification>
  {
    var tl := ReadU16(s);
    if tl.result.Err? then Fail(tl) else
    var notif := notif.(tokenLen := tl.result.value);
    var tok := ReadBytes(tl.rest, notif.tokenLen, "deviceToken");
    if tok.result.Err? then Fail(tok) else
    var notif := notif.(devToken := tok.result.value);
    var pl := ReadU16(tok.rest);
    if pl.result.Err? then Fail(pl) else
    var notif := notif.(payloadLen := pl.result.value);
    var pay := ReadBytes(pl.rest, notif.payloadLen, "payload");
    if pay.result.Err? then Fail(pay) else
    Parsed(Ok(notif.(payload := pay.result.value)), pay.rest)
  }

  /** processLegacyV1Notification: identifier and expiry, then the v0 body. */
  function LegacyV1(s: seq<byte>, notif: Notification): Parsed<Notification>
  {
    var id := ReadU32(s);
    if id.result.Err? then Fail(id) else
    var ex := ReadU32(id.rest);
    if ex.result.Err? then Fail(ex) else
    LegacyV0(ex.rest, notif.(id := id.result.value, expiry := ex.result.value))
  }

  /**
   * One arm of the item switch of the format-2 loop: the length check, made
   * right after the item header, then the read of the value. An unknown item
   * id matches no case, so its value bytes are left unread.
   */
  function ItemValue(itemId: byte, length: u16, s: seq<byte>, notif: Notification): (p: Parsed<Notification>)
    ensures Consumes(s, p)
  {
    if itemId == ItemDeviceToken then
      if length == 0 then Parsed(Err(TokenTooShort), s)
      else if length > MaxTokenItemLen then Parsed(Err(TokenTooLong(length)), s)
      else
        var v := ReadBytes(s, length, "deviceToken");
        if v.result.Err? then Fail(v) else Parsed(Ok(notif.(devToken := v.result.value)), v.rest)
    else if itemId == ItemPayload then
      if length > MaxPayloadItemLen then Parsed(Err(PayloadTooLong(length)), s)
      else
        var v := ReadBytes(s, length, "payload");
        if v.result.Err? then Fail(v) else Parsed(Ok(notif.(payload := v.result.value)), v.rest)
    else if itemId == ItemNotificationIdentifier then
      if length != 4 then Parsed(Err(BadIdentifierLength(length)), s)
      else
        var v := ReadU32(s);
        if v.result.Err? then Fail(v) else Parsed(Ok(notif.(id := v.result.value)), v.rest)
    else if itemId == ItemExpirationDate then
      if length != 4 then Parsed(Err(BadExpiryLength(length)), s)
      else
        var v := ReadU32(s);
        if v.result.Err? then Fail(v) else Parsed(Ok(notif.(expiry := v.result.value)), v.rest)
    else if itemId == ItemPriority then
      if length != 1 then Parsed(Err(BadPriorityLength(length)), s)
      else
        var v := ReadU8(s);
        if v.result.Err? then Fail(v)
        else if v.result.value != 5 && v.result.value != 10 then Parsed(Err(BadPriorityValue(v.result.value)), v.rest)
        else Parsed(Ok(notif.(priority := v.result.value)), v.rest)
    else
      Parsed(Ok(notif), s)
  }

  /**
   * The item loop of processBinaryProviderAPINotification once it has been
   * entered (frame length above 0). Since `bytesRead` stays 0 the loop
   * condition never turns false, and since `didRead` stays empty no item id
   * is ever seen as a repeat: the loop reads item after item until an item
   * check or a read fails. Every round reads at least the 3 header bytes.
   */
  function Items(s: seq<byte>, notif: Notification): Parsed<Notification>
    decreases |s|
  {
    var id := ReadU8(s);
    if id.result.Err? then Fail(id) else
    var len := ReadU16(id.rest);
    if len.result.Err? then Fail(len) else
    var step := ItemValue(id.result.value, len.result.value, len.rest, notif);
    if step.result.Err? then step else Items(step.rest, step.result.value)
  }

  /**
   * processBinaryProviderAPINotification: the frame length, then the item
   * loop. With frame length 0 the loop is skipped and the check on `didRead`
   * reports the device token missing.
   */
  function Frame(s: seq<byte>, notif: Notification): Parsed<Notification>
  {
    var fl := ReadU32(s);
    if fl.result.Err? then Fail(fl)
    else if fl.result.value == 0 then Parsed(Err(MissingDeviceToken), fl.rest)
    else Items(fl.rest, notif)
  }

  /** ReadNotification: the command byte, then the format it selects. */
  function Decode(s: seq<byte>): Parsed<Notification>
  {
    var c := ReadU8(s);
    if c.result.Err? then Fail(c) else
    var notif := Blank.(command := c.result.value);
    if c.result.value == 0 then LegacyV0(c.rest, notif)
    else if c.result.value == 1 then LegacyV1(c.rest, notif)
    else if c.result.value == 2 then Frame(c.rest, notif)
    else Parsed(Err(UnknownCommand), c.rest)
  }

  // ---------------------------------------------------------------------
  // The error-response packet.

  /** The six bytes Reply writes: command 8, the status, the big-endian identifier. */
  function EncodeResponse(res: Response): (r: seq<byte>)
    ensures |r| == 6 && r[0] == ReplyCommand && r[1] == res.status
    ensures U32At(r[2..]) == res.id
  {
    [ReplyCommand, res.status] + U32Bytes(res.id)
  }

  /** How a provider reads an error-response packet back. */
  function DecodeResponse(s: seq<byte>): Option<Response>
  {
    if |s| == 6 && s[0] == ReplyCommand then Some(Response(U32At(s[2..]), s[1])) else None
  }

  // ---------------------------------------------------------------------
  // The connection object.

  /** APNSConn: the peer's stream, how far it has been read, and what was written back. */
  class APNSConn {
    /** Every byte the peer sends on this connection, in order. */
    const input: seq<byte>
    /** How many bytes of `input` have been read. */
    var pos: nat
    /** Every byte written back to the peer, in order. */
    var output: seq<byte>

    ghost predicate Valid()
      reads this
    {
      pos <= |input|
    }

    function Unread(): seq<byte>
      reads this
      requires Valid()
    {
      input[pos..]
    }

    constructor (input: seq<byte>)
      ensures Valid() && this.input == input && pos == 0 && output == []
    {
      this.input := input;
      pos := 0;
      output := [];
    }

    method ReadByte() returns (r: Result<byte, Error>)
      requires Valid()
      modifies this`pos
      ensures Valid()
      ensures var p := ReadU8(old(Unread())); r == p.result && Unread() == p.rest
    {
      if |input| - pos < 1 {
        pos := |input|;
        return Err(ReadFailed);
      }
      r := Ok(input[pos]);
      pos := pos + 1;
    }

    method ReadUint16() returns (r: Result<u16, Error>)
      requires Valid()
      modifies this`pos
      ensures Valid()
      ensures var p := ReadU16(old(Unread())); r == p.result && Unread() == p.rest
    {
      if |input| - pos < 2 {
        pos := |input|;
        return Err(ReadFailed);
      }
      r := Ok(input[pos] as int * 0x100 + input[pos + 1]);
      pos := pos + 2;
    }

    method ReadUint32() returns (r: Result<u32, Error>)
      requires Valid()
      modifies this`pos
      ensures Valid()
      ensures var p := ReadU32(old(Unread())); r == p.result && Unread() == p.rest
    {
      if |input| - pos < 4 {
        pos := |input|;
        return Err(ReadFailed);
      }
      r := Ok(input[pos] as int * 0x100_0000 + input[pos + 1] as int * 0x1_0000
              + input[pos + 2] as int * 0x100 + input[pos + 3]);
      pos := pos + 4;
    }

    /** readByteSlice (and its two wrappers readDeviceToken and readPayload). */
    method ReadByteSlice(length: u16, what: string) returns (r: Result<seq<byte>, Error>)
      requires Valid()
      modifies this`pos
      ensures Valid()
      ensures var p := ReadBytes(old(Unread()), length, what); r == p.result && Unread() == p.rest
    {
      if |input| - pos < length {
        pos := |input|;
        return Err(SliceReadFailed(what));
      }
      assert input[pos..pos + length] == input[pos..][..length];
      r := Ok(input[pos..pos + length]);
      pos := pos + length;
    }

    method ProcessLegacyV0Notification(notif: Notification) returns (r: Result<Notification, Error>)
      requires Valid()
      modifies this`pos
      ensures Valid()
      ensures var p := LegacyV0(old(Unread()), notif); r == p.result && Unread() == p.rest
    {
      var notif := notif;
      var tokenLen := ReadUint16();
      if tokenLen.Err? {
        return Err(tokenLen.error);
      }
      notif := notif.(tokenLen := tokenLen.value);
      var devToken := ReadByteSlice(notif.tokenLen, "deviceToken");
      if devToken.Err? {
        return Err(devToken.error);
      }
      notif := notif.(devToken := devToken.value);
      var payloadLen := ReadUint16();
      if payloadLen.Err? {
        return Err(payloadLen.error);
      }
      notif := notif.(payloadLen := payloadLen.value);
      var payload := ReadByteSlice(notif.payloadLen, "payload");
      if payload.Err? {
        return Err(payload.error);
      }
      notif := notif.(payload := payload.value);
      return Ok(notif);
    }

    method ProcessLegacyV1Notification(notif: Notification) returns (r: Result<Notification, Error>)
      requires Valid()
      modifies this`pos
      ensures Valid()
      ensures var p := LegacyV1(old(Unread()), notif); r == p.result && Unread() == p.rest
    {
      var notif := notif;
      var id := ReadUint32();
      if id.Err? {
        return Err(id.error);
      }
      notif := notif.(id := id.value);
      var expiry := ReadUint32();
      if expiry.Err? {
        return Err(expiry.error);
      }
      notif := notif.(expiry := expiry.value);
      r := ProcessLegacyV0Notification(notif);
    }

    /**
     * The item switch of processBinaryProviderAPINotification: checks the
     * length an item header declares, then reads the value into `notif`.
     * There is no default case: an unknown item id reads nothing.
     */
    method ProcessItem(itemId: byte, length: u16, notif: Notification) returns (r: Result<Notification, Error>)
      requires Valid()
      modifies this`pos
      ensures Valid()
      ensures var p := ItemValue(itemId, length, old(Unread()), notif); r == p.result && Unread() == p.rest
    {
      if itemId == ItemDeviceToken {
        if length == 0 {
          return Err(TokenTooShort);
        }
        if length > MaxTokenItemLen {
          return Err(TokenTooLong(length));
        }
        var devToken := ReadByteSlice(length, "deviceToken");
        if devToken.Err? {
          return Err(devToken.error);
        }
        return Ok(notif.(devToken := devToken.value));
      } else if itemId == ItemPayload {
        if length > MaxPayloadItemLen {
          return Err(PayloadTooLong(length));
        }
        var payload := ReadByteSlice(length, "payload");
        if payload.Err? {
          return Err(payload.error);
        }
        return Ok(notif.(payload := payload.value));
      } else if itemId == ItemNotificationIdentifier {
        if length != 4 {
          return Err(BadIdentifierLength(length));
        }
        var id := ReadUint32();
        if id.Err? {
          return Err(id.error);
        }
        return Ok(notif.(id := id.value));
      } else if itemId == ItemExpirationDate {
        if length != 4 {
          return Err(BadExpiryLength(length));
        }
        var expiry := ReadUint32();
        if expiry.Err? {
          return Err(expiry.error);
        }
        return Ok(notif.(expiry := expiry.value));
      } else if itemId == ItemPriority {
        if length != 1 {
          return Err(BadPriorityLength(length));
        }
        var priority := ReadByte();
        if priority.Err? {
          return Err(priority.error);
        }
        if priority.value != 5 && priority.value != 10 {
          return Err(BadPriorityValue(priority.value));
        }
        return Ok(notif.(priority := priority.value));
      }
      return Ok(notif);
    }

    /**
     * processBinaryProviderAPINotification, with its `didRead` map and its
     * `bytesRead` counter as written; the invariant records that neither
     * ever changes.
     */
    method ProcessBinaryProviderAPINotification(notif: Notification) returns (r: Result<Notification, Error>)
      requires Valid()
      modifies this`pos
      ensures Valid()
      ensures var p := Frame(old(Unread()), notif); r == p.result && Unread() == p.rest
    {
      var notif := notif;
      var frameLength := ReadUint32();
      if frameLength.Err? {
        return Err(frameLength.error);
      }
      var didRead: map<byte, bool> := map[];
      var bytesRead: u32 := 0;
      ghost var start := Unread();
      ghost var notif0 := notif;
      assert Frame(old(Unread()), notif0) ==
        if frameLength.value == 0 then Parsed(Err(MissingDeviceToken), start) else Items(start, notif0);
      while bytesRead < frameLength.value
        invariant Valid()
        invariant didRead == map[] && bytesRead == 0
        invariant frameLength.value == 0 ==> Unread() == start
        invariant Items(Unread(), notif) == Items(start, notif0)
        decreases |input| - pos
      {
        ghost var here := Unread();
        var itemId := ReadByte();
        if itemId.Err? {
          assert Items(here, notif) == Parsed(Err(itemId.error), Unread());
          return Err(itemId.error);
        }
        var id := itemId.value;
        if id in didRead {
          return Err(DuplicateItem(id));
        }
        var itemDataLength := ReadUint16();
        if itemDataLength.Err? {
          assert Items(here, notif) == Parsed(Err(itemDataLength.error), Unread());
          return Err(itemDataLength.error);
        }
        ghost var header := Unread();
        ghost var before := notif;
        var item := ProcessItem(id, itemDataLength.value, notif);
        assert Items(here, before) == (
          var step := ItemValue(itemId.value, itemDataLength.value, header, before);
          if step.result.Err? then step else Items(step.rest, step.result.value));
        if item.Err? {
          return Err(item.error);
        }
        notif := item.value;
      }
      if !Lookup(didRead, ItemDeviceToken) {
        return Err(MissingDeviceToken);
      }
      if !Lookup(didRead, ItemPayload) {
        return Err(MissingPayload);
      }
      return Ok(notif);
    }

    /** ReadNotification: reads one notification in whichever format its command byte names. */
    method ReadNotification() returns (r: Result<Notification, Error>)
      requires Valid()
      modifies this`pos
      ensures Valid()
      ensures var p := Decode(old(Unread())); r == p.result && Unread() == p.rest
    {
      var notif := Blank;
      var command := ReadByte();
      if command.Err? {
        return Err(command.error);
      }
      notif := notif.(command := command.value);
      if notif.command == 0 {
        r := ProcessLegacyV0Notification(notif);
      } else if notif.command == 1 {
        r := ProcessLegacyV1Notification(notif);
      } else if notif.command == 2 {
        r := ProcessBinaryProviderAPINotification(notif);
      } else {
        r := Err(UnknownCommand);
      }
    }

    /** Reply: writes the command byte 8, the status byte and the big-endian identifier. */
    method Reply(status: Response)
      modifies this`output
      ensures output == old(output) + EncodeResponse(status)
    {
      output := output + [ReplyCommand];
      output := output + [status.status];
      output := output + U32Bytes(status.id);
    }
  }
}
