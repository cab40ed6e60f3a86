/**
 * The bounds-check reply policy (simulator.go): APNSNormalSimulator answers
 * each notification with its own identifier and a status chosen from the
 * payload and token lengths, after filling in any configuration field that
 * was left at zero or below.
 */
module Simulator {
  import opened Wrappers
  import opened Bytes
  import opened Conn

  const DefaultMaxPayloadLen := 256
  const DefaultDeviceTokenLen := 32

  // Statuses the policy can answer with.
  const StatusNoErrors: byte := 0
  const StatusInvalidTokenSize: byte := 5
  const StatusInvalidPayloadSize: byte := 7

  /**
   * The status for a notification with the given payload and token lengths:
   * an over-long payload is reported whatever the token, a token of the
   * wrong length only when the payload is within bounds, and anything else
   * succeeds.
   */
  function BoundsStatus(payloadLen: nat, tokenLen: nat, maxPayloadLen: int, deviceTokenLen: int): (status: byte)
    ensures status == StatusInvalidPayloadSize <==> payloadLen > maxPayloadLen
    ensures status == StatusInvalidTokenSize <==> payloadLen <= maxPayloadLen && tokenLen != deviceTokenLen
    ensures status == StatusNoErrors <==> payloadLen <= maxPayloadLen && tokenLen == deviceTokenLen
  {
    if payloadLen > maxPayloadLen then StatusInvalidPayloadSize
    else if tokenLen != deviceTokenLen then StatusInvalidTokenSize
    else StatusNoErrors
  }

  /** APNSNormalSimulator, the one implementation of the APNSSimulator interface. */
  class APNSNormalSimulator {
    var maxPayloadLen: int
    var deviceTokenLen: int

    /** A simulator as a struct literal builds it; zero fields mean "use the default". */
    constructor (maxPayloadLen: int, deviceTokenLen: int)
      ensures this.maxPayloadLen == maxPayloadLen && this.deviceTokenLen == deviceTokenLen
    {
      this.maxPayloadLen := maxPayloadLen;
      this.deviceTokenLen := deviceTokenLen;
    }

    /**
     * Reply: the response carries the notification's identifier; a field
     * at zero or below is replaced by its default, and the replacement stays
     * on the simulator; the error is always nil.
     */
    method Reply(notif: Notification) returns (r: Result<Response, string>)
      modifies this
      ensures maxPayloadLen == if old(maxPayloadLen) <= 0 then DefaultMaxPayloadLen else old(maxPayloadLen)
      ensures deviceTokenLen == if old(deviceTokenLen) <= 0 then DefaultDeviceTokenLen else old(deviceTokenLen)
      ensures maxPayloadLen > 0 && deviceTokenLen > 0
      ensures r.Ok? && r.value.id == notif.id
      ensures r.value.status == BoundsStatus(|notif.payload|, |notif.devToken|, maxPayloadLen, deviceTokenLen)
    {
      var res := Response(notif.id, StatusNoErrors);
      if maxPayloadLen <= 0 {
        maxPayloadLen := DefaultMaxPayloadLen;
      }
      if deviceTokenLen <= 0 {
        deviceTokenLen := DefaultDeviceTokenLen;
      }
      if |notif.payload| > maxPayloadLen {
        res := res.(status := StatusInvalidPayloadSize);
      } else if |notif.devToken| != deviceTokenLen {
        res := res.(status := StatusInvalidTokenSize);
      }
      return Ok(res);
    }
  }
}
