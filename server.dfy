/**
 * The per-connection loop of the server (handleClient in main.go): for each
 * notification read, one draw of the weak random generator picks a status;
 * a status of 0 sends no reply four times in five (a second draw decides),
 * status 9 drops the connection without a reply, and any other status is
 * sent back with the notification's identifier. The generator is an
 * infinite sequence of draws, consumed in order.
 */
module Server {
  import opened Bytes
  import opened Conn

  /** What handleClient does with one notification. */
  datatype Action = NoReply | DropConn | SendReply(status: byte, id: u32)

  /** How a connection's loop ends: a failed read, or a dropped connection. */
  datatype End = ReadError | Dropped

  /** Everything one connection's loop does: the replies it sends, in order, and how it ends. */
  datatype Outcome = Outcome(sent: seq<Response>, end: End)

  /**
   * The status derived from one draw: 0 when the draw modulo 100 is below
   * 55, and otherwise the band of five that it falls in above 50, up to 9.
   */
  function DeriveStatus(draw: nat): (status: byte)
    ensures status <= 9
    ensures status == 0 <==> draw % 100 < 55
    ensures status != 0 ==> 50 + 5 * status <= draw % 100 < 55 + 5 * status
  {
    var s := draw % 100;
    if s > 50 then (s - 50) / 5 else 0
  }

  /**
   * The decision for one notification, given the first draw and the draw
   * that would follow it (which is only taken when the status is 0).
   */
  function Decide(first: nat, second: nat, id: u32): (a: Action)
    ensures a == DropConn <==> first % 100 >= 95
    ensures a == NoReply <==> first % 100 < 55 && second % 5 != 0
    ensures a.SendReply? ==> a.id == id && a.status <= 8 && a.status == DeriveStatus(first)
    ensures a.SendReply? && a.status == 0 ==> second % 5 == 0
  {
    var status := DeriveStatus(first);
    if status == 0 && second % 5 != 0 then NoReply
    else if status > 8 then DropConn
    else SendReply(status, id)
  }

  /** How many draws handling one notification takes from the generator. */
  function DrawsTaken(first: nat): nat
  {
    if DeriveStatus(first) == 0 then 2 else 1
  }

  /**
   * handleClient on the notifications of one connection, with the
   * generator's draws taken from position `k` on. The read after the last
   * notification fails.
   */
  function Session(notifs: seq<Notification>, draw: nat -> nat, k: nat): Outcome
    decreases |notifs|
  {
    if notifs == [] then Outcome([], ReadError)
    else
      var rest := Session(notifs[1..], draw, k + DrawsTaken(draw(k)));
      match Decide(draw(k), draw(k + 1), notifs[0].id)
      case NoReply => rest
      case DropConn => Outcome([], Dropped)
      case SendReply(status, id) => Outcome([Response(id, status)] + rest.sent, rest.end)
  }

  /**
   * handleClient: loops over reads until one fails or the connection is
   * dropped. `replyNotification` is not part of this model; the replies it
   * would send are collected in `sent`.
   */
  method HandleClient(notifs: seq<Notification>, draw: nat -> nat) returns (sent: seq<Response>, end: End)
    ensures Outcome(sent, end) == Session(notifs, draw, 0)
  {
    sent := [];
    var i, k := 0, 0;
    while true
      invariant 0 <= i <= |notifs|
      invariant Session(notifs, draw, 0) ==
        var rest := Session(notifs[i..], draw, k); Outcome(sent + rest.sent, rest.end)
      decreases |notifs| - i
    {
      if i == |notifs| {
        end := ReadError;
        break;
      }
      var notif := notifs[i];
      assert notifs[i..][1..] == notifs[i + 1..];
      i := i + 1;
      var s := draw(k) % 100;
      k := k + 1;
      if s > 50 {
        s := s - 50;
        s := s / 5;
      } else {
        s := 0;
      }
      var status: byte := s;
      if status == 0 {
        var second := draw(k);
        k := k + 1;
        if second % 5 != 0 {
          continue;
        }
      } else if status > 8 {
        status := 255;  // assigned, then never used
        end := Dropped;
        return;
      }
      sent := sent + [Response(notif.id, status)];
    }
  }

  /**
   * Every reply carries a status from 0 to 8 and the identifier of one of
   * the notifications read; there are never more replies than notifications.
   */
  lemma {:induction false} SessionReplies(notifs: seq<Notification>, draw: nat -> nat, k: nat)
    ensures var o := Session(notifs, draw, k);
      && |o.sent| <= |notifs|
      && forall j :: 0 <= j < |o.sent| ==>
           o.sent[j].status <= 8 && exists i :: 0 <= i < |notifs| && notifs[i].id == o.sent[j].id
    decreases |notifs|
  {
    if notifs != [] {
      var k' := k + DrawsTaken(draw(k));
      SessionReplies(notifs[1..], draw, k');
      var o := Session(notifs, draw, k);
      var rest := Session(notifs[1..], draw, k');
      forall j | 0 <= j < |o.sent|
        ensures o.sent[j].status <= 8 && exists i :: 0 <= i < |notifs| && notifs[i].id == o.sent[j].id
      {
        match Decide(draw(k), draw(k + 1), notifs[0].id)
        case NoReply =>
          assert notifs[1..][0] == notifs[1];
          var i :| 0 <= i < |notifs[1..]| && notifs[1..][i].id == o.sent[j].id;
          assert notifs[i + 1].id == o.sent[j].id;
        case DropConn =>
        case SendReply(status, id) =>
          if j > 0 {
            assert o.sent[j] == rest.sent[j - 1];
            var i :| 0 <= i < |notifs[1..]| && notifs[1..][i].id == rest.sent[j - 1].id;
            assert notifs[i + 1].id == o.sent[j].id;
          } else {
            assert notifs[0].id == o.sent[j].id;
          }
      }
    }
  }

  /**
   * A dropped connection always leaves at least one notification (the one
   * whose status was 9) without a reply.
   */
  lemma {:induction false} DropLeavesUnanswered(notifs: seq<Notification>, draw: nat -> nat, k: nat)
    requires Session(notifs, draw, k).end == Dropped
    ensures |Session(notifs, draw, k).sent| < |notifs|
    decreases |notifs|
  {
    if notifs != [] {
      var k' := k + DrawsTaken(draw(k));
      if Decide(draw(k), draw(k + 1), notifs[0].id) != DropConn {
        DropLeavesUnanswered(notifs[1..], draw, k');
      }
    }
  }

  /**
   * When no draw ever lands in the no-reply or drop bands, each notification
   * gets exactly one reply, in order, and the loop ends on the failed read.
   */
  lemma {:induction false} EveryNotificationAnswered(notifs: seq<Notification>, draw: nat -> nat, k: nat)
    requires forall j :: k <= j ==> 55 <= draw(j) % 100 < 95
    ensures var o := Session(notifs, draw, k);
      && o.end == ReadError
      && |o.sent| == |notifs|
      && forall i :: 0 <= i < |notifs| ==> o.sent[i] == Response(notifs[i].id, DeriveStatus(draw(k + i)))
    decreases |notifs|
  {
    if notifs != [] {
      var first := draw(k);
      assert 55 <= first % 100 < 95;
      var status := DeriveStatus(first);
      assert 0 < status < 9;
      assert DrawsTaken(first) == 1;
      assert Decide(first, draw(k + 1), notifs[0].id) == SendReply(status, notifs[0].id);
      EveryNotificationAnswered(notifs[1..], draw, k + 1);
      var rest := Session(notifs[1..], draw, k + 1);
      var o := Session(notifs, draw, k);
      assert o == Outcome([Response(notifs[0].id, status)] + rest.sent, rest.end);
      forall i | 0 <= i < |notifs|
        ensures o.sent[i] == Response(notifs[i].id, DeriveStatus(draw(k + i)))
      {
        if i > 0 {
          assert o.sent[i] == rest.sent[i - 1];
          assert notifs[1..][i - 1] == notifs[i];
          assert k + 1 + (i - 1) == k + i;
        }
      }
    }
  }
}
