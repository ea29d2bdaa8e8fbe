/** The tasks around a room's actor: the host's reader, each participant's reader, each
    participant's egress forwarder, and how their messages meet in the mailbox. */
module Session {
  import opened Types
  import Packet
  import Room

  /** What one read of a WebSocket yields: `Some(Ok(message))` by message kind, and
      `Some(Err(_))` as `Failed`. The end of a frame sequence is the stream's `None`. */
  datatype Frame = Text(text: string) | Binary | Ping | Pong | Close | Failed

  /** How many frames the stream starts with that are `Text`. */
  function TextRun(frames: seq<Frame>): (n: nat)
    ensures n <= |frames|
    ensures forall i :: 0 <= i < n ==> frames[i].Text?
    ensures n < |frames| ==> !frames[n].Text?
    decreases |frames|
  {
    if frames != [] && frames[0].Text? then 1 + TextRun(frames[1..]) else 0
  }

  // ===========================================================================
  // The host's reader
  // ===========================================================================

  /** What the host's reader sends to the mailbox: `Clear` for every text frame (its
      content is not looked at), then `HostLeft` at the first frame of any other kind, an
      error, or the end of the stream. */
  function HostEvents(frames: seq<Frame>): (sent: seq<Room.RoomMessage>)
    ensures |sent| == TextRun(frames) + 1
    ensures sent[|sent| - 1] == Room.HostLeft
    ensures forall i :: 0 <= i < |sent| - 1 ==> sent[i] == Room.Clear
    decreases |frames|
  {
    if frames != [] && frames[0].Text? then [Room.Clear] + HostEvents(frames[1..])
    else [Room.HostLeft]
  }

  /** The host's reader task. */
  method HostReader(frames: seq<Frame>) returns (sent: seq<Room.RoomMessage>)
    ensures sent == HostEvents(frames)
  {
    sent := [];
    var i := 0;
    while i < |frames| && frames[i].Text?
      invariant 0 <= i <= TextRun(frames)
      invariant |sent| == i
      invariant forall k :: 0 <= k < i ==> sent[k] == Room.Clear
    {
      sent := sent + [Room.Clear];
      i := i + 1;
    }
    assert i == TextRun(frames);
    sent := sent + [Room.HostLeft];
  }

  // ===========================================================================
  // A participant's reader
  // ===========================================================================

  /** After the join: a `Buzzed` stamped with the clock for every text frame, then
      `ParticipantLeft` at the first frame of any other kind, an error, or the end. */
  function BuzzesThenLeave(p: Room.Participant, frames: seq<Frame>, clock: seq<Instant>): (sent: seq<Room.RoomMessage>)
    requires |clock| == |frames|
    ensures |sent| == TextRun(frames) + 1
    ensures sent[|sent| - 1] == Room.ParticipantLeft
    ensures forall i :: 0 <= i < |sent| - 1 ==> sent[i] == Room.Buzzed(p, clock[i])
    decreases |frames|
  {
    if frames != [] && frames[0].Text? then
      [Room.Buzzed(p, clock[0])] + BuzzesThenLeave(p, frames[1..], clock[1..])
    else [Room.ParticipantLeft]
  }

  /** What a participant's reader sends to the mailbox. `clock[i]` is `Instant::now()`
      when frame `i` is read. */
  function SessionEvents(p: Room.Participant, frames: seq<Frame>, clock: seq<Instant>): (sent: seq<Room.RoomMessage>)
    requires |clock| == |frames|
    ensures |sent| == TextRun(frames) + 2
    ensures sent[0] == Room.ParticipantJoin
    ensures sent[|sent| - 1] == Room.ParticipantLeft
    ensures forall i :: 1 <= i < |sent| - 1 ==> sent[i] == Room.Buzzed(p, clock[i - 1])
  {
    [Room.ParticipantJoin] + BuzzesThenLeave(p, frames, clock)
  }

  /** The participant's reader task: announces the join, then reads frames. */
  method ParticipantReader(p: Room.Participant, frames: seq<Frame>, clock: seq<Instant>)
    returns (sent: seq<Room.RoomMessage>)
    requires |clock| == |frames|
    ensures sent == SessionEvents(p, frames, clock)
  {
    sent := [Room.ParticipantJoin];
    var i := 0;
    while i < |frames| && frames[i].Text?
      invariant 0 <= i <= |frames|
      invariant |sent| == i + 1 && sent[0] == Room.ParticipantJoin
      invariant forall k :: 0 <= k < i ==> frames[k].Text?
      invariant forall k :: 1 <= k < |sent| ==> sent[k] == Room.Buzzed(p, clock[k - 1])
    {
      sent := sent + [Room.Buzzed(p, clock[i])];
      i := i + 1;
    }
    sent := sent + [Room.ParticipantLeft];
    assert i == TextRun(frames);
  }

  // ===========================================================================
  // A participant's egress forwarder
  // ===========================================================================

  /** The egress task of a participant: relays what the broadcast channel carries after
      its subscription, every packet in order with no filtering, until the socket refuses
      a send (it accepts `accepted` of them) or the channel ends; only in the second case
      does it close the socket. */
  method Forward(items: seq<Packet.PacketOut>, accepted: nat)
    returns (delivered: seq<Packet.PacketOut>, closedSocket: bool)
    ensures delivered == items[..if accepted < |items| then accepted else |items|]
    ensures closedSocket <==> |items| <= accepted
  {
    delivered := [];
    var i := 0;
    while i < |items|
      invariant 0 <= i <= |items| && i <= accepted
      invariant delivered == items[..i]
    {
      if i == accepted {
        // `tx.send` failed: the reader returns without closing the socket.
        closedSocket := false;
        return;
      }
      delivered := delivered + [items[i]];
      i := i + 1;
    }
    // `broadcast_rx.recv()` failed: the channel is closed.
    closedSocket := true;
  }

  /** How many `HostLeft` packets a sequence holds. */
  function HostLeftCount(packets: seq<Packet.PacketOut>): nat
    decreases |packets|
  {
    if packets == [] then 0
    else (if packets[0].HostLeft? then 1 else 0) + HostLeftCount(packets[1..])
  }

  lemma {:induction false} NoHostLeftCount(packets: seq<Packet.PacketOut>)
    requires forall i :: 0 <= i < |packets| ==> !packets[i].HostLeft?
    ensures HostLeftCount(packets) == 0
    decreases |packets|
  {
    if packets != [] {
      NoHostLeftCount(packets[1..]);
    }
  }

  /** Once the room has closed, a participant subscribed at any point before the end
      of the broadcast finds exactly one `HostLeft` in what it is sent, as the last
      packet; the host is never sent one. */
  lemma {:induction false} SubscriberSeesHostLeftOnce(s: Room.RoomState, from: nat)
    requires Room.Consistent(s) && s.closed
    requires from < |s.broadcastOut|
    ensures HostLeftCount(s.broadcastOut[from..]) == 1
    ensures s.broadcastOut[|s.broadcastOut| - 1].HostLeft?
    ensures HostLeftCount(s.hostOut) == 0
  {
    var tail := s.broadcastOut[from..];
    var last := |tail| - 1;
    assert tail == tail[..last] + [tail[last]];
    NoHostLeftCount(tail[..last]);
    HostLeftCountConcat(tail[..last], [tail[last]]);
    NoHostLeftCount(s.hostOut);
  }

  /** A subscriber whose socket takes every send, in a room that has closed: it is
      delivered the whole broadcast from its subscription on, the one `HostLeft` in it
      comes last, and it closes its socket because the channel has ended. */
  method SubscriberReceivesHostLeftLast(s: Room.RoomState, from: nat)
    returns (delivered: seq<Packet.PacketOut>, closedSocket: bool)
    requires Room.Consistent(s) && s.closed
    requires from < |s.broadcastOut|
    ensures delivered == s.broadcastOut[from..]
    ensures HostLeftCount(delivered) == 1 && delivered[|delivered| - 1].HostLeft?
    ensures closedSocket
  {
    var items := s.broadcastOut[from..];
    delivered, closedSocket := Forward(items, |items|);
    assert items[..|items|] == items;
    SubscriberSeesHostLeftOnce(s, from);
  }

  lemma {:induction false} HostLeftCountConcat(a: seq<Packet.PacketOut>, b: seq<Packet.PacketOut>)
    ensures HostLeftCount(a + b) == HostLeftCount(a) + HostLeftCount(b)
    decreases |a|
  {
    if a == [] {
      assert a + b == b;
    } else {
      assert (a + b)[1..] == a[1..] + b;
      HostLeftCountConcat(a[1..], b);
    }
  }

  // ===========================================================================
  // The mailbox
  // ===========================================================================

  /** Two senders' messages meeting in one mailbox, as the `mpsc` channel delivers
      them: `schedule` says whose message comes next (`true` for `a`). Each sender's own
      order is kept, since only the head of `a` or of `b` is ever taken; the join-before-
      leave argument of `MergeBalanced` rests on that, through the recursion, while the
      contract states only that no message is lost or added. */
  function Merge(a: seq<Room.RoomMessage>, b: seq<Room.RoomMessage>, schedule: seq<bool>)
    : (m: seq<Room.RoomMessage>)
    ensures |m| == |a| + |b|
    ensures multiset(m) == multiset(a) + multiset(b)
    decreases |a| + |b|
  {
    if a == [] then b
    else if b == [] then a
    else if schedule != [] && schedule[0] then
      assert a == [a[0]] + a[1..];
      [a[0]] + Merge(a[1..], b, schedule[1..])
    else
      assert b == [b[0]] + b[1..];
      [b[0]] + Merge(a, b[1..], if schedule == [] then [] else schedule[1..])
  }

  /** Everything the senders sent, counted with repetitions. */
  ghost function Sent(streams: seq<seq<Room.RoomMessage>>): multiset<Room.RoomMessage>
    decreases |streams|
  {
    if streams == [] then multiset{} else multiset(streams[0]) + Sent(streams[1..])
  }

  /** Any number of senders' messages meeting in one mailbox: exactly the messages sent
      arrive, each as often as it was sent. */
  function MergeAll(streams: seq<seq<Room.RoomMessage>>, schedules: seq<seq<bool>>)
    : (m: seq<Room.RoomMessage>)
    requires |schedules| == |streams|
    ensures multiset(m) == Sent(streams)
    decreases |streams|
  {
    if streams == [] then []
    else Merge(streams[0], MergeAll(streams[1..], schedules[1..]), schedules[0])
  }

  /** No sender's message is lost in the mailbox. */
  lemma {:induction false} MergeAllKeepsEveryStream(streams: seq<seq<Room.RoomMessage>>, schedules: seq<seq<bool>>, k: nat)
    requires |schedules| == |streams| && k < |streams|
    ensures multiset(streams[k]) <= multiset(MergeAll(streams, schedules))
    decreases k
  {
    var m := MergeAll(streams, schedules);
    assert multiset(m) == multiset(streams[0]) + multiset(MergeAll(streams[1..], schedules[1..]));
    if k > 0 {
      assert streams[1..][k - 1] == streams[k];
      MergeAllKeepsEveryStream(streams[1..], schedules[1..], k - 1);
    }
  }

  /** Interleaving two streams along which the count never goes negative gives one
      along which it never goes negative either. */
  lemma {:induction false} MergeBalanced(i: int, a: seq<Room.RoomMessage>, j: int, b: seq<Room.RoomMessage>, schedule: seq<bool>)
    requires Room.BalancedFrom(i, a) && Room.BalancedFrom(j, b)
    ensures Room.BalancedFrom(i + j, Merge(a, b, schedule))
    decreases |a| + |b|
  {
    assert i >= 0 && j >= 0;
    if a == [] {
      Room.BalancedFromMonotone(j, i + j, b);
    } else if b == [] {
      Room.BalancedFromMonotone(i, i + j, a);
    } else if schedule != [] && schedule[0] {
      var tail := Merge(a[1..], b, schedule[1..]);
      assert Merge(a, b, schedule) == [a[0]] + tail;
      MergeBalanced(i + Room.Delta(a[0]), a[1..], j, b, schedule[1..]);
      BalancedCons(i + j, a[0], tail);
    } else {
      var rest := if schedule == [] then [] else schedule[1..];
      var tail := Merge(a, b[1..], rest);
      assert Merge(a, b, schedule) == [b[0]] + tail;
      MergeBalanced(i, a, j + Room.Delta(b[0]), b[1..], rest);
      BalancedCons(i + j, b[0], tail);
    }
  }

  /** One message in front of a stream that stays balanced after it. */
  lemma BalancedCons(count: int, msg: Room.RoomMessage, rest: seq<Room.RoomMessage>)
    requires count >= 0 && Room.BalancedFrom(count + Room.Delta(msg), rest)
    ensures Room.BalancedFrom(count, [msg] + rest)
  {
    assert ([msg] + rest)[0] == msg && ([msg] + rest)[1..] == rest;
  }

  lemma {:induction false} MergeAllBalanced(streams: seq<seq<Room.RoomMessage>>, schedules: seq<seq<bool>>)
    requires |schedules| == |streams|
    requires forall k :: 0 <= k < |streams| ==> Room.BalancedFrom(0, streams[k])
    ensures Room.BalancedFrom(0, MergeAll(streams, schedules))
    decreases |streams|
  {
    if streams != [] {
      MergeAllBalanced(streams[1..], schedules[1..]);
      MergeBalanced(0, streams[0], 0, MergeAll(streams[1..], schedules[1..]), schedules[0]);
    }
  }

  lemma {:induction false} BuzzesThenLeaveBalanced(count: int, p: Room.Participant, frames: seq<Frame>, clock: seq<Instant>)
    requires |clock| == |frames| && count >= 1
    ensures Room.BalancedFrom(count, BuzzesThenLeave(p, frames, clock))
    decreases |frames|
  {
    if frames != [] && frames[0].Text? {
      BuzzesThenLeaveBalanced(count, p, frames[1..], clock[1..]);
      BalancedCons(count, Room.Buzzed(p, clock[0]), BuzzesThenLeave(p, frames[1..], clock[1..]));
    } else {
      assert Room.BalancedFrom(count - 1, []);
      BalancedCons(count, Room.ParticipantLeft, []);
      assert [Room.ParticipantLeft] + [] == [Room.ParticipantLeft];
    }
  }

  /** What a participant's reader has put in the mailbox so far never takes the count
      below zero: it announces its join before anything else. */
  lemma SessionPrefixBalanced(p: Room.Participant, frames: seq<Frame>, clock: seq<Instant>, n: nat)
    requires |clock| == |frames| && n <= TextRun(frames) + 2
    ensures Room.BalancedFrom(0, SessionEvents(p, frames, clock)[..n])
  {
    var sent := SessionEvents(p, frames, clock);
    BuzzesThenLeaveBalanced(1, p, frames, clock);
    assert sent[1..] == BuzzesThenLeave(p, frames, clock);
    Room.BalancedFromPrefix(0, sent, n);
  }

  lemma {:induction false} NeutralBalanced(count: int, msgs: seq<Room.RoomMessage>)
    requires count >= 0
    requires forall i :: 0 <= i < |msgs| ==> Room.Delta(msgs[i]) == 0
    ensures Room.BalancedFrom(count, msgs)
    decreases |msgs|
  {
    if msgs != [] {
      NeutralBalanced(count, msgs[1..]);
    }
  }

  /** What the host's reader has put in the mailbox so far leaves the count alone. */
  lemma HostPrefixBalanced(frames: seq<Frame>, n: nat)
    requires n <= TextRun(frames) + 1
    ensures Room.BalancedFrom(0, HostEvents(frames)[..n])
  {
    NeutralBalanced(0, HostEvents(frames)[..n]);
  }

  /** A mailbox filled by the host's reader and any number of participant sessions,
      interleaved in any way, is processed from the start without the count
      underflowing, and the count then equals joins minus leaves. */
  lemma SessionMailboxKeepsCount(id: Ulid, name: string,
                                 host: seq<Room.RoomMessage>, sessions: seq<seq<Room.RoomMessage>>,
                                 hostSchedule: seq<bool>, schedules: seq<seq<bool>>)
    requires Room.BalancedFrom(0, host)
    requires forall k :: 0 <= k < |sessions| ==> Room.BalancedFrom(0, sessions[k])
    requires |schedules| == |sessions|
    ensures var mailbox := Merge(host, MergeAll(sessions, schedules), hostSchedule);
      && Room.Admissible(Room.Initial(id, name), mailbox)
      && Room.Process(Room.Initial(id, name), mailbox).participantsCount
           == Room.Net(Room.UntilHostLeft(mailbox))
  {
    var mailbox := Merge(host, MergeAll(sessions, schedules), hostSchedule);
    MergeAllBalanced(sessions, schedules);
    MergeBalanced(0, host, 0, MergeAll(sessions, schedules), hostSchedule);
    Room.BalancedIsAdmissible(Room.Initial(id, name), mailbox);
    Room.CountIsJoinsMinusLeaves(Room.Initial(id, name), mailbox);
  }
}
